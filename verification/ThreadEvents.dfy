/** The reducer of a Codex thread. */
module ThreadEvents {
  // Notifications of many items, interleaved, are folded into one list of items with a phase.

  import opened Basics
  import opened Text
  import opened Jsonl

  datatype ItemKind = AgentMessage | Reasoning | Command | Patch | UserMessage | OtherKind

  datatype Item = Item(id: string, kind: ItemKind, text: string, done: bool)

  datatype Phase = Idle | Running | Done | Failed

  datatype McpServer = McpServer(name: string, status: string, error: Option<string>)

  datatype ThreadState = ThreadState(
    threadId: Option<string>, turnId: Option<string>, phase: Phase, items: seq<Item>,
    error: Option<string>, mcpServers: seq<McpServer>)

  datatype Notification = Notification(method_: string, params: Json)

  // ---- Reading parameters ----

  type Record = map<string, Json>

  function AsRecord(v: Json): Record {
    if v.JObj? then v.fields else map[]
  }

  function Sub(r: Record, key: string): Record {
    if key in r then AsRecord(r[key]) else map[]
  }

  /** A string field that is present and not empty. */
  function Str(r: Record, key: string): Option<string> {
    if key in r && r[key].JStr? && r[key].s != "" then Some(r[key].s) else None
  }

  function GetOr<T>(a: Option<T>, default: T): T {
    if a.Some? then a.value else default
  }

  predicate Includes(s: string, t: string) {
    exists i :: 0 <= i <= |s| && t <= s[i..]
  }

  predicate EndsWith(s: string, t: string) {
    |t| <= |s| && s[|s| - |t|..] == t
  }

  function KindOfMethod(m: string): ItemKind {
    if Includes(m, "agentMessage") then AgentMessage
    else if Includes(m, "reasoning") then Reasoning
    else if Includes(m, "command") || Includes(m, "exec") then Command
    else if Includes(m, "patch") || Includes(m, "diff") || Includes(m, "fileChange") then Patch
    else OtherKind
  }

  function KindOfType(t: string): ItemKind {
    if t == "agentMessage" then AgentMessage
    else if t == "reasoning" then Reasoning
    else if t == "commandExecution" then Command
    else if t == "fileChange" then Patch
    else if t == "userMessage" then UserMessage
    else OtherKind
  }

  function SignedDecimal(n: int): string {
    if n < 0 then "-" + Decimal(-n) else Decimal(n)
  }

  /** The non-empty texts of a user message's parts. */
  function PartTexts(parts: seq<Json>): seq<string> {
    if parts == [] then []
    else
      var text := Str(AsRecord(parts[0]), "text");
      (if text.Some? then [text.value] else []) + PartTexts(parts[1..])
  }

  function UserText(item: Record): Option<string> {
    var parts := if "content" in item && item["content"].JArr? then item["content"].items else [];
    var texts := PartTexts(parts);
    if texts == [] then None else Some(Join(texts, '\n'))
  }

  function CommandText(item: Record): Option<string> {
    var cmd, out := Str(item, "command"), Str(item, "aggregatedOutput");
    if cmd.None? && out.None? then None
    else
      var head := if cmd.Some? then "$ " + cmd.value else "";
      var tail := if out.Some? then "\n" + out.value else "";
      var status := if "exitCode" in item && item["exitCode"].JNum? && item["exitCode"].n != 0
                    then "\n[exit " + SignedDecimal(item["exitCode"].n) + "]" else "";
      Some(head + tail + status)
  }

  function ItemText(item: Record): Option<string> {
    var type_ := if "type" in item && item["type"].JStr? then item["type"].s else "";
    if type_ == "userMessage" then UserText(item)
    else if type_ == "commandExecution" then CommandText(item)
    else if type_ == "fileChange" then
      var status := Str(item, "status");
      if status.Some? then Some("fileChange: " + status.value) else None
    else OrElse(OrElse(Str(item, "text"), Str(item, "summary")), Str(item, "content"))
  }

  const MAX_ITEM_TEXT := 200_000
  const CUT_NOTE := "\U{2026}(da cat phan dau)\U{2026}\n"

  /** Keeps the end of a text that has become too long. */
  function AppendText(prev: string, added: string): string {
    var joined := prev + added;
    if |joined| <= MAX_ITEM_TEXT then joined else CUT_NOTE + joined[|joined| - MAX_ITEM_TEXT..]
  }

  // ---- One notification ----

  /** What a notification does to the list of items. */
  datatype ItemAction =
    | Untouched
    | CloseAll
    | Delta(id: string, kind: ItemKind, added: string)
    | Started(id: string, kind: ItemKind, initial: string)
    | Completed(id: string, kind: ItemKind, full: Option<string>)
    | Seen(id: string, kind: ItemKind, initial: string)

  predicate NamesItem(a: ItemAction) {
    a.Delta? || a.Started? || a.Completed? || a.Seen?
  }

  function ItemActionOf(n: Notification): ItemAction {
    var p := AsRecord(n.params);
    var item := Sub(p, "item");
    var id := OrElse(Str(p, "itemId"), Str(item, "id"));
    if n.method_ == "turn/completed" then CloseAll
    else if !("item/" <= n.method_) || id.None? then Untouched
    else
      var type_ := Str(item, "type");
      var kind := if type_.Some? then KindOfType(type_.value) else KindOfMethod(n.method_);
      if EndsWith(n.method_, "Delta") || EndsWith(n.method_, "/delta") then
        var added := OrElse(Str(p, "delta"), Str(p, "text"));
        if added.None? then Untouched else Delta(id.value, kind, added.value)
      else if n.method_ == "item/started" then Started(id.value, kind, GetOr(ItemText(item), ""))
      else if n.method_ == "item/completed" then Completed(id.value, kind, ItemText(item))
      else Seen(id.value, kind, GetOr(ItemText(item), ""))
  }

  function UpgradedKind(prev: ItemKind, kind: ItemKind): ItemKind {
    if prev.OtherKind? then kind else prev
  }

  /** The item after an action that names it. */
  function Patched(prev: Option<Item>, a: ItemAction): Item
    requires NamesItem(a)
  {
    match a
    case Delta(id, kind, added) =>
      if prev.Some? then
        prev.value.(kind := UpgradedKind(prev.value.kind, kind), text := AppendText(prev.value.text, added))
      else Item(id, kind, added, false)
    case Started(id, kind, initial) =>
      if prev.Some? then prev.value.(kind := UpgradedKind(prev.value.kind, kind))
      else Item(id, kind, initial, false)
    case Completed(id, kind, full) =>
      var newKind := if prev.Some? then UpgradedKind(prev.value.kind, kind) else kind;
      var fullLength := if full.Some? then |full.value| else 0;
      var prevText := if prev.Some? then prev.value.text else "";
      Item(id, newKind, if fullLength >= |prevText| then GetOr(full, prevText) else prevText, true)
    case Seen(id, kind, initial) =>
      if prev.Some? then prev.value else Item(id, kind, initial, false)
  }

  function ItemIndex(items: seq<Item>, id: string): (r: Option<nat>)
    ensures r.Some? ==> r.value < |items| && items[r.value].id == id
    ensures r.Some? ==> forall j :: 0 <= j < r.value ==> items[j].id != id
    ensures r.None? ==> forall j :: 0 <= j < |items| ==> items[j].id != id
  {
    if items == [] then None
    else if items[0].id == id then Some(0)
    else
      var rest := ItemIndex(items[1..], id);
      if rest.None? then None else Some(rest.value + 1)
  }

  function Upsert(items: seq<Item>, a: ItemAction): seq<Item>
    requires NamesItem(a)
  {
    var at := ItemIndex(items, a.id);
    if at.None? then items + [Patched(None, a)]
    else items[at.value := Patched(Some(items[at.value]), a)]
  }

  function Closed(item: Item): Item {
    item.(done := true)
  }

  function ActOnItems(items: seq<Item>, a: ItemAction): seq<Item> {
    match a
    case Untouched => items
    case CloseAll => seq(|items|, i requires 0 <= i < |items| => Closed(items[i]))
    case _ => Upsert(items, a)
  }

  function ServerIndex(servers: seq<McpServer>, name: string): (r: Option<nat>)
    ensures r.Some? ==> r.value < |servers|
  {
    if servers == [] then None
    else if servers[0].name == name then Some(0)
    else
      var rest := ServerIndex(servers[1..], name);
      if rest.None? then None else Some(rest.value + 1)
  }

  function ReduceServers(servers: seq<McpServer>, p: Record): seq<McpServer> {
    var name := Str(p, "name");
    if name.None? then servers
    else
      var entry := McpServer(name.value, GetOr(Str(p, "status"), "unknown"), Str(p, "error"));
      var at := ServerIndex(servers, name.value);
      if at.None? then servers + [entry] else servers[at.value := entry]
  }

  /** Everything of the state but the items. */
  function ReduceFrame(s: ThreadState, n: Notification): ThreadState {
    var p := AsRecord(n.params);
    if n.method_ == "thread/started" then
      var thread := Sub(p, "thread");
      s.(threadId := OrElse(OrElse(Str(thread, "id"), Str(thread, "sessionId")), s.threadId))
    else if n.method_ == "turn/started" then
      s.(turnId := OrElse(Str(Sub(p, "turn"), "id"), s.turnId), phase := Running, error := None)
    else if n.method_ == "turn/completed" then
      var turn := Sub(p, "turn");
      if Str(turn, "status") == Some("failed") then
        var err := Sub(turn, "error");
        s.(phase := Failed,
           error := Some(GetOr(OrElse(Str(err, "message"), Str(err, "reason")), "luot chay that bai")))
      else s.(phase := Done)
    else if n.method_ == "thread/status/changed" then
      var st := Sub(p, "status");
      if Str(st, "type") == Some("systemError") then
        s.(phase := Failed, error := Some(GetOr(Str(st, "message"), "loi he thong")))
      else s
    else if n.method_ == "mcpServer/startupStatus/updated" then
      s.(mcpServers := ReduceServers(s.mcpServers, p))
    else s
  }

  function Reduce(s: ThreadState, n: Notification): ThreadState {
    ReduceFrame(s, n).(items := ActOnItems(s.items, ItemActionOf(n)))
  }

  /** The items after the first n notifications. */
  function ReduceAll(s: ThreadState, events: seq<Notification>): ThreadState
    decreases |events|
  {
    if events == [] then s else ReduceAll(Reduce(s, events[0]), events[1..])
  }

  // ---- Each item on its own ----

  function ItemOf(items: seq<Item>, id: string): Option<Item> {
    var at := ItemIndex(items, id);
    if at.Some? then Some(items[at.value]) else None
  }

  function ItemAfter(item: Option<Item>, a: ItemAction, id: string): Option<Item> {
    if a.CloseAll? then (if item.Some? then Some(Closed(item.value)) else None)
    else if NamesItem(a) && a.id == id then Some(Patched(item, a))
    else item
  }

  /** What one notification does to one item, the rest of the list left aside. */
  function ItemStep(item: Option<Item>, n: Notification, id: string): Option<Item> {
    ItemAfter(item, ItemActionOf(n), id)
  }

  function ItemRun(item: Option<Item>, events: seq<Notification>, id: string): Option<Item>
    decreases |events|
  {
    if events == [] then item else ItemRun(ItemStep(item, events[0], id), events[1..], id)
  }

  lemma IndexIs(items: seq<Item>, id: string, k: nat)
    requires k < |items| && items[k].id == id && forall j :: 0 <= j < k ==> items[j].id != id
    ensures ItemIndex(items, id) == Some(k)
  {
  }

  lemma OneItemAfter(items: seq<Item>, a: ItemAction, id: string)
    ensures ItemOf(ActOnItems(items, a), id) == ItemAfter(ItemOf(items, id), a, id)
  {
    var next := ActOnItems(items, a);
    var at := ItemIndex(items, id);
    if NamesItem(a) && ItemIndex(items, a.id).None? && a.id == id {
      IndexIs(next, id, |items|);
    } else if at.Some? {
      IndexIs(next, id, at.value);
    }
  }

  lemma ActOnOneItem(items: seq<Item>, n: Notification, id: string)
    ensures ItemOf(ActOnItems(items, ItemActionOf(n)), id) == ItemStep(ItemOf(items, id), n, id)
  {
    OneItemAfter(items, ItemActionOf(n), id);
  }

  predicate Concerns(n: Notification, id: string) {
    var a := ItemActionOf(n);
    a.CloseAll? || (NamesItem(a) && a.id == id)
  }

  function Concerning(events: seq<Notification>, id: string): seq<Notification> {
    if events == [] then []
    else (if Concerns(events[0], id) then [events[0]] else []) + Concerning(events[1..], id)
  }

  lemma {:induction false} ReducerIsItemwise(s: ThreadState, events: seq<Notification>, id: string)
    ensures ItemOf(ReduceAll(s, events).items, id) == ItemRun(ItemOf(s.items, id), events, id)
    decreases |events|
  {
    if events != [] {
      ActOnOneItem(s.items, events[0], id);
      ReducerIsItemwise(Reduce(s, events[0]), events[1..], id);
    }
  }

  lemma {:induction false} RunSkipsOthers(item: Option<Item>, events: seq<Notification>, id: string)
    ensures ItemRun(item, events, id) == ItemRun(item, Concerning(events, id), id)
    decreases |events|
  {
    if events != [] {
      RunSkipsOthers(ItemStep(item, events[0], id), events[1..], id);
      if Concerns(events[0], id) {
        assert Concerning(events, id)[1..] == Concerning(events[1..], id);
      } else {
        assert Concerning(events, id) == Concerning(events[1..], id);
      }
    }
  }

  /** Item locality: whatever is interleaved, an item is what the events naming it and the ends of
      turns make of it. */
  lemma ItemLocality(s: ThreadState, events: seq<Notification>, id: string)
    ensures ItemOf(ReduceAll(s, events).items, id)
            == ItemOf(ReduceAll(s, Concerning(events, id)).items, id)
  {
    ReducerIsItemwise(s, events, id);
    ReducerIsItemwise(s, Concerning(events, id), id);
    RunSkipsOthers(ItemOf(s.items, id), events, id);
  }

  // ---- Order and identity ----

  function Ids(items: seq<Item>): seq<string> {
    seq(|items|, i requires 0 <= i < |items| => items[i].id)
  }

  /** Ids in the order of their first mention, after the ones already there. */
  function Mentions(known: seq<string>, events: seq<Notification>): seq<string>
    decreases |events|
  {
    if events == [] then known
    else
      var a := ItemActionOf(events[0]);
      Mentions(if NamesItem(a) && a.id !in known then known + [a.id] else known, events[1..])
  }

  lemma IdsAfterAction(items: seq<Item>, a: ItemAction)
    ensures Ids(ActOnItems(items, a)) ==
            if NamesItem(a) && a.id !in Ids(items) then Ids(items) + [a.id] else Ids(items)
  {
    if NamesItem(a) {
      var at := ItemIndex(items, a.id);
      if at.Some? {
        assert Ids(items)[at.value] == a.id;
        assert Ids(ActOnItems(items, a)) == Ids(items);
      } else {
        assert a.id !in Ids(items);
      }
    }
  }

  /** Ids stay in first-mention order. */
  lemma {:induction false} ItemsInMentionOrder(s: ThreadState, events: seq<Notification>)
    ensures Ids(ReduceAll(s, events).items) == Mentions(Ids(s.items), events)
    decreases |events|
  {
    if events != [] {
      IdsAfterAction(s.items, ItemActionOf(events[0]));
      ItemsInMentionOrder(Reduce(s, events[0]), events[1..]);
    }
  }

  lemma {:induction false} MentionsAreDistinct(known: seq<string>, events: seq<Notification>)
    requires Distinct(known)
    ensures Distinct(Mentions(known, events))
    decreases |events|
  {
    if events != [] {
      var a := ItemActionOf(events[0]);
      MentionsAreDistinct(if NamesItem(a) && a.id !in known then known + [a.id] else known, events[1..]);
    }
  }

  /** Ids are unique in every state reached from one where they are. */
  lemma IdsStayUnique(s: ThreadState, events: seq<Notification>)
    requires Distinct(Ids(s.items))
    ensures Distinct(Ids(ReduceAll(s, events).items))
  {
    ItemsInMentionOrder(s, events);
    MentionsAreDistinct(Ids(s.items), events);
  }

  // ---- What never goes back ----

  /** What holds between an item and the same item later. */
  ghost predicate Advances(before: Option<Item>, after: Option<Item>) {
    before.Some? ==>
      && after.Some? && after.value.id == before.value.id
      && (before.value.done ==> after.value.done)
      && (!before.value.kind.OtherKind? ==> after.value.kind == before.value.kind)
  }

  lemma {:induction false} RunAdvances(item: Option<Item>, events: seq<Notification>, id: string)
    requires item.Some? ==> item.value.id == id
    ensures Advances(item, ItemRun(item, events, id))
    decreases |events|
  {
    if events != [] {
      RunAdvances(ItemStep(item, events[0], id), events[1..], id);
    }
  }

  /** An item never disappears, is never re-opened and never changes a kind other than `other`. */
  lemma ItemsOnlyAdvance(s: ThreadState, events: seq<Notification>, id: string)
    ensures Advances(ItemOf(s.items, id), ItemOf(ReduceAll(s, events).items, id))
  {
    ReducerIsItemwise(s, events, id);
    RunAdvances(ItemOf(s.items, id), events, id);
  }

  /** A completion never shortens the text; only appending to one that is beyond the limit does. */
  lemma CompletionKeepsText(s: ThreadState, n: Notification, id: string)
    requires ItemOf(s.items, id).Some?
    ensures var before, after := ItemOf(s.items, id).value, ItemOf(Reduce(s, n).items, id);
            && after.Some?
            && (|after.value.text| < |before.text| ==>
                  ItemActionOf(n).Delta? && |before.text| > MAX_ITEM_TEXT)
            && (n.method_ == "turn/completed" ==> after.value == Closed(before))
  {
    ActOnOneItem(s.items, n, id);
  }

  /** After a turn has ended nothing is left streaming. */
  lemma TurnEndClosesAll(s: ThreadState, n: Notification)
    requires n.method_ == "turn/completed"
    ensures forall i :: 0 <= i < |Reduce(s, n).items| ==> Reduce(s, n).items[i].done
    ensures Reduce(s, n).phase.Done? || Reduce(s, n).phase.Failed?
  {
  }

  // ---- Long texts keep their end ----

  function Tail(s: string): string {
    if |s| <= MAX_ITEM_TEXT then s else s[|s| - MAX_ITEM_TEXT..]
  }

  function AppendAll(text: string, deltas: seq<string>, n: nat): string
    requires n <= |deltas|
  {
    if n == 0 then text else AppendText(AppendAll(text, deltas, n - 1), deltas[n - 1])
  }

  function Streamed(text: string, deltas: seq<string>, n: nat): string
    requires n <= |deltas|
  {
    if n == 0 then text else Streamed(text, deltas, n - 1) + deltas[n - 1]
  }

  lemma TailOfAppended(a: string, b: string, added: string)
    requires Tail(a) == Tail(b)
    ensures Tail(a + added) == Tail(b + added)
  {
    var t := Tail(a);
    if |added| >= MAX_ITEM_TEXT {
      assert Tail(a + added) == Tail(added) == Tail(b + added);
    } else {
      assert Tail(a + added) == Tail(t + added) == Tail(b + added);
    }
  }

  lemma TailOfCut(prev: string, added: string)
    ensures Tail(AppendText(prev, added)) == Tail(prev + added)
  {
    var joined := prev + added;
    if |joined| > MAX_ITEM_TEXT {
      var tail := joined[|joined| - MAX_ITEM_TEXT..];
      assert Tail(CUT_NOTE + tail) == tail;
    }
  }

  /** However a text is streamed and cut, its last 200000 characters are those of the whole stream. */
  lemma {:induction false} DeltasKeepTheEnd(text: string, deltas: seq<string>, n: nat)
    requires n <= |deltas|
    ensures Tail(AppendAll(text, deltas, n)) == Tail(Streamed(text, deltas, n))
  {
    if n > 0 {
      DeltasKeepTheEnd(text, deltas, n - 1);
      TailOfCut(AppendAll(text, deltas, n - 1), deltas[n - 1]);
      TailOfAppended(AppendAll(text, deltas, n - 1), Streamed(text, deltas, n - 1), deltas[n - 1]);
    }
  }
}
