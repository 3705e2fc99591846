/** What the state of a Codex thread says, read off the parameters of the notifications. */
module ThreadLaws {
  import opened Basics
  import opened Text
  import opened Jsonl
  import opened ThreadEvents

  // ---- Looking into parameters ----

  /** The value behind a path of field names. */
  function At(v: Json, path: seq<string>): Option<Json>
    decreases |path|
  {
    if path == [] then Some(v)
    else if v.JObj? && path[0] in v.fields then At(v.fields[path[0]], path[1..])
    else None
  }

  /** The text behind a path; an empty one counts as none. */
  function TextAt(v: Json, path: seq<string>): Option<string> {
    match At(v, path)
    case Some(JStr(s)) => if s == "" then None else Some(s)
    case _ => None
  }

  function Either(v: Json, first: seq<string>, second: seq<string>): Option<string> {
    if TextAt(v, first).Some? then TextAt(v, first) else TextAt(v, second)
  }

  lemma AtFirst(v: Json, key: string, rest: seq<string>)
    ensures At(v, [key] + rest) ==
            if v.JObj? && key in v.fields then At(v.fields[key], rest) else None
  {
    assert ([key] + rest)[1..] == rest;
  }

  lemma FieldIsAt(v: Json, a: string)
    ensures Str(AsRecord(v), a) == TextAt(v, [a])
  {
    AtFirst(v, a, []);
    assert [a] + [] == [a];
  }

  lemma SubFieldIsAt(v: Json, a: string, b: string)
    ensures Str(Sub(AsRecord(v), a), b) == TextAt(v, [a, b])
  {
    AtFirst(v, a, [b]);
    assert [a] + [b] == [a, b];
    if v.JObj? && a in v.fields {
      FieldIsAt(v.fields[a], b);
    }
  }

  lemma SubSubFieldIsAt(v: Json, a: string, b: string, c: string)
    ensures Str(Sub(Sub(AsRecord(v), a), b), c) == TextAt(v, [a, b, c])
  {
    AtFirst(v, a, [b, c]);
    assert [a] + [b, c] == [a, b, c];
    if v.JObj? && a in v.fields {
      SubFieldIsAt(v.fields[a], b, c);
    }
  }

  // ---- The thread, the turn, the phase, the error ----

  predicate TurnFails(n: Notification) {
    n.method_ == "turn/completed" && TextAt(n.params, ["turn", "status"]) == Some("failed")
  }

  predicate SystemFails(n: Notification) {
    n.method_ == "thread/status/changed" && TextAt(n.params, ["status", "type"]) == Some("systemError")
  }

  function PhaseSaid(n: Notification): Option<Phase> {
    if n.method_ == "turn/started" then Some(Running)
    else if TurnFails(n) || SystemFails(n) then Some(Failed)
    else if n.method_ == "turn/completed" then Some(Done)
    else None
  }

  /** A turn that starts takes the error back; a failure gives its own, or says that it has none. */
  function ErrorSaid(n: Notification): Option<Option<string>> {
    if n.method_ == "turn/started" then Some(None)
    else if TurnFails(n) then
      var why := Either(n.params, ["turn", "error", "message"], ["turn", "error", "reason"]);
      Some(Some(if why.Some? then why.value else "luot chay that bai"))
    else if SystemFails(n) then
      var why := TextAt(n.params, ["status", "message"]);
      Some(Some(if why.Some? then why.value else "loi he thong"))
    else None
  }

  function Said(id: Option<string>): Option<Option<string>> {
    if id.Some? then Some(id) else None
  }

  function TurnSaid(n: Notification): Option<Option<string>> {
    if n.method_ == "turn/started" then Said(TextAt(n.params, ["turn", "id"])) else None
  }

  function ThreadSaid(n: Notification): Option<Option<string>> {
    if n.method_ == "thread/started" then Said(Either(n.params, ["thread", "id"], ["thread", "sessionId"])) else None
  }

  function Heard<T>(said: Option<T>, before: T): T {
    if said.Some? then said.value else before
  }

  /** What was said last, or what held before. */
  function Latest<T>(said: Notification -> Option<T>, events: seq<Notification>, before: T): T
    decreases |events|
  {
    if events == [] then before else Latest(said, events[1..], Heard(said(events[0]), before))
  }

  lemma FrameHears(s: ThreadState, n: Notification)
    ensures var t := Reduce(s, n);
            && t.phase == Heard(PhaseSaid(n), s.phase) && t.error == Heard(ErrorSaid(n), s.error)
            && t.turnId == Heard(TurnSaid(n), s.turnId) && t.threadId == Heard(ThreadSaid(n), s.threadId)
  {
    var p := n.params;
    if n.method_ == "thread/started" {
      SubFieldIsAt(p, "thread", "id");
      SubFieldIsAt(p, "thread", "sessionId");
    } else if n.method_ == "turn/started" {
      SubFieldIsAt(p, "turn", "id");
    } else if n.method_ == "turn/completed" {
      SubFieldIsAt(p, "turn", "status");
      SubSubFieldIsAt(p, "turn", "error", "message");
      SubSubFieldIsAt(p, "turn", "error", "reason");
    } else if n.method_ == "thread/status/changed" {
      SubFieldIsAt(p, "status", "type");
      SubFieldIsAt(p, "status", "message");
    }
  }

  /** Over every run phase, error, turn and thread are what was said last about each. */
  lemma {:induction false} FrameIsSaidLast(s: ThreadState, events: seq<Notification>)
    ensures var t := ReduceAll(s, events);
            && t.phase == Latest(PhaseSaid, events, s.phase) && t.error == Latest(ErrorSaid, events, s.error)
            && t.turnId == Latest(TurnSaid, events, s.turnId) && t.threadId == Latest(ThreadSaid, events, s.threadId)
    decreases |events|
  {
    if events != [] {
      FrameHears(s, events[0]);
      FrameIsSaidLast(Reduce(s, events[0]), events[1..]);
    }
  }

  // ---- The servers ----

  function ServerSaid(n: Notification): Option<McpServer> {
    var name, status := TextAt(n.params, ["name"]), TextAt(n.params, ["status"]);
    if n.method_ != "mcpServer/startupStatus/updated" || name.None? then None
    else Some(McpServer(name.value, if status.Some? then status.value else "unknown", TextAt(n.params, ["error"])))
  }

  function Updated(servers: seq<McpServer>, server: McpServer): seq<McpServer> {
    if servers == [] then [server]
    else if servers[0].name == server.name then [server] + servers[1..]
    else [servers[0]] + Updated(servers[1..], server)
  }

  lemma {:induction false} UpdateIsAtIndex(servers: seq<McpServer>, server: McpServer)
    ensures Updated(servers, server) ==
            if ServerIndex(servers, server.name).None? then servers + [server]
            else servers[ServerIndex(servers, server.name).value := server]
  {
    if servers != [] && servers[0].name != server.name {
      UpdateIsAtIndex(servers[1..], server);
      assert servers == [servers[0]] + servers[1..];
    }
  }

  /** A server that is named is updated in its place, or is the last one. */
  lemma ServersAreUpdated(s: ThreadState, n: Notification)
    ensures Reduce(s, n).mcpServers ==
            if ServerSaid(n).Some? then Updated(s.mcpServers, ServerSaid(n).value) else s.mcpServers
  {
    FieldIsAt(n.params, "name");
    FieldIsAt(n.params, "status");
    FieldIsAt(n.params, "error");
    if ServerSaid(n).Some? {
      UpdateIsAtIndex(s.mcpServers, ServerSaid(n).value);
    }
  }

  // ---- What a notification says of an item ----

  ghost predicate Contains(s: string, t: string) {
    exists a, b :: s == a + t + b
  }

  lemma IncludedIsContained(s: string, t: string)
    ensures Includes(s, t) <==> Contains(s, t)
  {
    if Includes(s, t) {
      var i :| 0 <= i <= |s| && t <= s[i..];
      assert s == s[..i] + t + s[i + |t|..];
    }
    if Contains(s, t) {
      var a, b :| s == a + t + b;
      assert s[|a|..] == t + b;
    }
  }

  ghost predicate EndsIn(s: string, t: string) {
    exists a :: s == a + t
  }

  lemma EndIsLast(s: string, t: string)
    ensures EndsWith(s, t) <==> EndsIn(s, t)
  {
    if EndsWith(s, t) {
      assert s == s[..|s| - |t|] + t;
    }
    if EndsIn(s, t) {
      var a :| s == a + t;
    }
  }

  ghost predicate IsDelta(method_: string) {
    EndsIn(method_, "Delta") || EndsIn(method_, "/delta")
  }

  function IdSaid(n: Notification): Option<string> {
    Either(n.params, ["itemId"], ["item", "id"])
  }

  function DeltaSaid(n: Notification): Option<string> {
    Either(n.params, ["delta"], ["text"])
  }

  /** The type of an item where it is given; the method, or parts of it, otherwise. */
  ghost predicate KindSaid(n: Notification, kind: ItemKind) {
    var given, m := TextAt(n.params, ["item", "type"]), n.method_;
    match kind
    case UserMessage => given == Some("userMessage")
    case AgentMessage => given == Some("agentMessage") || (given.None? && Contains(m, "agentMessage"))
    case Reasoning =>
      given == Some("reasoning") || (given.None? && Contains(m, "reasoning") && !Contains(m, "agentMessage"))
    case Command =>
      given == Some("commandExecution")
      || (given.None? && (Contains(m, "command") || Contains(m, "exec")) && !Contains(m, "agentMessage")
          && !Contains(m, "reasoning"))
    case Patch =>
      given == Some("fileChange")
      || (given.None? && (Contains(m, "patch") || Contains(m, "diff") || Contains(m, "fileChange"))
          && !Contains(m, "agentMessage") && !Contains(m, "reasoning") && !Contains(m, "command")
          && !Contains(m, "exec"))
    case OtherKind =>
      if given.Some?
      then given.value !in {"userMessage", "agentMessage", "reasoning", "commandExecution", "fileChange"}
      else forall t :: t in MARKS ==> !Contains(m, t)
  }

  const MARKS := {"agentMessage", "reasoning", "command", "exec", "patch", "diff", "fileChange"}

  lemma MethodKindIsSaid(n: Notification)
    requires TextAt(n.params, ["item", "type"]).None?
    ensures KindSaid(n, KindOfMethod(n.method_))
  {
    forall t
      ensures Includes(n.method_, t) <==> Contains(n.method_, t)
    {
      IncludedIsContained(n.method_, t);
    }
  }

  lemma TypeKindIsSaid(n: Notification)
    requires TextAt(n.params, ["item", "type"]).Some?
    ensures KindSaid(n, KindOfType(TextAt(n.params, ["item", "type"]).value))
  {
  }

  lemma LastLetter(m: string)
    ensures IsDelta(m) ==> m != [] && m[|m| - 1] == 'a'
  {
    EndIsLast(m, "Delta");
    EndIsLast(m, "/delta");
    assert "Delta"[4] == 'a' && "/delta"[5] == 'a';
    if EndsWith(m, "Delta") {
      assert m[|m| - 1] == m[|m| - 5..][4];
    }
    if EndsWith(m, "/delta") {
      assert m[|m| - 1] == m[|m| - 6..][5];
    }
  }

  lemma MethodsDiffer(m: string)
    ensures "item/" <= m ==> m != "turn/completed"
    ensures m == "item/started" || m == "item/completed" ==> "item/" <= m && !IsDelta(m)
  {
    LastLetter(m);
    assert "turn/completed"[0] == 't' && "item/started"[11] == 'd' && "item/completed"[13] == 'd';
  }

  /** A notification that concerns one item. */
  ghost predicate ConcernsItem(n: Notification) {
    "item/" <= n.method_ && IdSaid(n).Some? && (IsDelta(n.method_) ==> DeltaSaid(n).Some?)
  }

  lemma ParametersRead(n: Notification)
    ensures var p := AsRecord(n.params);
            && OrElse(Str(p, "itemId"), Str(Sub(p, "item"), "id")) == IdSaid(n)
            && OrElse(Str(p, "delta"), Str(p, "text")) == DeltaSaid(n)
            && Str(Sub(p, "item"), "type") == TextAt(n.params, ["item", "type"])
    ensures EndsWith(n.method_, "Delta") || EndsWith(n.method_, "/delta") <==> IsDelta(n.method_)
  {
    FieldIsAt(n.params, "itemId");
    FieldIsAt(n.params, "delta");
    FieldIsAt(n.params, "text");
    SubFieldIsAt(n.params, "item", "id");
    SubFieldIsAt(n.params, "item", "type");
    EndIsLast(n.method_, "Delta");
    EndIsLast(n.method_, "/delta");
  }

  /** Which items a notification concerns, and how. */
  lemma ItemIsSaid(n: Notification)
    ensures var a := ItemActionOf(n);
            && (a.CloseAll? <==> n.method_ == "turn/completed")
            && (NamesItem(a) <==> ConcernsItem(n))
            && (NamesItem(a) ==> IdSaid(n) == Some(a.id))
            && (a.Delta? <==> ConcernsItem(n) && IsDelta(n.method_))
            && (a.Delta? ==> DeltaSaid(n) == Some(a.added))
            && (a.Started? <==> ConcernsItem(n) && n.method_ == "item/started")
            && (a.Completed? <==> ConcernsItem(n) && n.method_ == "item/completed")
  {
    ParametersRead(n);
    MethodsDiffer(n.method_);
  }

  lemma KindIsSaid(n: Notification)
    ensures NamesItem(ItemActionOf(n)) ==> KindSaid(n, ItemActionOf(n).kind)
  {
    ParametersRead(n);
    if TextAt(n.params, ["item", "type"]).Some? {
      TypeKindIsSaid(n);
    } else {
      MethodKindIsSaid(n);
    }
  }

  // ---- The text of an item ----

  /** The texts of the parts of a user message, empty ones and other parts left out. */
  function TextsIn(parts: seq<Json>): seq<string> {
    if parts == [] then []
    else
      var first := TextAt(parts[0], ["text"]);
      if first.None? then TextsIn(parts[1..]) else [first.value] + TextsIn(parts[1..])
  }

  function UserSaid(v: Json): Option<string> {
    match At(v, ["item", "content"])
    case Some(JArr(parts)) => if TextsIn(parts) == [] then None else Some(Join(TextsIn(parts), '\n'))
    case _ => None
  }

  function ExitSaid(v: Json): string {
    match At(v, ["item", "exitCode"])
    case Some(JNum(k)) =>
      if k == 0 then "" else "\n[exit " + (if k < 0 then "-" + Decimal(-k) else Decimal(k)) + "]"
    case _ => ""
  }

  /** The command behind `$`, its output on new lines, and an exit code other than 0 behind both. */
  function CommandSaid(v: Json): Option<string> {
    var command, output := TextAt(v, ["item", "command"]), TextAt(v, ["item", "aggregatedOutput"]);
    match (command, output)
    case (None, None) => None
    case (Some(c), None) => Some("$ " + c + ExitSaid(v))
    case (None, Some(o)) => Some("\n" + o + ExitSaid(v))
    case (Some(c), Some(o)) => Some("$ " + c + "\n" + o + ExitSaid(v))
  }

  function TextSaid(v: Json): Option<string> {
    var given := TextAt(v, ["item", "type"]);
    if given == Some("userMessage") then UserSaid(v)
    else if given == Some("commandExecution") then CommandSaid(v)
    else if given == Some("fileChange") then
      var status := TextAt(v, ["item", "status"]);
      if status.None? then None else Some("fileChange: " + status.value)
    else if TextAt(v, ["item", "text"]).Some? then TextAt(v, ["item", "text"])
    else Either(v, ["item", "summary"], ["item", "content"])
  }

  lemma ItemFieldIsAt(v: Json, b: string)
    ensures var item := Sub(AsRecord(v), "item");
            At(v, ["item", b]) == if b in item then Some(item[b]) else None
  {
    AtFirst(v, "item", [b]);
    assert ["item"] + [b] == ["item", b];
    if v.JObj? && "item" in v.fields {
      AtFirst(v.fields["item"], b, []);
      assert [b] + [] == [b];
    }
  }

  lemma {:induction false} PartsAreTexts(parts: seq<Json>)
    ensures PartTexts(parts) == TextsIn(parts)
  {
    if parts != [] {
      FieldIsAt(parts[0], "text");
      PartsAreTexts(parts[1..]);
    }
  }

  lemma UserTextIsSaid(v: Json)
    ensures UserText(Sub(AsRecord(v), "item")) == UserSaid(v)
  {
    var item := Sub(AsRecord(v), "item");
    ItemFieldIsAt(v, "content");
    if "content" in item && item["content"].JArr? {
      PartsAreTexts(item["content"].items);
    } else {
      assert PartTexts([]) == [];
    }
  }

  lemma TextsTogether(head: string, output: string, exit: string)
    ensures head + ("\n" + output) + exit == head + "\n" + output + exit
    ensures head + "" + exit == head + exit && "" + ("\n" + output) + exit == "\n" + output + exit
  {
  }

  lemma CommandTextIsSaid(v: Json)
    ensures CommandText(Sub(AsRecord(v), "item")) == CommandSaid(v)
  {
    SubFieldIsAt(v, "item", "command");
    SubFieldIsAt(v, "item", "aggregatedOutput");
    ItemFieldIsAt(v, "exitCode");
    var item := Sub(AsRecord(v), "item");
    var c, o := GetOr(Str(item, "command"), ""), GetOr(Str(item, "aggregatedOutput"), "");
    TextsTogether("$ " + c, o, ExitSaid(v));
  }

  lemma TextIsSaid(v: Json)
    ensures ItemText(Sub(AsRecord(v), "item")) == TextSaid(v)
  {
    SubFieldIsAt(v, "item", "type");
    ItemFieldIsAt(v, "type");
    UserTextIsSaid(v);
    CommandTextIsSaid(v);
    SubFieldIsAt(v, "item", "status");
    SubFieldIsAt(v, "item", "text");
    SubFieldIsAt(v, "item", "summary");
    SubFieldIsAt(v, "item", "content");
  }

  lemma ActionTextIsSaid(n: Notification)
    ensures var a, said := ItemActionOf(n), TextSaid(n.params);
            && (a.Started? || a.Seen? ==> a.initial == GetOr(said, ""))
            && (a.Completed? ==> a.full == said)
  {
    TextIsSaid(n.params);
  }

  // ---- What becomes of an item ----

  function TextOf(item: Option<Item>): string {
    if item.Some? then item.value.text else ""
  }

  /** A delta goes to the end, a text beyond 200000 characters loses its beginning; a completion gives the
      longer text, its own if they are equally long; anything else only a first text. */
  ghost predicate TextFollows(before: Option<Item>, n: Notification, text: string) {
    var said := GetOr(TextSaid(n.params), "");
    if IsDelta(n.method_) then
      var all := TextOf(before) + GetOr(DeltaSaid(n), "");
      text == if before.None? || |all| <= 200000 then all
              else "\U{2026}(da cat phan dau)\U{2026}\n" + all[|all| - 200000..]
    else if n.method_ == "item/completed" then text == if |said| >= |TextOf(before)| then said else TextOf(before)
    else text == if before.Some? then TextOf(before) else said
  }

  /** A kind once known stays; a start, a delta or a completion tells it. */
  ghost predicate KindFollows(before: Option<Item>, n: Notification, kind: ItemKind) {
    var tells := IsDelta(n.method_) || n.method_ == "item/started" || n.method_ == "item/completed";
    if before.Some? && (before.value.kind != OtherKind || !tells) then kind == before.value.kind
    else KindSaid(n, kind)
  }

  /** What a notification makes of an item: nothing unless it names it or ends the turn, which only closes
      it; a completion closes it too. */
  ghost predicate ItemFollows(before: Option<Item>, n: Notification, id: string, after: Option<Item>) {
    if n.method_ == "turn/completed" then
      after == if before.None? then None else Some(before.value.(done := true))
    else if ConcernsItem(n) && IdSaid(n) == Some(id) then
      && after.Some? && after.value.id == id
      && (after.value.done <==> (before.Some? && before.value.done) || n.method_ == "item/completed")
      && KindFollows(before, n, after.value.kind) && TextFollows(before, n, after.value.text)
    else after == before
  }

  lemma StepFollows(before: Option<Item>, n: Notification, id: string)
    requires before.Some? ==> before.value.id == id
    ensures ItemFollows(before, n, id, ItemStep(before, n, id))
  {
    ItemIsSaid(n);
    KindIsSaid(n);
    ActionTextIsSaid(n);
    MethodsDiffer(n.method_);
  }

  /** So for every item of every state: only what the notification says of it changes it. */
  lemma ItemsFollow(s: ThreadState, n: Notification, id: string)
    ensures ItemFollows(ItemOf(s.items, id), n, id, ItemOf(Reduce(s, n).items, id))
  {
    ActOnOneItem(s.items, n, id);
    StepFollows(ItemOf(s.items, id), n, id);
  }
}
