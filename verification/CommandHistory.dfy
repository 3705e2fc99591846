/** Searching the history of commands: runs of the same command are folded into one ranked row. */
module CommandHistory {
  import opened Basics
  import opened Text

  datatype Entry = Entry(id: string, hostId: Option<string>, hostLabel: string, command: string,
                         exitCode: Option<int>, durationMs: int, startedAt: int)

  /** A row of the answer: a representative run and what was folded into it. */
  datatype Row = Row(entry: Entry, score: int, hostCount: nat, runCount: nat)

  /** What is searched for, where and when; `lower` is the host language's lower-casing. */
  datatype Query = Query(text: string, hostId: Option<string>, now: int, lower: string -> string)

  const MS_PER_DAY := 86400000.0

  // ---- The score of one run ----

  /** Half rounds up. */
  function Round(x: real): int {
    (x + 0.5).Floor
  }

  function Recency(startedAt: int, now: int): int {
    var ageDays := Max(0.0, (now - startedAt) as real / MS_PER_DAY);
    Round(Max(0.0, 60.0 - ageDays * 2.0))
  }

  /** Where the text is found: at the start, at the start of a word, or within one. */
  function PlaceScore(command: string, q: Query): Option<int> {
    var needle := q.lower(Trim(q.text));
    var haystack := q.lower(command);
    if needle == "" then Some(0)
    else
      var at := IndexOf(haystack, needle);
      if at.None? then None
      else if at.value == 0 then Some(300)
      else if IsSpace(haystack[at.value - 1]) then Some(200)
      else Some(100)
  }

  /** What the host and the age of a run add. */
  function Bonus(e: Entry, q: Query): int {
    (if q.hostId.Some? && e.hostId == q.hostId then 80 else 0) + Recency(e.startedAt, q.now)
  }

  function Raised(place: Option<int>, bonus: int): Option<int> {
    if place.None? then None else Some(place.value + bonus)
  }

  function Score(e: Entry, q: Query): Option<int> {
    Raised(PlaceScore(e.command, q), Bonus(e, q))
  }

  type Scorer = Entry -> Option<int>

  function ScorerOf(q: Query): Scorer {
    (e: Entry) => Score(e, q)
  }

  /** A run that starts with the text outranks every run that has it inside a word, whatever the hosts
      and the ages. */
  lemma PrefixBeatsInner(e: Entry, f: Entry, q: Query)
    requires PlaceScore(e.command, q) == Some(300) && PlaceScore(f.command, q) == Some(100)
    ensures Score(e, q).Some? && Score(f, q).Some? && Score(e, q).value > Score(f, q).value
  {
    assert Score(e, q) == Raised(Some(300), Bonus(e, q)) && Score(f, q) == Raised(Some(100), Bonus(f, q));
  }

  // ---- What the runs of one command fold into ----

  predicate Hit(e: Entry, c: string, score: Scorer) {
    e.command == c && score(e).Some?
  }

  function HostKey(host: Option<string>): string {
    if host.Some? then host.value else "__local__"
  }

  /** One more run: counted; the representative if it is newer; the score if it is higher. */
  function Merged(row: Row, e: Entry, points: int): Row {
    Row(if e.startedAt > row.entry.startedAt then e else row.entry,
        if points > row.score then points else row.score,
        row.hostCount,
        row.runCount + 1)
  }

  /** The row of a command after the first n runs. */
  function Folded(entries: seq<Entry>, n: nat, c: string, score: Scorer): Option<Row>
    requires n <= |entries|
  {
    if n == 0 then None
    else
      var before, e := Folded(entries, n - 1, c, score), entries[n - 1];
      if !Hit(e, c, score) then before
      else if before.None? then Some(Row(e, score(e).value, 1, 1))
      else Some(Merged(before.value, e, score(e).value))
  }

  function Hosts(entries: seq<Entry>, n: nat, c: string, score: Scorer): set<string>
    requires n <= |entries|
  {
    if n == 0 then {}
    else
      var e := entries[n - 1];
      Hosts(entries, n - 1, c, score) + if Hit(e, c, score) then {HostKey(e.hostId)} else {}
  }

  /** The commands found, in the order of their first run. */
  function Commands(entries: seq<Entry>, n: nat, score: Scorer): seq<string>
    requires n <= |entries|
  {
    if n == 0 then []
    else
      var before, e := Commands(entries, n - 1, score), entries[n - 1];
      if score(e).Some? && e.command !in before then before + [e.command] else before
  }

  lemma {:induction false} CommandsHaveRows(entries: seq<Entry>, n: nat, score: Scorer, c: string)
    requires n <= |entries|
    ensures c in Commands(entries, n, score) <==> Folded(entries, n, c, score).Some?
    ensures c in Commands(entries, n, score) <==> Hosts(entries, n, c, score) != {}
    ensures c in Commands(entries, n, score) <==> exists i :: 0 <= i < n && Hit(entries[i], c, score)
  {
    if n > 0 {
      CommandsHaveRows(entries, n - 1, score, c);
    }
  }

  lemma {:induction false} CommandsAreDistinct(entries: seq<Entry>, n: nat, score: Scorer)
    requires n <= |entries|
    ensures Distinct(Commands(entries, n, score))
  {
    if n > 0 {
      CommandsAreDistinct(entries, n - 1, score);
    }
  }

  function FinalRow(entries: seq<Entry>, c: string, score: Scorer): Row
    requires c in Commands(entries, |entries|, score)
  {
    CommandsHaveRows(entries, |entries|, score, c);
    Folded(entries, |entries|, c, score).value.(hostCount := |Hosts(entries, |entries|, c, score)|)
  }

  /** One row for every command found, before any ordering. */
  function AllRows(entries: seq<Entry>, score: Scorer): seq<Row> {
    var commands := Commands(entries, |entries|, score);
    seq(|commands|, i requires 0 <= i < |commands| => FinalRow(entries, commands[i], score))
  }

  // ---- Ordering ----

  predicate Before(a: Row, b: Row) {
    a.score > b.score || (a.score == b.score && a.entry.startedAt > b.entry.startedAt)
  }

  function Insert(row: Row, sorted: seq<Row>): seq<Row> {
    if sorted == [] || !Before(sorted[0], row) then [row] + sorted
    else [sorted[0]] + Insert(row, sorted[1..])
  }

  /** A stable sort: best score first, then the most recent. */
  function SortRows(rows: seq<Row>): seq<Row> {
    if rows == [] then [] else Insert(rows[0], SortRows(rows[1..]))
  }

  // ---- The search ----

  /** Commands that some run on the host used, found or not. */
  function OnHost(entries: seq<Entry>, host: string): set<string> {
    set e | e in entries && e.hostId == Some(host) :: e.command
  }

  function Keep(rows: seq<Row>, commands: set<string>): seq<Row> {
    if rows == [] then []
    else (if rows[0].entry.command in commands then [rows[0]] else []) + Keep(rows[1..], commands)
  }

  function Narrowed(rows: seq<Row>, entries: seq<Entry>, only: Option<string>): seq<Row> {
    if only.None? then rows else Keep(rows, OnHost(entries, only.value))
  }

  function Limited(rows: seq<Row>, limit: Option<nat>): seq<Row> {
    if limit.None? || limit.value >= |rows| then rows else rows[..limit.value]
  }

  function Search(entries: seq<Entry>, score: Scorer, only: Option<string>, limit: Option<nat>): seq<Row> {
    Limited(SortRows(Narrowed(AllRows(entries, score), entries, only)), limit)
  }

  /** The two tables of the search, the first with its keys in order of insertion, after n runs. */
  ghost predicate Gathered(entries: seq<Entry>, n: nat, score: Scorer, order: seq<string>,
                           byCommand: map<string, Row>, hostsSeen: map<string, set<string>>)
  {
    && n <= |entries| && order == Commands(entries, n, score)
    && (forall c :: c in byCommand <==> c in order)
    && (forall c :: c in hostsSeen <==> c in order)
    && (forall c :: c in order ==> Folded(entries, n, c, score) == Some(byCommand[c]))
    && (forall c :: c in order ==> hostsSeen[c] == Hosts(entries, n, c, score))
  }

  lemma {:induction false} RowKeepsCommand(entries: seq<Entry>, n: nat, c: string, score: Scorer)
    requires n <= |entries|
    ensures Folded(entries, n, c, score).Some? ==> Folded(entries, n, c, score).value.entry.command == c
  {
    if n > 0 {
      RowKeepsCommand(entries, n - 1, c, score);
    }
  }

  lemma GatherKnown(entries: seq<Entry>, n: nat, score: Scorer, order: seq<string>,
                    byCommand: map<string, Row>, hostsSeen: map<string, set<string>>)
    requires n < |entries| && Gathered(entries, n, score, order, byCommand, hostsSeen)
    requires score(entries[n]).Some? && entries[n].command in byCommand
    ensures var e, key := entries[n], entries[n].command;
            Gathered(entries, n + 1, score, order, byCommand[key := Merged(byCommand[key], e, score(e).value)],
                     hostsSeen[key := hostsSeen[key] + {HostKey(e.hostId)}])
  {
  }

  lemma GatherNew(entries: seq<Entry>, n: nat, score: Scorer, order: seq<string>,
                  byCommand: map<string, Row>, hostsSeen: map<string, set<string>>)
    requires n < |entries| && Gathered(entries, n, score, order, byCommand, hostsSeen)
    requires score(entries[n]).Some? && entries[n].command !in byCommand
    ensures var e, key := entries[n], entries[n].command;
            Gathered(entries, n + 1, score, order + [key], byCommand[key := Row(e, score(e).value, 1, 1)],
                     hostsSeen[key := {HostKey(e.hostId)}])
  {
    CommandsHaveRows(entries, n, score, entries[n].command);
  }

  lemma CountedRowIsFinal(entries: seq<Entry>, score: Scorer, order: seq<string>, byCommand: map<string, Row>,
                          hostsSeen: map<string, set<string>>, c: string)
    requires Gathered(entries, |entries|, score, order, byCommand, hostsSeen) && c in order
    ensures byCommand[c].entry.command in hostsSeen
    ensures byCommand[c].(hostCount := |hostsSeen[byCommand[c].entry.command]|) == FinalRow(entries, c, score)
  {
    RowKeepsCommand(entries, |entries|, c, score);
  }

  /** Every gathered row, once its hosts are counted, is the final one. */
  ghost predicate Countable(order: seq<string>, byCommand: map<string, Row>, hostsSeen: map<string, set<string>>,
                            final: seq<Row>)
  {
    && |final| == |order|
    && forall i :: 0 <= i < |order| ==>
         && order[i] in byCommand
         && byCommand[order[i]].entry.command in hostsSeen
         && byCommand[order[i]].(hostCount := |hostsSeen[byCommand[order[i]].entry.command]|) == final[i]
  }

  lemma GatheredIsCountable(entries: seq<Entry>, score: Scorer, order: seq<string>, byCommand: map<string, Row>,
                            hostsSeen: map<string, set<string>>)
    requires Gathered(entries, |entries|, score, order, byCommand, hostsSeen)
    ensures Countable(order, byCommand, hostsSeen, AllRows(entries, score))
  {
    forall i | 0 <= i < |order|
      ensures order[i] in byCommand && byCommand[order[i]].entry.command in hostsSeen
      ensures byCommand[order[i]].(hostCount := |hostsSeen[byCommand[order[i]].entry.command]|)
              == FinalRow(entries, order[i], score)
    {
      CountedRowIsFinal(entries, score, order, byCommand, hostsSeen, order[i]);
    }
  }

  method CountHosts(order: seq<string>, byCommand: map<string, Row>, hostsSeen: map<string, set<string>>,
                    ghost final: seq<Row>) returns (results: seq<Row>)
    requires Countable(order, byCommand, hostsSeen, final)
    ensures results == final
  {
    results := [];
    for i := 0 to |order|
      invariant results == final[..i]
    {
      var row := byCommand[order[i]];
      results := results + [row.(hostCount := |hostsSeen[row.entry.command]|)];
    }
  }

  /** Folds the runs one by one; then every row learns how many hosts ran its command. */
  method GatherRuns(entries: seq<Entry>, score: Scorer) returns (results: seq<Row>)
    ensures results == AllRows(entries, score)
  {
    var order: seq<string> := [];
    var byCommand: map<string, Row> := map[];
    var hostsSeen: map<string, set<string>> := map[];
    for n := 0 to |entries|
      invariant Gathered(entries, n, score, order, byCommand, hostsSeen)
    {
      var e := entries[n];
      var points := score(e);
      if points.Some? {
        var key := e.command;
        if key in byCommand {
          GatherKnown(entries, n, score, order, byCommand, hostsSeen);
          hostsSeen := hostsSeen[key := hostsSeen[key] + {HostKey(e.hostId)}];
          byCommand := byCommand[key := Merged(byCommand[key], e, points.value)];
        } else {
          GatherNew(entries, n, score, order, byCommand, hostsSeen);
          hostsSeen := hostsSeen[key := {HostKey(e.hostId)}];
          byCommand := byCommand[key := Row(e, points.value, 1, 1)];
          order := order + [key];
        }
      }
    }
    GatheredIsCountable(entries, score, order, byCommand, hostsSeen);
    results := CountHosts(order, byCommand, hostsSeen, AllRows(entries, score));
  }

  method SearchCommandHistory(entries: seq<Entry>, q: Query, only: Option<string>, limit: Option<nat>)
    returns (results: seq<Row>)
    ensures results == Search(entries, ScorerOf(q), only, limit)
  {
    results := GatherRuns(entries, ScorerOf(q));
    if only.Some? {
      results := Keep(results, OnHost(entries, only.value));
    }
    results := Limited(SortRows(results), limit);
  }
}
