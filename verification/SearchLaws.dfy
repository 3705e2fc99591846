/** What the rows of a history search mean, stated on the runs they were folded from. */
module SearchLaws {
  import opened Basics
  import opened CommandHistory

  // ---- One row against the runs of its command ----

  ghost function HitRuns(entries: seq<Entry>, n: nat, c: string, score: Scorer): set<int>
    requires n <= |entries|
  {
    set i | 0 <= i < n && Hit(entries[i], c, score)
  }

  /** Run i is the latest of the hits and the first of those. */
  ghost predicate Represents(entries: seq<Entry>, n: nat, c: string, score: Scorer, e: Entry, i: nat)
    requires n <= |entries|
  {
    && i < n && Hit(entries[i], c, score) && e == entries[i]
    && forall j :: 0 <= j < n && Hit(entries[j], c, score) ==>
         entries[j].startedAt <= e.startedAt && (j < i ==> entries[j].startedAt < e.startedAt)
  }

  ghost predicate IsBest(entries: seq<Entry>, n: nat, c: string, score: Scorer, points: int)
    requires n <= |entries|
  {
    && (exists i :: 0 <= i < n && Hit(entries[i], c, score) && score(entries[i]) == Some(points))
    && (forall i :: 0 <= i < n && Hit(entries[i], c, score) ==> score(entries[i]).value <= points)
  }

  lemma OneMoreRun(entries: seq<Entry>, n: nat, c: string, score: Scorer)
    requires n < |entries|
    ensures var before, now := HitRuns(entries, n, c, score), HitRuns(entries, n + 1, c, score);
            if Hit(entries[n], c, score) then |now| == |before| + 1 else now == before
  {
    var before, now := HitRuns(entries, n, c, score), HitRuns(entries, n + 1, c, score);
    if Hit(entries[n], c, score) {
      assert now == before + {n};
    }
  }

  lemma {:induction false} RunsAreCounted(entries: seq<Entry>, n: nat, c: string, score: Scorer)
    requires n <= |entries|
    ensures Folded(entries, n, c, score).None? ==> HitRuns(entries, n, c, score) == {}
    ensures Folded(entries, n, c, score).Some? ==>
              Folded(entries, n, c, score).value.runCount == |HitRuns(entries, n, c, score)|
  {
    if n > 0 {
      RunsAreCounted(entries, n - 1, c, score);
      OneMoreRun(entries, n - 1, c, score);
    }
  }

  lemma {:induction false} LatestRepresents(entries: seq<Entry>, n: nat, c: string, score: Scorer) returns (i: nat)
    requires n <= |entries| && Folded(entries, n, c, score).Some?
    ensures Represents(entries, n, c, score, Folded(entries, n, c, score).value.entry, i)
  {
    var e := entries[n - 1];
    var before := Folded(entries, n - 1, c, score);
    if before.None? {
      i := n - 1;
      CommandsHaveRows(entries, n - 1, score, c);
    } else {
      i := LatestRepresents(entries, n - 1, c, score);
      if Hit(e, c, score) && e.startedAt > before.value.entry.startedAt {
        i := n - 1;
      }
    }
  }

  lemma {:induction false} BestScores(entries: seq<Entry>, n: nat, c: string, score: Scorer)
    requires n <= |entries| && Folded(entries, n, c, score).Some?
    ensures IsBest(entries, n, c, score, Folded(entries, n, c, score).value.score)
  {
    var before := Folded(entries, n - 1, c, score);
    if before.None? {
      CommandsHaveRows(entries, n - 1, score, c);
      assert Hit(entries[n - 1], c, score);
    } else {
      BestScores(entries, n - 1, c, score);
      var row := before.value;
      var i :| 0 <= i < n - 1 && Hit(entries[i], c, score) && score(entries[i]) == Some(row.score);
      assert Hit(entries[n - 1], c, score) || Folded(entries, n, c, score) == before;
    }
  }

  // ---- Counting hosts ----

  ghost function HostsOf(entries: seq<Entry>, n: nat, c: string, score: Scorer): set<Option<string>>
    requires n <= |entries|
  {
    set i | 0 <= i < n && Hit(entries[i], c, score) :: entries[i].hostId
  }

  ghost function Keys(hosts: set<Option<string>>): set<string> {
    set h | h in hosts :: HostKey(h)
  }

  lemma {:induction false} HostsAreKeys(entries: seq<Entry>, n: nat, c: string, score: Scorer)
    requires n <= |entries|
    ensures Hosts(entries, n, c, score) == Keys(HostsOf(entries, n, c, score))
  {
    if n > 0 {
      HostsAreKeys(entries, n - 1, c, score);
      var before, now := HostsOf(entries, n - 1, c, score), HostsOf(entries, n, c, score);
      var e := entries[n - 1];
      if Hit(e, c, score) {
        assert now == before + {e.hostId};
        assert Keys(now) == Keys(before) + {HostKey(e.hostId)};
      } else {
        assert now == before;
      }
    }
  }

  lemma {:induction false} NamedHostsKeepTheirNumber(hosts: set<Option<string>>)
    requires None !in hosts
    ensures |Keys(hosts)| == |hosts|
    decreases |hosts|
  {
    if hosts == {} {
      assert Keys(hosts) == {};
    } else {
      var h :| h in hosts;
      var rest := hosts - {h};
      NamedHostsKeepTheirNumber(rest);
      assert hosts == rest + {h};
      assert Keys(hosts) == Keys(rest) + {HostKey(h)};
      assert HostKey(h) !in Keys(rest);
    }
  }

  lemma KeysExactly(hosts: set<Option<string>>)
    ensures |hosts| == |Keys(hosts)| + if None in hosts && Some("__local__") in hosts then 1 else 0
  {
    var named := hosts - {None};
    NamedHostsKeepTheirNumber(named);
    if None in hosts {
      assert hosts == named + {None};
      assert Keys(hosts) == Keys(named) + {"__local__"};
      if "__local__" in Keys(named) {
        assert Some("__local__") in named;
        assert Keys(hosts) == Keys(named);
      }
    } else {
      assert named == hosts;
    }
  }

  /** The number of hosts shown is the number of different hosts, counting local sessions as one, unless
      a host is itself called `__local__` beside local sessions: then it is one less. */
  lemma HostCountExactly(entries: seq<Entry>, n: nat, c: string, score: Scorer)
    requires n <= |entries|
    ensures var hosts := HostsOf(entries, n, c, score);
            var clash := None in hosts && Some("__local__") in hosts;
            |hosts| == |Hosts(entries, n, c, score)| + if clash then 1 else 0
  {
    var hosts := HostsOf(entries, n, c, score);
    HostsAreKeys(entries, n, c, score);
    KeysExactly(hosts);
  }

  /** For instance a run in a local session and one on a host called `__local__`: two, shown as one. */
  lemma LocalNameClashes(local: Entry, named: Entry, score: Scorer)
    requires local.command == named.command && score(local).Some? && score(named).Some?
    requires local.hostId == None && named.hostId == Some("__local__")
    ensures |HostsOf([local, named], 2, local.command, score)| == 2
    ensures |Hosts([local, named], 2, local.command, score)| == 1
  {
    var entries := [local, named];
    var hosts := HostsOf(entries, 2, local.command, score);
    assert Hit(entries[0], local.command, score) && Hit(entries[1], local.command, score);
    assert hosts == {None, Some("__local__")};
    HostCountExactly(entries, 2, local.command, score);
  }

  // ---- Every row describes its command ----

  /** A row says of its command how often and on how many hosts it ran, its best score and its latest run. */
  ghost predicate Describes(row: Row, entries: seq<Entry>, score: Scorer) {
    var c, n := row.entry.command, |entries|;
    && row.runCount == |HitRuns(entries, n, c, score)| > 0
    && row.hostCount == |Hosts(entries, n, c, score)| > 0
    && IsBest(entries, n, c, score, row.score)
    && exists i: nat :: Represents(entries, n, c, score, row.entry, i)
  }

  lemma FinalRowDescribes(entries: seq<Entry>, c: string, score: Scorer)
    requires c in Commands(entries, |entries|, score)
    ensures FinalRow(entries, c, score).entry.command == c
    ensures Describes(FinalRow(entries, c, score), entries, score)
  {
    var n := |entries|;
    CommandsHaveRows(entries, n, score, c);
    RowKeepsCommand(entries, n, c, score);
    RunsAreCounted(entries, n, c, score);
    BestScores(entries, n, c, score);
    var i := LatestRepresents(entries, n, c, score);
    assert i in HitRuns(entries, n, c, score);
  }

  // ---- Sorting ----

  lemma {:induction false} InsertKeepsRows(row: Row, sorted: seq<Row>)
    ensures multiset(Insert(row, sorted)) == multiset{row} + multiset(sorted)
    ensures |Insert(row, sorted)| == |sorted| + 1
  {
    if sorted == [] || !Before(sorted[0], row) {
      assert multiset([row] + sorted) == multiset([row]) + multiset(sorted);
    } else {
      InsertKeepsRows(row, sorted[1..]);
      assert sorted == [sorted[0]] + sorted[1..];
      assert multiset(sorted) == multiset{sorted[0]} + multiset(sorted[1..]);
    }
  }

  lemma {:induction false} SortKeepsRows(rows: seq<Row>)
    ensures multiset(SortRows(rows)) == multiset(rows) && |SortRows(rows)| == |rows|
  {
    if rows != [] {
      SortKeepsRows(rows[1..]);
      InsertKeepsRows(rows[0], SortRows(rows[1..]));
      assert rows == [rows[0]] + rows[1..];
    }
  }

  /** A better score comes first, and of equal scores the later run. */
  predicate NotAfter(a: Row, b: Row) {
    a.score > b.score || (a.score == b.score && a.entry.startedAt >= b.entry.startedAt)
  }

  predicate Ordered(rows: seq<Row>) {
    forall i, j :: 0 <= i < j < |rows| ==> NotAfter(rows[i], rows[j])
  }

  lemma {:induction false} InsertKeepsOrder(row: Row, sorted: seq<Row>)
    requires Ordered(sorted)
    ensures Ordered(Insert(row, sorted))
  {
    if sorted == [] || !Before(sorted[0], row) {
      var all := [row] + sorted;
      forall i, j | 0 <= i < j < |all|
        ensures NotAfter(all[i], all[j])
      {
        if i == 0 && j > 1 {
          assert NotAfter(sorted[0], sorted[j - 1]);
        }
      }
    } else {
      var rest := Insert(row, sorted[1..]);
      InsertKeepsOrder(row, sorted[1..]);
      InsertKeepsRows(row, sorted[1..]);
      forall j | 0 <= j < |rest|
        ensures NotAfter(sorted[0], rest[j])
      {
        assert rest[j] in multiset(rest);
        if rest[j] != row {
          assert rest[j] in sorted[1..];
        }
      }
    }
  }

  lemma {:induction false} SortOrders(rows: seq<Row>)
    ensures Ordered(SortRows(rows))
  {
    if rows != [] {
      SortOrders(rows[1..]);
      InsertKeepsOrder(rows[0], SortRows(rows[1..]));
    }
  }

  /** The rows of one rank, in their order. */
  function OfRank(rows: seq<Row>, score: int, startedAt: int): seq<Row> {
    if rows == [] then []
    else (if rows[0].score == score && rows[0].entry.startedAt == startedAt then [rows[0]] else [])
         + OfRank(rows[1..], score, startedAt)
  }

  lemma {:induction false} InsertIsStable(row: Row, sorted: seq<Row>, score: int, startedAt: int)
    ensures OfRank(Insert(row, sorted), score, startedAt) == OfRank([row] + sorted, score, startedAt)
  {
    assert ([row] + sorted)[1..] == sorted;
    if sorted != [] && Before(sorted[0], row) {
      InsertIsStable(row, sorted[1..], score, startedAt);
      assert ([row] + sorted[1..])[1..] == sorted[1..];
      assert Insert(row, sorted)[1..] == Insert(row, sorted[1..]);
    }
  }

  /** Rows of the same rank stay in the order of their commands' first runs. */
  lemma {:induction false} SortIsStable(rows: seq<Row>, score: int, startedAt: int)
    ensures OfRank(SortRows(rows), score, startedAt) == OfRank(rows, score, startedAt)
  {
    if rows != [] {
      SortIsStable(rows[1..], score, startedAt);
      var sorted := SortRows(rows[1..]);
      InsertIsStable(rows[0], sorted, score, startedAt);
      assert ([rows[0]] + sorted)[1..] == sorted;
    }
  }

  // ---- Conservation of runs ----

  function RunTotal(rows: seq<Row>): nat {
    if rows == [] then 0 else rows[0].runCount + RunTotal(rows[1..])
  }

  ghost function Found(entries: seq<Entry>, score: Scorer): set<int> {
    set i | 0 <= i < |entries| && score(entries[i]).Some?
  }

  /** The found runs whose command is among the given ones. */
  ghost function FoundAmong(entries: seq<Entry>, score: Scorer, commands: seq<string>): set<int> {
    set i | 0 <= i < |entries| && score(entries[i]).Some? && entries[i].command in commands
  }

  lemma {:induction false} RunsAddUp(entries: seq<Entry>, score: Scorer, commands: seq<string>, rows: seq<Row>)
    requires |rows| == |commands|
    requires Distinct(commands)
    requires forall i :: 0 <= i < |rows| ==> rows[i].runCount == |HitRuns(entries, |entries|, commands[i], score)|
    ensures RunTotal(rows) == |FoundAmong(entries, score, commands)|
  {
    if commands == [] {
      assert FoundAmong(entries, score, commands) == {};
    } else {
      RunsAddUp(entries, score, commands[1..], rows[1..]);
      var first := HitRuns(entries, |entries|, commands[0], score);
      var rest := FoundAmong(entries, score, commands[1..]);
      assert FoundAmong(entries, score, commands) == first + rest;
      assert first !! rest;
    }
  }

  lemma RowsDescribe(entries: seq<Entry>, score: Scorer)
    ensures var rows, commands := AllRows(entries, score), Commands(entries, |entries|, score);
            && |rows| == |commands|
            && forall i :: 0 <= i < |rows| ==>
                 rows[i].entry.command == commands[i] && Describes(rows[i], entries, score)
  {
    var commands := Commands(entries, |entries|, score);
    forall i | 0 <= i < |commands|
      ensures var row := FinalRow(entries, commands[i], score);
              row.entry.command == commands[i] && Describes(row, entries, score)
    {
      FinalRowDescribes(entries, commands[i], score);
    }
  }

  /** The run counts of all rows add up to the number of runs found: folding loses and doubles none. */
  lemma NoRunIsLost(entries: seq<Entry>, score: Scorer)
    ensures RunTotal(AllRows(entries, score)) == |Found(entries, score)|
  {
    var n, commands := |entries|, Commands(entries, |entries|, score);
    RowsDescribe(entries, score);
    CommandsAreDistinct(entries, n, score);
    RunsAddUp(entries, score, commands, AllRows(entries, score));
    forall i | 0 <= i < n && score(entries[i]).Some?
      ensures entries[i].command in commands
    {
      CommandsHaveRows(entries, n, score, entries[i].command);
      assert Hit(entries[i], entries[i].command, score);
    }
    assert FoundAmong(entries, score, commands) == Found(entries, score);
  }

  lemma {:induction false} InsertKeepsTotal(row: Row, sorted: seq<Row>)
    ensures RunTotal(Insert(row, sorted)) == row.runCount + RunTotal(sorted)
  {
    if sorted == [] || !Before(sorted[0], row) {
      assert ([row] + sorted)[1..] == sorted;
    } else {
      InsertKeepsTotal(row, sorted[1..]);
      assert Insert(row, sorted)[1..] == Insert(row, sorted[1..]);
    }
  }

  lemma {:induction false} SortKeepsTotal(rows: seq<Row>)
    ensures RunTotal(SortRows(rows)) == RunTotal(rows)
  {
    if rows != [] {
      SortKeepsTotal(rows[1..]);
      InsertKeepsTotal(rows[0], SortRows(rows[1..]));
    }
  }

  // ---- The whole search ----

  /** Finding depends on the command alone, as the score of a query does. */
  ghost predicate ByCommand(score: Scorer) {
    forall e: Entry, f: Entry :: e.command == f.command ==> (score(e).Some? <==> score(f).Some?)
  }

  lemma {:induction false} KeepIsFilter(rows: seq<Row>, commands: set<string>)
    ensures forall r :: r in Keep(rows, commands) <==> r in rows && r.entry.command in commands
    ensures multiset(Keep(rows, commands)) <= multiset(rows)
  {
    if rows != [] {
      KeepIsFilter(rows[1..], commands);
      assert rows == [rows[0]] + rows[1..];
      var head := if rows[0].entry.command in commands then [rows[0]] else [];
      assert multiset(Keep(rows, commands)) == multiset(head) + multiset(Keep(rows[1..], commands));
    }
  }

  /** The commands a search answers with. */
  ghost predicate Answers(entries: seq<Entry>, score: Scorer, only: Option<string>, c: string) {
    exists i :: 0 <= i < |entries| && Hit(entries[i], c, score) && (only.Some? ==> entries[i].hostId == only)
  }

  lemma RowsAnswer(entries: seq<Entry>, score: Scorer, r: Row)
    requires r in AllRows(entries, score)
    ensures Answers(entries, score, None, r.entry.command)
  {
    var rows := AllRows(entries, score);
    RowsDescribe(entries, score);
    var k :| 0 <= k < |rows| && rows[k] == r;
    CommandsHaveRows(entries, |entries|, score, r.entry.command);
  }

  /** Narrowing to a host keeps a row unchanged exactly when a found run of its command ran there. */
  lemma NarrowingKeepsCounts(entries: seq<Entry>, score: Scorer, host: string, row: Row)
    requires ByCommand(score)
    ensures row in Narrowed(AllRows(entries, score), entries, Some(host)) <==>
              row in AllRows(entries, score) && Answers(entries, score, Some(host), row.entry.command)
  {
    var rows := AllRows(entries, score);
    KeepIsFilter(rows, OnHost(entries, host));
    if row in rows {
      RowsAnswer(entries, score, row);
    }
  }

  /** Each command has at most one row. */
  ghost predicate OncePerCommand(rows: seq<Row>) {
    forall i, j :: 0 <= i < j < |rows| ==> rows[i].entry.command != rows[j].entry.command
  }

  lemma CountsTwice(rows: seq<Row>, i: nat, j: nat)
    requires i < j < |rows| && rows[i] == rows[j]
    ensures multiset(rows)[rows[i]] >= 2
  {
    var rest := rows[i + 1..];
    assert rest[j - i - 1] == rows[j] && rest[j - i - 1] in multiset(rest);
    assert rows == rows[..i] + ([rows[i]] + rest);
    assert multiset(rows) == multiset(rows[..i]) + (multiset{rows[i]} + multiset(rest));
  }

  lemma CountsOnce(rows: seq<Row>, i: nat)
    requires OncePerCommand(rows) && i < |rows|
    ensures multiset(rows)[rows[i]] == 1
  {
    var rest := rows[i + 1..];
    assert rows == rows[..i] + ([rows[i]] + rest);
    assert multiset(rows) == multiset(rows[..i]) + (multiset{rows[i]} + multiset(rest));
    assert rows[i] !in rows[..i] && rows[i] !in rest;
    assert rows[i] !in multiset(rows[..i]) && rows[i] !in multiset(rest);
  }

  lemma OnceAmongFewer(rows: seq<Row>, fewer: seq<Row>)
    requires OncePerCommand(rows) && multiset(fewer) <= multiset(rows)
    ensures OncePerCommand(fewer)
  {
    forall i, j | 0 <= i < j < |fewer|
      ensures fewer[i].entry.command != fewer[j].entry.command
    {
      assert fewer[i] in multiset(fewer) && fewer[j] in multiset(fewer);
      assert fewer[i] in multiset(rows) && fewer[j] in multiset(rows);
      var k :| 0 <= k < |rows| && rows[k] == fewer[i];
      var l :| 0 <= l < |rows| && rows[l] == fewer[j];
      CountsOnce(rows, k);
      if fewer[i] == fewer[j] {
        CountsTwice(fewer, i, j);
      } else {
        assert k != l;
      }
    }
  }

  lemma SearchedRows(entries: seq<Entry>, score: Scorer, only: Option<string>)
    ensures var rows, narrowed := Search(entries, score, only, None), Narrowed(AllRows(entries, score), entries, only);
            && multiset(rows) == multiset(narrowed) <= multiset(AllRows(entries, score))
            && Ordered(rows)
            && forall r :: r in rows <==> r in narrowed
  {
    var narrowed := Narrowed(AllRows(entries, score), entries, only);
    var rows := SortRows(narrowed);
    SortKeepsRows(narrowed);
    SortOrders(narrowed);
    if only.Some? {
      KeepIsFilter(AllRows(entries, score), OnHost(entries, only.value));
    }
    assert forall r :: r in rows <==> r in multiset(rows);
  }

  lemma AnswersHaveRows(entries: seq<Entry>, score: Scorer, c: string) returns (r: Row)
    requires Answers(entries, score, None, c)
    ensures r in AllRows(entries, score) && r.entry.command == c
  {
    var commands := Commands(entries, |entries|, score);
    CommandsHaveRows(entries, |entries|, score, c);
    RowsDescribe(entries, score);
    var k :| 0 <= k < |commands| && commands[k] == c;
    r := AllRows(entries, score)[k];
  }

  /** A search over every query: one row for each command that was found, narrowed to the commands that
      ran on the chosen host, each described by all its runs, in the order of score and recency. */
  lemma SearchMeetsSpec(entries: seq<Entry>, q: Query, only: Option<string>)
    ensures var score, rows := ScorerOf(q), Search(entries, ScorerOf(q), only, None);
            && Ordered(rows) && OncePerCommand(rows)
            && (forall r :: r in rows ==> Describes(r, entries, score))
            && (forall r :: r in rows ==> Answers(entries, score, only, r.entry.command))
            && (only.None? ==> RunTotal(rows) == |Found(entries, score)|)
  {
    var score := ScorerOf(q);
    var all, rows := AllRows(entries, score), Search(entries, score, only, None);
    SearchedRows(entries, score, only);
    RowsDescribe(entries, score);
    CommandsAreDistinct(entries, |entries|, score);
    assert OncePerCommand(all);
    OnceAmongFewer(all, rows);
    forall r | r in rows
      ensures Describes(r, entries, score) && Answers(entries, score, only, r.entry.command)
    {
      assert r in multiset(rows);
      assert r in multiset(all);
      RowAnswers(entries, q, only, r);
    }
    if only.None? {
      SortKeepsTotal(all);
      NoRunIsLost(entries, score);
    }
  }

  lemma RowAnswers(entries: seq<Entry>, q: Query, only: Option<string>, r: Row)
    ensures r in Narrowed(AllRows(entries, ScorerOf(q)), entries, only) ==>
              Answers(entries, ScorerOf(q), only, r.entry.command)
  {
    var score := ScorerOf(q);
    if only.Some? {
      NarrowingKeepsCounts(entries, score, only.value, r);
    } else if r in AllRows(entries, score) {
      RowsAnswer(entries, score, r);
    }
  }

  /** And no command that was found, on the chosen host if one is chosen, is missing. */
  lemma NoCommandIsMissing(entries: seq<Entry>, q: Query, only: Option<string>, c: string)
    requires Answers(entries, ScorerOf(q), only, c)
    ensures exists r :: r in Search(entries, ScorerOf(q), only, None) && r.entry.command == c
  {
    var score := ScorerOf(q);
    var i :| 0 <= i < |entries| && Hit(entries[i], c, score) && (only.Some? ==> entries[i].hostId == only);
    assert Answers(entries, score, None, c);
    var r := AnswersHaveRows(entries, score, c);
    if only.Some? {
      NarrowingKeepsCounts(entries, score, only.value, r);
    }
    SearchedRows(entries, score, only);
    assert r in Search(entries, score, only, None);
  }

  /** A limit cuts the list short and changes nothing else. */
  lemma LimitCuts(entries: seq<Entry>, score: Scorer, only: Option<string>, limit: nat)
    ensures var all, cut := Search(entries, score, only, None), Search(entries, score, only, Some(limit));
            cut <= all && |cut| == if limit < |all| then limit else |all|
  {
  }
}
