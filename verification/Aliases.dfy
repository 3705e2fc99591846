/** Giving every exported host an alias of its own. */
module Aliases {
  import opened Basics
  import opened Text

  /** The k-th alias tried for a label: its own, then with the suffixes -2, -3, and so on. */
  function Candidate(base: string, k: nat): string {
    if k <= 1 then base else base + "-" + Decimal(k)
  }

  /** No two numbers give the same alias. */
  lemma CandidatesDiffer(base: string, j: nat, k: nat)
    requires 1 <= j && 1 <= k && Candidate(base, j) == Candidate(base, k)
    ensures j == k
  {
    var prefix := base + "-";
    if j > 1 && k > 1 {
      assert Candidate(base, j)[|prefix|..] == Decimal(j);
      assert Candidate(base, k)[|prefix|..] == Decimal(k);
      DecimalReads(j);
      DecimalReads(k);
    }
  }

  /** The first k candidates. */
  function Tried(base: string, k: nat): set<string> {
    if k == 0 then {} else Tried(base, k - 1) + {Candidate(base, k)}
  }

  lemma {:induction false} NextIsNew(base: string, j: nat, k: nat)
    requires j < k
    ensures Candidate(base, k) !in Tried(base, j)
  {
    if j > 0 {
      NextIsNew(base, j - 1, k);
      if Candidate(base, j) == Candidate(base, k) {
        CandidatesDiffer(base, j, k);
      }
    }
  }

  lemma {:induction false} TriedMany(base: string, k: nat)
    ensures |Tried(base, k)| == k
  {
    if k > 0 {
      TriedMany(base, k - 1);
      NextIsNew(base, k - 1, k);
    }
  }

  lemma {:induction false} TriedAreUsed(base: string, k: nat, used: set<string>)
    requires forall j :: 1 <= j <= k ==> Candidate(base, j) in used
    ensures Tried(base, k) <= used
  {
    if k > 0 {
      TriedAreUsed(base, k - 1, used);
    }
  }

  lemma {:induction false} SubsetIsSmaller<T>(a: set<T>, b: set<T>)
    requires a <= b
    ensures |a| <= |b|
  {
    assert b == a + (b - a);
  }

  /** Only as many candidates can be taken as there are names in use. */
  lemma CollisionsAreBounded(base: string, k: nat, used: set<string>)
    requires forall j :: 1 <= j <= k ==> Candidate(base, j) in used
    ensures k <= |used|
  {
    TriedMany(base, k);
    TriedAreUsed(base, k, used);
    SubsetIsSmaller(Tried(base, k), used);
  }

  /** The first candidate that is not in use. */
  ghost predicate IsFirstFree(base: string, used: set<string>, alias: string) {
    exists k: nat :: 1 <= k && FreeAt(base, used, k) && alias == Candidate(base, k)
  }

  ghost predicate FreeAt(base: string, used: set<string>, k: nat) {
    && Candidate(base, k) !in used
    && forall j :: 1 <= j < k ==> Candidate(base, j) in used
  }

  ghost function Elements(s: seq<string>): set<string> {
    set x | x in s
  }

  /** Every alias is the first candidate that no earlier label took. */
  ghost predicate Assigned(bases: seq<string>, aliases: seq<string>) {
    && |aliases| == |bases|
    && forall i :: 0 <= i < |bases| ==> IsFirstFree(bases[i], Elements(aliases[..i]), aliases[i])
  }

  method FirstFree(base: string, used: set<string>) returns (alias: string)
    ensures IsFirstFree(base, used, alias)
  {
    alias := base;
    var counter := 2;
    while alias in used
      invariant counter >= 2 && alias == Candidate(base, counter - 1)
      invariant forall j :: 1 <= j < counter - 1 ==> Candidate(base, j) in used
      decreases |used| + 2 - counter
    {
      CollisionsAreBounded(base, counter - 1, used);
      alias := base + "-" + Decimal(counter);
      counter := counter + 1;
    }
    assert FreeAt(base, used, counter - 1);
  }

  function Bases(labels: seq<string>, sshAlias: string -> string): seq<string> {
    seq(|labels|, i requires 0 <= i < |labels| => sshAlias(labels[i]))
  }

  lemma AssignedSnoc(bases: seq<string>, aliases: seq<string>, base: string, alias: string)
    requires Assigned(bases, aliases) && IsFirstFree(base, Elements(aliases), alias)
    ensures Assigned(bases + [base], aliases + [alias])
  {
    var allBases, all := bases + [base], aliases + [alias];
    forall i | 0 <= i < |allBases|
      ensures IsFirstFree(allBases[i], Elements(all[..i]), all[i])
    {
      assert all[..i] == aliases[..i];
      assert i == |bases| ==> aliases[..i] == aliases;
    }
  }

  method UniqueAliases(labels: seq<string>, sshAlias: string -> string) returns (aliases: seq<string>)
    ensures Assigned(Bases(labels, sshAlias), aliases)
  {
    var used: set<string> := {};
    aliases := [];
    ghost var bases := Bases(labels, sshAlias);
    for i := 0 to |labels|
      invariant |aliases| == i && used == Elements(aliases)
      invariant Assigned(bases[..i], aliases)
    {
      var alias := FirstFree(sshAlias(labels[i]), used);
      AssignedSnoc(bases[..i], aliases, bases[i], alias);
      assert bases[..i] + [bases[i]] == bases[..i + 1];
      used := used + {alias};
      aliases := aliases + [alias];
    }
    assert bases[..|labels|] == bases;
  }

  // ---- Laws of the assignment ----

  /** No two hosts share an alias, whatever their labels. */
  lemma AliasesAreDistinct(bases: seq<string>, aliases: seq<string>)
    requires Assigned(bases, aliases)
    ensures Distinct(aliases)
  {
    forall i, j | 0 <= i < j < |aliases|
      ensures aliases[i] != aliases[j]
    {
      assert aliases[i] in aliases[..j] by {
        assert aliases[..j][i] == aliases[i];
      }
      assert IsFirstFree(bases[j], Elements(aliases[..j]), aliases[j]);
    }
  }

  lemma SameFirstFree(base: string, used: set<string>, a: string, b: string)
    requires IsFirstFree(base, used, a) && IsFirstFree(base, used, b)
    ensures a == b
  {
    var j: nat :| 1 <= j && FreeAt(base, used, j) && a == Candidate(base, j);
    var k: nat :| 1 <= k && FreeAt(base, used, k) && b == Candidate(base, k);
    assert j == k;
  }

  /** Each alias depends only on the labels up to its own: adding hosts at the end renames nobody. */
  lemma {:induction false} AliasesAreStable(bases: seq<string>, aliases: seq<string>,
                                            more: seq<string>, others: seq<string>, n: nat)
    requires Assigned(bases, aliases) && Assigned(more, others)
    requires n <= |bases| && n <= |more| && bases[..n] == more[..n]
    ensures aliases[..n] == others[..n]
  {
    if n > 0 {
      assert bases[..n][..n - 1] == bases[..n - 1] && more[..n][..n - 1] == more[..n - 1];
      AliasesAreStable(bases, aliases, more, others, n - 1);
      assert bases[n - 1] == bases[..n][n - 1] == more[..n][n - 1] == more[n - 1];
      SameFirstFree(bases[n - 1], Elements(aliases[..n - 1]), aliases[n - 1], others[n - 1]);
      assert aliases[..n] == aliases[..n - 1] + [aliases[n - 1]];
      assert others[..n] == others[..n - 1] + [others[n - 1]];
    }
  }

  /** A label keeps its own form exactly when no earlier host took it; otherwise its suffix is at most
      one more than the number of hosts before it. */
  lemma SuffixIsSmall(bases: seq<string>, aliases: seq<string>, i: nat) returns (k: nat)
    requires Assigned(bases, aliases) && i < |bases|
    ensures 1 <= k <= i + 1 && aliases[i] == Candidate(bases[i], k)
    ensures k == 1 <==> bases[i] !in aliases[..i]
  {
    var used := Elements(aliases[..i]);
    assert IsFirstFree(bases[i], used, aliases[i]);
    k :| 1 <= k && FreeAt(bases[i], used, k) && aliases[i] == Candidate(bases[i], k);
    CollisionsAreBounded(bases[i], k - 1, used);
    ElementsAreFew(aliases[..i]);
    assert Candidate(bases[i], 1) == bases[i];
  }

  lemma {:induction false} ElementsAreFew(s: seq<string>)
    ensures |Elements(s)| <= |s|
  {
    if s != [] {
      var init := s[..|s| - 1];
      ElementsAreFew(init);
      assert s == init + [s[|s| - 1]];
      assert Elements(s) == Elements(init) + {s[|s| - 1]};
    }
  }
}
