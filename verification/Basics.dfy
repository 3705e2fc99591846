/** Vocabulary shared by every model: optional values, bytes, and concatenation of chunks. */
module Basics {

  datatype Option<+T> = None | Some(value: T)

  function OrElse<T>(first: Option<T>, second: Option<T>): Option<T> {
    if first.Some? then first else second
  }

  function Max(a: real, b: real): real { if a >= b then a else b }

  type byte = x: int | 0 <= x < 256

  /** A stream that arrived in chunks, as one sequence. */
  function Flatten<T>(chunks: seq<seq<T>>): seq<T> {
    if chunks == [] then [] else chunks[0] + Flatten(chunks[1..])
  }

  lemma {:induction false} FlattenConcat<T>(a: seq<seq<T>>, b: seq<seq<T>>)
    ensures Flatten(a + b) == Flatten(a) + Flatten(b)
  {
    if a == [] {
      assert a + b == b;
    } else {
      assert (a + b)[1..] == a[1..] + b;
      FlattenConcat(a[1..], b);
    }
  }

  /** What the first n chunks of a stream are together. */
  function FirstChunks<T>(chunks: seq<seq<T>>, n: nat): seq<T>
    requires n <= |chunks|
  {
    if n == 0 then [] else FirstChunks(chunks, n - 1) + chunks[n - 1]
  }

  lemma {:induction false} FirstChunksGrow<T>(chunks: seq<seq<T>>, k: nat, n: nat)
    requires k <= n <= |chunks|
    ensures FirstChunks(chunks, k) <= FirstChunks(chunks, n)
  {
    if k < n {
      FirstChunksGrow(chunks, k, n - 1);
    }
  }

  lemma FlattenSnoc<T>(a: seq<seq<T>>, c: seq<T>)
    ensures Flatten(a + [c]) == Flatten(a) + c
  {
    FlattenConcat(a, [c]);
    assert Flatten([c]) == c;
  }

  lemma PrefixAndRest<T>(a: seq<T>, s: seq<T>)
    requires a <= s
    ensures a + s[|a|..] == s
    ensures s[|a|..] == [] <==> a == s
  {
  }

  predicate Distinct<T(==)>(s: seq<T>) {
    forall i, j :: 0 <= i < j < |s| ==> s[i] != s[j]
  }

  // ---- Searching ----

  predicate OccursAt<T(==)>(s: seq<T>, pattern: seq<T>, i: nat) {
    i + |pattern| <= |s| && s[i..i + |pattern|] == pattern
  }

  /** The first occurrence of the pattern that starts at i or later. */
  function IndexFrom<T(==)>(s: seq<T>, pattern: seq<T>, i: nat): (r: Option<nat>)
    ensures r.Some? ==> i <= r.value && OccursAt(s, pattern, r.value)
    ensures r.Some? ==> forall j :: i <= j < r.value ==> !OccursAt(s, pattern, j)
    ensures r.None? ==> forall j :: i <= j ==> !OccursAt(s, pattern, j)
    decreases |s| - i
  {
    if i + |pattern| > |s| then None
    else if OccursAt(s, pattern, i) then Some(i)
    else IndexFrom(s, pattern, i + 1)
  }

  function IndexOf<T(==)>(s: seq<T>, pattern: seq<T>): Option<nat> {
    IndexFrom(s, pattern, 0)
  }
}
