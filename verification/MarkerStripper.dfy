/** The marker filter of a tunnel. */
module MarkerStripper {
  // The filter between a login shell and the client: it drops everything up to and including the first
  // occurrence of a marker and passes the rest through, whatever the chunk boundaries are.

  import opened Basics

  const HEAD_LIMIT := 65536

  /** What is meant to reach the client out of a whole stream. */
  function AfterMarker(s: seq<byte>, marker: seq<byte>): seq<byte> {
    var at := IndexOf(s, marker);
    if at.None? then [] else s[at.value + |marker|..]
  }

  datatype StripState = StripState(seen: bool, head: seq<byte>, failed: bool, out: seq<byte>)

  const FRESH_STRIPPER := StripState(false, [], false, [])

  /** One chunk; a stream that failed takes no further chunks. */
  function Step(s: StripState, marker: seq<byte>, chunk: seq<byte>): StripState {
    if s.failed then s
    else if s.seen then s.(out := s.out + chunk)
    else
      var head := s.head + chunk;
      var at := IndexOf(head, marker);
      if at.Some? then StripState(true, [], false, s.out + head[at.value + |marker|..])
      else if |head| > HEAD_LIMIT then s.(head := head, failed := true)
      else s.(head := head)
  }

  function After(chunks: seq<seq<byte>>, marker: seq<byte>, n: nat): StripState
    requires n <= |chunks|
  {
    if n == 0 then FRESH_STRIPPER else Step(After(chunks, marker, n - 1), marker, chunks[n - 1])
  }

  lemma {:induction false} PrefixDecides(a: seq<seq<byte>>, b: seq<seq<byte>>, marker: seq<byte>, n: nat)
    requires n <= |a| && a <= b
    ensures After(a, marker, n) == After(b, marker, n)
    ensures FirstChunks(a, n) == FirstChunks(b, n)
  {
    if n != 0 {
      PrefixDecides(a, b, marker, n - 1);
    }
  }

  lemma OccursAlike(s: seq<byte>, t: seq<byte>, marker: seq<byte>, i: nat)
    requires i + |marker| <= |s|
    ensures OccursAt(s + t, marker, i) <==> OccursAt(s, marker, i)
  {
    assert (s + t)[i..i + |marker|] == s[i..i + |marker|];
  }

  /** Later bytes never change where the marker first occurs. */
  lemma FirstOccurrenceIsStable(s: seq<byte>, t: seq<byte>, marker: seq<byte>)
    requires IndexOf(s, marker).Some?
    ensures IndexOf(s + t, marker) == IndexOf(s, marker)
    ensures AfterMarker(s + t, marker) == AfterMarker(s, marker) + t
  {
    var at := IndexOf(s, marker).value;
    OccursAlike(s, t, marker, at);
    forall j: nat | j < at
      ensures !OccursAt(s + t, marker, j)
    {
      OccursAlike(s, t, marker, j);
    }
    assert (s + t)[at + |marker|..] == s[at + |marker|..] + t;
  }

  lemma AbsentInPrefix(s: seq<byte>, t: seq<byte>, marker: seq<byte>)
    requires s <= t && IndexOf(t, marker).None?
    ensures IndexOf(s, marker).None?
  {
    if IndexOf(s, marker).Some? {
      assert t == s + t[|s|..];
      FirstOccurrenceIsStable(s, t[|s|..], marker);
    }
  }

  predicate TooLateAt(chunks: seq<seq<byte>>, marker: seq<byte>, k: nat)
    requires k <= |chunks|
  {
    |FirstChunks(chunks, k)| > 65536 && IndexOf(FirstChunks(chunks, k), marker).None?
  }

  /** Until it fails, the filter has let through exactly the bytes after the first marker of what
      it received; it fails with nothing let through, at the first chunk that brings the received
      bytes over the limit without a marker among them. */
  ghost predicate MeetsSpec(s: StripState, chunks: seq<seq<byte>>, marker: seq<byte>, n: nat)
    requires n <= |chunks|
  {
    && (s.failed <==> exists k: nat :: k <= n && TooLateAt(chunks, marker, k))
    && s.out == (if s.failed then [] else AfterMarker(FirstChunks(chunks, n), marker))
    && (!s.failed && n > 0 ==> (s.seen <==> IndexOf(FirstChunks(chunks, n), marker).Some?))
    && (!s.failed && !s.seen ==> s.head == FirstChunks(chunks, n))
  }

  lemma FreshMeetsSpec(chunks: seq<seq<byte>>, marker: seq<byte>)
    ensures MeetsSpec(FRESH_STRIPPER, chunks, marker, 0)
  {
    assert forall k: nat :: k <= 0 ==> !TooLateAt(chunks, marker, k);
  }

  lemma StepMeetsSpec(chunks: seq<seq<byte>>, marker: seq<byte>, n: nat)
    requires 0 < n <= |chunks|
    requires MeetsSpec(After(chunks, marker, n - 1), chunks, marker, n - 1)
    ensures MeetsSpec(After(chunks, marker, n), chunks, marker, n)
  {
    var before := After(chunks, marker, n - 1);
    if before.failed {
      var k: nat :| k <= n - 1 && TooLateAt(chunks, marker, k);
      assert k <= n;
    } else if before.seen {
      FirstOccurrenceIsStable(FirstChunks(chunks, n - 1), chunks[n - 1], marker);
      assert !TooLateAt(chunks, marker, n);
    } else {
      assert After(chunks, marker, n).failed <==> TooLateAt(chunks, marker, n);
    }
  }

  lemma {:induction false} StripperMeetsSpec(chunks: seq<seq<byte>>, marker: seq<byte>, n: nat)
    requires n <= |chunks|
    ensures MeetsSpec(After(chunks, marker, n), chunks, marker, n)
  {
    if n == 0 {
      FreshMeetsSpec(chunks, marker);
    } else {
      StripperMeetsSpec(chunks, marker, n - 1);
      StepMeetsSpec(chunks, marker, n);
    }
  }

  /** Chunk invariance: any split that does not fail yields the bytes after the first marker of the
      whole stream, so any two such splits of one stream agree. */
  lemma SplitsAgree(a: seq<seq<byte>>, b: seq<seq<byte>>, marker: seq<byte>)
    requires FirstChunks(a, |a|) == FirstChunks(b, |b|)
    requires !After(a, marker, |a|).failed && !After(b, marker, |b|).failed
    ensures After(a, marker, |a|).out == After(b, marker, |b|).out
            == AfterMarker(FirstChunks(a, |a|), marker)
  {
    StripperMeetsSpec(a, marker, |a|);
    StripperMeetsSpec(b, marker, |b|);
  }

  ghost predicate SplitFails(chunks: seq<seq<byte>>, s: seq<byte>, marker: seq<byte>) {
    FirstChunks(chunks, |chunks|) == s && After(chunks, marker, |chunks|).failed
  }

  ghost predicate SplitPasses(chunks: seq<seq<byte>>, s: seq<byte>, marker: seq<byte>) {
    FirstChunks(chunks, |chunks|) == s && !After(chunks, marker, |chunks|).failed
  }

  lemma TwoChunks(a: seq<byte>, b: seq<byte>)
    ensures FirstChunks([a, b], 1) == a && FirstChunks([a, b], 2) == a + b
    ensures FirstChunks([a], 1) == a
  {
    assert FirstChunks([a, b], 1) == FirstChunks([a, b], 0) + a;
    assert FirstChunks([a], 1) == FirstChunks([a], 0) + a;
  }

  /** Exactly which streams some split makes fail: those with no marker in their first 65537 bytes. */
  lemma SomeSplitFails(s: seq<byte>, marker: seq<byte>)
    ensures (exists chunks :: SplitFails(chunks, s, marker)) <==>
            |s| > 65536 && IndexOf(s[..65537], marker).None?
  {
    if |s| > 65536 && IndexOf(s[..65537], marker).None? {
      var a, b := s[..65537], s[65537..];
      TwoChunks(a, b);
      assert s == a + b;
      assert TooLateAt([a, b], marker, 1);
      StripperMeetsSpec([a, b], marker, 2);
      assert SplitFails([a, b], s, marker);
    }
    forall chunks | SplitFails(chunks, s, marker)
      ensures |s| > 65536 && IndexOf(s[..65537], marker).None?
    {
      StripperMeetsSpec(chunks, marker, |chunks|);
      var k: nat :| k <= |chunks| && TooLateAt(chunks, marker, k);
      FirstChunksGrow(chunks, k, |chunks|);
      AbsentInPrefix(s[..65537], FirstChunks(chunks, k), marker);
    }
  }

  /** Exactly which streams every split makes fail: those over the limit with no marker at all. */
  lemma EverySplitFails(s: seq<byte>, marker: seq<byte>)
    ensures (forall chunks :: !SplitPasses(chunks, s, marker)) <==>
            |s| > 65536 && IndexOf(s, marker).None?
  {
    if |s| > 65536 && IndexOf(s, marker).None? {
      forall chunks: seq<seq<byte>>
        ensures !SplitPasses(chunks, s, marker)
      {
        StripperMeetsSpec(chunks, marker, |chunks|);
        assert FirstChunks(chunks, |chunks|) == s ==> TooLateAt(chunks, marker, |chunks|);
      }
    } else {
      TwoChunks(s, []);
      StripperMeetsSpec([s], marker, 1);
      assert !TooLateAt([s], marker, 0) && !TooLateAt([s], marker, 1);
      assert SplitPasses([s], s, marker);
    }
  }

  class StripUntilMarker {
    const marker: seq<byte>
    var seen: bool
    var head: seq<byte>
    /** Set by the stream when the transform reports an error; nothing is transformed afterwards. */
    var failed: bool
    ghost var out: seq<byte>

    ghost function View(): StripState
      reads this
    {
      StripState(seen, head, failed, out)
    }

    constructor (marker: seq<byte>)
      ensures View() == FRESH_STRIPPER && this.marker == marker
    {
      this.marker := marker;
      seen, head, failed, out := false, [], false, [];
    }

    /** The bytes pushed on for this chunk; an error pushes nothing. */
    method Transform(chunk: seq<byte>) returns (pushed: seq<byte>)
      requires !failed
      modifies this
      ensures View() == Step(old(View()), marker, chunk)
      ensures out == old(out) + pushed
    {
      if seen {
        pushed := chunk;
      } else {
        head := head + chunk;
        var at := IndexOf(head, marker);
        if at.Some? {
          seen := true;
          pushed := head[at.value + |marker|..];
          head := [];
        } else {
          pushed := [];
          if |head| > HEAD_LIMIT {
            failed := true;
          }
        }
      }
      out := out + pushed;
    }
  }
}
