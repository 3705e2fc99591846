/** Callbacks of the JSON-RPC peer that throw. */
module RpcThrowing {
  // A callback that throws leaves `feed` at once: the frames of the same chunk behind it are lost, the
  // framing state is already the next one. So what is lost does depend on the chunking.

  import opened Basics
  import opened Jsonl
  import opened RpcPeer
  import opened Text

  /** Whether handling a frame throws. */
  type Thrower = Json -> bool

  function DispatchUntil(p: Peer, frames: seq<Json>, throws: Thrower): Peer
    decreases |frames|
  {
    if frames == [] then p
    else if throws(frames[0]) then Dispatch(p, frames[0])
    else DispatchUntil(Dispatch(p, frames[0]), frames[1..], throws)
  }

  function FeedUntil(p: Peer, chunk: string, parse: Parser, throws: Thrower): Peer {
    var r := SplitSpec(p.rest, chunk, parse);
    DispatchUntil(p.(rest := r.rest, dropped := p.dropped + r.dropped), r.frames, throws)
  }

  function FeedAllUntil(p: Peer, chunks: seq<string>, parse: Parser, throws: Thrower, n: nat): Peer
    requires n <= |chunks|
  {
    if n == 0 then p else FeedUntil(FeedAllUntil(p, chunks, parse, throws, n - 1), chunks[n - 1], parse, throws)
  }

  predicate OnlyLastThrows(frames: seq<Json>, throws: Thrower) {
    forall i :: 0 <= i < |frames| - 1 ==> !throws(frames[i])
  }

  /** The unfinished line after the first k chunks. */
  function RestAt(rest: string, chunks: seq<string>, k: nat): string
    requires k <= |chunks|
  {
    Lines(rest + FirstChunks(chunks, k)).1
  }

  /** The frames that chunk k completes. */
  function FramesAt(rest: string, chunks: seq<string>, parse: Parser, k: nat): seq<Json>
    requires k < |chunks|
  {
    SplitSpec(RestAt(rest, chunks, k), chunks[k], parse).frames
  }

  lemma {:induction false} AllAreLogged(p: Peer, frames: seq<Json>)
    ensures |DispatchAll(p, frames).log| == |p.log| + |frames|
    decreases |frames|
  {
    if frames != [] {
      var e := DispatchLogsOne(p, frames[0]);
      AllAreLogged(Dispatch(p, frames[0]), frames[1..]);
    }
  }

  /** All frames are handled if and only if none but the last throws; else some are lost. */
  lemma {:induction false} UntilTheFirstThrow(p: Peer, frames: seq<Json>, throws: Thrower)
    ensures OnlyLastThrows(frames, throws) ==> DispatchUntil(p, frames, throws) == DispatchAll(p, frames)
    ensures !OnlyLastThrows(frames, throws) ==> |DispatchUntil(p, frames, throws).log| < |p.log| + |frames|
    decreases |frames|
  {
    if frames != [] {
      var e := DispatchLogsOne(p, frames[0]);
      if throws(frames[0]) {
        assert |frames| == 1 ==> frames[1..] == [];
      } else {
        UntilTheFirstThrow(Dispatch(p, frames[0]), frames[1..], throws);
        OnlyLastOfRest(frames, throws);
      }
    }
  }

  lemma OnlyLastOfRest(frames: seq<Json>, throws: Thrower)
    requires frames != [] && !throws(frames[0])
    ensures OnlyLastThrows(frames, throws) <==> OnlyLastThrows(frames[1..], throws)
  {
    if OnlyLastThrows(frames[1..], throws) {
      forall i | 0 <= i < |frames| - 1
        ensures !throws(frames[i])
      {
        assert i > 0 ==> frames[i] == frames[1..][i - 1];
      }
    }
  }

  lemma {:induction false} UntilKeepsFraming(p: Peer, frames: seq<Json>, throws: Thrower)
    ensures DispatchUntil(p, frames, throws).rest == p.rest
    decreases |frames|
  {
    if frames != [] {
      DispatchKeepsFraming(p, [frames[0]]);
      assert DispatchAll(p, [frames[0]]) == Dispatch(p, frames[0]);
      UntilKeepsFraming(Dispatch(p, frames[0]), frames[1..], throws);
    }
  }

  /** A peer that has lost effects, or has not, beside one whose callbacks return. */
  ghost predicate Beside(now: Peer, whole: Peer, lost: bool) {
    now.rest == whole.rest && if lost then |now.log| < |whole.log| else now == whole
  }

  lemma OneChunk(now: Peer, whole: Peer, lost: bool, chunk: string, parse: Parser, throws: Thrower)
    requires Beside(now, whole, lost)
    ensures var frames := SplitSpec(whole.rest, chunk, parse).frames;
            Beside(FeedUntil(now, chunk, parse, throws), Feed(whole, chunk, parse),
                   lost || !OnlyLastThrows(frames, throws))
  {
    var r := SplitSpec(whole.rest, chunk, parse);
    var a := now.(rest := r.rest, dropped := now.dropped + r.dropped);
    var b := whole.(rest := r.rest, dropped := whole.dropped + r.dropped);
    UntilTheFirstThrow(a, r.frames, throws);
    UntilKeepsFraming(a, r.frames, throws);
    DispatchKeepsFraming(b, r.frames);
    AllAreLogged(a, r.frames);
    AllAreLogged(b, r.frames);
  }

  ghost predicate NothingLost(rest: string, chunks: seq<string>, parse: Parser, throws: Thrower, n: nat)
    requires n <= |chunks|
  {
    forall k: nat :: k < n ==> OnlyLastThrows(FramesAt(rest, chunks, parse, k), throws)
  }

  lemma NothingLostSoFar(rest: string, chunks: seq<string>, parse: Parser, throws: Thrower, n: nat)
    requires n < |chunks|
    ensures NothingLost(rest, chunks, parse, throws, n + 1) <==>
            NothingLost(rest, chunks, parse, throws, n) && OnlyLastThrows(FramesAt(rest, chunks, parse, n), throws)
  {
  }

  lemma RestFollows(p: Peer, chunks: seq<string>, parse: Parser, n: nat)
    requires n <= |chunks| && '\n' !in p.rest
    ensures FeedAll(p, chunks, parse, n).rest == RestAt(p.rest, chunks, n)
  {
    ChunkingIsInvisible(p, chunks, parse, n);
    FeedShape(p, FirstChunks(chunks, n), parse);
  }

  lemma {:induction false} LossesAdd(p: Peer, chunks: seq<string>, parse: Parser, throws: Thrower, n: nat)
    requires n <= |chunks| && '\n' !in p.rest
    ensures Beside(FeedAllUntil(p, chunks, parse, throws, n), FeedAll(p, chunks, parse, n),
                   !NothingLost(p.rest, chunks, parse, throws, n))
  {
    if n > 0 {
      var k := n - 1;
      LossesAdd(p, chunks, parse, throws, k);
      RestFollows(p, chunks, parse, k);
      NothingLostSoFar(p.rest, chunks, parse, throws, k);
      OneChunk(FeedAllUntil(p, chunks, parse, throws, k), FeedAll(p, chunks, parse, k),
               !NothingLost(p.rest, chunks, parse, throws, k), chunks[k], parse, throws);
    }
  }

  /** Nothing is lost exactly when no frame throws but the last of its chunk: then state and effects are
      those of the whole text fed at once to callbacks that return, else effects are missing. */
  lemma NothingIsLostExactly(p: Peer, chunks: seq<string>, parse: Parser, throws: Thrower)
    requires '\n' !in p.rest
    ensures FeedAllUntil(p, chunks, parse, throws, |chunks|) == Feed(p, FirstChunks(chunks, |chunks|), parse)
            <==> NothingLost(p.rest, chunks, parse, throws, |chunks|)
  {
    LossesAdd(p, chunks, parse, throws, |chunks|);
    ChunkingIsInvisible(p, chunks, parse, |chunks|);
  }

  // ---- Two chunkings of one text ----

  ghost predicate Cuts(chunks: seq<string>, text: string) {
    FirstChunks(chunks, |chunks|) == text
  }

  /** Every chunking of a text leads to the same state with the same effects. */
  ghost predicate Invisible(p: Peer, text: string, parse: Parser, throws: Thrower) {
    forall a, b :: Cuts(a, text) && Cuts(b, text) ==>
      FeedAllUntil(p, a, parse, throws, |a|) == FeedAllUntil(p, b, parse, throws, |b|)
  }

  /** The frames of one more chunk come behind those before. */
  lemma FramesAddUp(rest: string, chunks: seq<string>, parse: Parser, n: nat)
    requires n < |chunks|
    ensures SplitSpec(rest, FirstChunks(chunks, n + 1), parse).frames ==
            SplitSpec(rest, FirstChunks(chunks, n), parse).frames + FramesAt(rest, chunks, parse, n)
  {
    TwoChunksAreOne(rest, FirstChunks(chunks, n), chunks[n], parse);
  }

  lemma OnlyLastWithin(before: seq<Json>, part: seq<Json>, after: seq<Json>, throws: Thrower)
    requires OnlyLastThrows(before + part + after, throws)
    ensures OnlyLastThrows(part, throws)
  {
    forall i | 0 <= i < |part| - 1
      ensures !throws(part[i])
    {
      assert (before + part + after)[|before| + i] == part[i];
    }
  }

  lemma FramesInOrder(rest: string, head: string, tail: string, parse: Parser) returns (after: seq<Json>)
    ensures SplitSpec(rest, head + tail, parse).frames == SplitSpec(rest, head, parse).frames + after
  {
    after := SplitSpec(SplitSpec(rest, head, parse).rest, tail, parse).frames;
    TwoChunksAreOne(rest, head, tail, parse);
  }

  lemma ChunksInOrder(chunks: seq<string>, k: nat) returns (tail: string)
    requires k <= |chunks|
    ensures FirstChunks(chunks, |chunks|) == FirstChunks(chunks, k) + tail
  {
    FirstChunksGrow(chunks, k, |chunks|);
    tail := FirstChunks(chunks, |chunks|)[|FirstChunks(chunks, k)|..];
  }

  /** The frames of one chunk stand together among those of the text. */
  lemma PartOfText(rest: string, chunks: seq<string>, text: string, parse: Parser, k: nat)
    returns (before: seq<Json>, after: seq<Json>)
    requires k < |chunks| && Cuts(chunks, text)
    ensures SplitSpec(rest, text, parse).frames == before + FramesAt(rest, chunks, parse, k) + after
  {
    before := SplitSpec(rest, FirstChunks(chunks, k), parse).frames;
    FramesAddUp(rest, chunks, parse, k);
    var tail := ChunksInOrder(chunks, k + 1);
    after := FramesInOrder(rest, FirstChunks(chunks, k + 1), tail, parse);
  }

  lemma NothingLostInCuts(p: Peer, chunks: seq<string>, text: string, parse: Parser, throws: Thrower)
    requires '\n' !in p.rest && Cuts(chunks, text)
    requires OnlyLastThrows(SplitSpec(p.rest, text, parse).frames, throws)
    ensures FeedAllUntil(p, chunks, parse, throws, |chunks|) == Feed(p, text, parse)
  {
    forall k: nat | k < |chunks|
      ensures OnlyLastThrows(FramesAt(p.rest, chunks, parse, k), throws)
    {
      var before, after := PartOfText(p.rest, chunks, text, parse, k);
      OnlyLastWithin(before, FramesAt(p.rest, chunks, parse, k), after, throws);
    }
    NothingIsLostExactly(p, chunks, parse, throws);
  }

  /** One character at a time. */
  function Singles(text: string): seq<string> {
    seq(|text|, i requires 0 <= i < |text| => [text[i]])
  }

  lemma {:induction false} SinglesCut(text: string, n: nat)
    requires n <= |text|
    ensures FirstChunks(Singles(text), n) == text[..n]
  {
    if n > 0 {
      SinglesCut(text, n - 1);
    }
  }

  lemma {:induction false} OneFramePerLine(lines: seq<string>, parse: Parser)
    ensures |FramesOf(lines, parse)| <= |lines|
  {
    if lines != [] {
      OneFramePerLine(lines[1..], parse);
    }
  }

  /** One character completes at most one line. */
  lemma OneCharacterOneFrame(rest: string, c: char, parse: Parser)
    requires '\n' !in rest
    ensures |SplitSpec(rest, [c], parse).frames| <= 1
  {
    ScanAppended(rest, [c], [], []);
    ScanUnbroken(rest, []);
    var lines := Lines(rest + [c]).0;
    assert [c][1..] == [];
    assert lines == if c == '\n' then [[] + rest] else [];
    OneFramePerLine(lines, parse);
  }

  lemma SinglesLoseNothing(p: Peer, text: string, parse: Parser, throws: Thrower)
    requires '\n' !in p.rest
    ensures Cuts(Singles(text), text)
    ensures FeedAllUntil(p, Singles(text), parse, throws, |text|) == Feed(p, text, parse)
  {
    SinglesCut(text, |text|);
    assert text[..|text|] == text;
    forall k: nat | k < |text|
      ensures OnlyLastThrows(FramesAt(p.rest, Singles(text), parse, k), throws)
    {
      RestHasNoBreak(p.rest + FirstChunks(Singles(text), k), [], []);
      OneCharacterOneFrame(RestAt(p.rest, Singles(text), k), text[k], parse);
    }
    NothingIsLostExactly(p, Singles(text), parse, throws);
  }

  lemma WholeChunk(p: Peer, text: string, parse: Parser, throws: Thrower)
    requires '\n' !in p.rest
    ensures Cuts([text], text)
    ensures FeedAllUntil(p, [text], parse, throws, 1) == FeedUntil(p, text, parse, throws)
    ensures NothingLost(p.rest, [text], parse, throws, 1) <==>
            OnlyLastThrows(SplitSpec(p.rest, text, parse).frames, throws)
  {
    assert FirstChunks([text], 1) == FirstChunks([text], 0) + text == text;
    assert FeedAllUntil(p, [text], parse, throws, 0) == p;
    ScanUnbroken(p.rest, []);
    assert p.rest + FirstChunks([text], 0) == p.rest && [] + p.rest == p.rest;
    NothingLostSoFar(p.rest, [text], parse, throws, 0);
  }

  /** The chunking of a text cannot be seen exactly when no frame of the text throws but its last: else
      the text at once loses frames that it does not lose one character at a time. */
  lemma InvisibleExactly(p: Peer, text: string, parse: Parser, throws: Thrower)
    requires '\n' !in p.rest
    ensures Invisible(p, text, parse, throws) <==> OnlyLastThrows(SplitSpec(p.rest, text, parse).frames, throws)
  {
    WholeChunk(p, text, parse, throws);
    SinglesLoseNothing(p, text, parse, throws);
    NothingIsLostExactly(p, [text], parse, throws);
    if OnlyLastThrows(SplitSpec(p.rest, text, parse).frames, throws) {
      forall chunks | Cuts(chunks, text)
        ensures FeedAllUntil(p, chunks, parse, throws, |chunks|) == Feed(p, text, parse)
      {
        NothingLostInCuts(p, chunks, text, parse, throws);
      }
    } else {
      assert |Singles(text)| == |text|;
      var singles := Singles(text);
      assert FeedAllUntil(p, [text], parse, throws, |[text]|) != FeedAllUntil(p, singles, parse, throws, |singles|);
    }
  }

  lemma TwoLines(first: string, second: string)
    requires '\n' !in first && '\n' !in second
    ensures Lines([] + (first + "\n" + second + "\n")) == ([first, second], [])
  {
    var text := first + "\n" + second + "\n";
    SplitFirst(first, second + "\n", '\n');
    SplitFirst(second, [], '\n');
    assert text == first + ['\n'] + (second + "\n") && second + "\n" == second + ['\n'] + [];
    assert Split([], '\n') == [[]];
    LinesAreThePieces(text, []);
    var pieces := Split(text, '\n');
    assert pieces == [first, second, []] && [] + pieces[0] == pieces[0];
    var r := Lines(text);
    assert r.0 + [r.1] == [first, second, []];
    assert r.0 == (r.0 + [r.1])[..2] == [first, second] && [] + text == text;
  }

  lemma TwoFrames(first: string, second: string, parse: Parser)
    requires '\n' !in first && '\n' !in second && Trim(first) != "" && Trim(second) != ""
    requires parse(first).Some? && parse(second).Some?
    ensures SplitSpec([], first + "\n" + second + "\n", parse).frames == [parse(first).value, parse(second).value]
  {
    TwoLines(first, second);
    OneMoreFrame([], first, parse);
    OneMoreFrame([first], second, parse);
    assert [] + [first] == [first] && [first] + [second] == [first, second];
  }

  /** For instance two notifications on two lines whose handler throws: in one chunk the second is lost, in
      two it is not. */
  lemma SecondFrameIsLost(first: string, second: string, parse: Parser, throws: Thrower)
    requires '\n' !in first && '\n' !in second && Trim(first) != "" && Trim(second) != ""
    requires parse(first).Some? && parse(second).Some? && throws(parse(first).value)
    ensures var text := first + "\n" + second + "\n";
            && |FeedUntil(FRESH_PEER, text, parse, throws).log| == 1
            && |Feed(FRESH_PEER, text, parse).log| == 2
            && !Invisible(FRESH_PEER, text, parse, throws)
  {
    var text := first + "\n" + second + "\n";
    var a, b := parse(first).value, parse(second).value;
    var split := SplitSpec([], text, parse);
    TwoFrames(first, second, parse);
    var q := FRESH_PEER.(rest := split.rest, dropped := [] + split.dropped);
    var e := DispatchLogsOne(q, a);
    AllAreLogged(q, [a, b]);
    InvisibleExactly(FRESH_PEER, text, parse, throws);
    assert throws([a, b][0]);
  }
}
