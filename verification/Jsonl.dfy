/** JSON values, and the framing of one JSON message per line. */
module Jsonl {
  import opened Basics
  import opened Text

  datatype Json =
    | JNull | JBool(b: bool) | JNum(n: int) | JStr(s: string)
    | JArr(items: seq<Json>) | JObj(fields: map<string, Json>)

  /** The host's JSON parser: None where it throws. */
  type Parser = string -> Option<Json>

  datatype JsonlSplit = JsonlSplit(frames: seq<Json>, rest: string, dropped: seq<string>)

  const DROPPED_PREVIEW := 200

  function Preview(line: string): string {
    if |line| > DROPPED_PREVIEW then line[..DROPPED_PREVIEW] + "\U{2026}" else line
  }

  function FrameOf(line: string, parse: Parser): seq<Json> {
    if Trim(line) == "" || parse(line).None? then [] else [parse(line).value]
  }

  function DropOf(line: string, parse: Parser): seq<string> {
    if Trim(line) == "" || parse(line).Some? then [] else [Preview(line)]
  }

  function FramesOf(lines: seq<string>, parse: Parser): seq<Json> {
    if lines == [] then [] else FrameOf(lines[0], parse) + FramesOf(lines[1..], parse)
  }

  function DropsOf(lines: seq<string>, parse: Parser): seq<string> {
    if lines == [] then [] else DropOf(lines[0], parse) + DropsOf(lines[1..], parse)
  }

  /** The complete lines of a text after the ones already done, and the unfinished one. */
  function Scan(text: string, done: seq<string>, line: string): (seq<string>, string) {
    if text == [] then (done, line)
    else if text[0] == '\n' then Scan(text[1..], done + [line], [])
    else Scan(text[1..], done, line + [text[0]])
  }

  function Lines(text: string): (seq<string>, string) {
    Scan(text, [], [])
  }

  function Framed(lines: seq<string>, rest: string, parse: Parser): JsonlSplit {
    JsonlSplit(FramesOf(lines, parse), rest, DropsOf(lines, parse))
  }

  function SplitSpec(rest: string, chunk: string, parse: Parser): JsonlSplit {
    Framed(Lines(rest + chunk).0, Lines(rest + chunk).1, parse)
  }

  // ---- Chunk boundaries do not matter ----

  lemma {:induction false} FramesConcat(a: seq<string>, b: seq<string>, parse: Parser)
    ensures FramesOf(a + b, parse) == FramesOf(a, parse) + FramesOf(b, parse)
  {
    if a == [] {
      assert a + b == b;
    } else {
      assert (a + b)[1..] == a[1..] + b;
      FramesConcat(a[1..], b, parse);
    }
  }

  lemma {:induction false} DropsConcat(a: seq<string>, b: seq<string>, parse: Parser)
    ensures DropsOf(a + b, parse) == DropsOf(a, parse) + DropsOf(b, parse)
  {
    if a == [] {
      assert a + b == b;
    } else {
      assert (a + b)[1..] == a[1..] + b;
      DropsConcat(a[1..], b, parse);
    }
  }

  lemma OneMoreFrame(before: seq<string>, line: string, parse: Parser)
    ensures FramesOf(before + [line], parse) == FramesOf(before, parse) + FrameOf(line, parse)
  {
    FramesConcat(before, [line], parse);
    assert FramesOf([line], parse) == FrameOf(line, parse) + [];
  }

  lemma OneMoreDrop(before: seq<string>, line: string, parse: Parser)
    ensures DropsOf(before + [line], parse) == DropsOf(before, parse) + DropOf(line, parse)
  {
    DropsConcat(before, [line], parse);
    assert DropsOf([line], parse) == DropOf(line, parse) + [];
  }

  lemma OneMoreLine(lines: seq<string>, i: nat, parse: Parser)
    requires i < |lines|
    ensures FramesOf(lines[..i + 1], parse) == FramesOf(lines[..i], parse) + FrameOf(lines[i], parse)
    ensures DropsOf(lines[..i + 1], parse) == DropsOf(lines[..i], parse) + DropOf(lines[i], parse)
  {
    assert lines[..i + 1] == lines[..i] + [lines[i]];
    OneMoreFrame(lines[..i], lines[i], parse);
    OneMoreDrop(lines[..i], lines[i], parse);
  }

  method SplitJsonl(rest: string, chunk: string, parse: Parser) returns (r: JsonlSplit)
    ensures r == SplitSpec(rest, chunk, parse)
  {
    var (lines, tail) := Lines(rest + chunk);
    var frames, dropped := [], [];
    for i := 0 to |lines|
      invariant frames == FramesOf(lines[..i], parse)
      invariant dropped == DropsOf(lines[..i], parse)
    {
      OneMoreLine(lines, i, parse);
      var line := lines[i];
      if Trim(line) == "" {
        continue;
      }
      var value := parse(line);
      if value.Some? {
        frames := frames + [value.value];
      } else {
        dropped := dropped + [Preview(line)];
      }
    }
    assert lines[..|lines|] == lines;
    r := JsonlSplit(frames, tail, dropped);
  }

  lemma {:induction false} ScanAppended(a: string, b: string, done: seq<string>, line: string)
    ensures Scan(a + b, done, line) == Scan(b, Scan(a, done, line).0, Scan(a, done, line).1)
  {
    if a == [] {
      assert a + b == b;
    } else {
      assert (a + b)[1..] == a[1..] + b;
      if a[0] == '\n' {
        ScanAppended(a[1..], b, done + [line], []);
      } else {
        ScanAppended(a[1..], b, done, line + [a[0]]);
      }
    }
  }

  lemma {:induction false} ScanKeepsDone(text: string, done: seq<string>, line: string)
    ensures Scan(text, done, line) == (done + Scan(text, [], line).0, Scan(text, [], line).1)
  {
    if text == [] {
      assert done + [] == done;
    } else if text[0] == '\n' {
      ScanKeepsDone(text[1..], done + [line], []);
      ScanKeepsDone(text[1..], [line], []);
      assert [] + [line] == [line];
      var more := Scan(text[1..], [], []).0;
      assert (done + [line]) + more == done + ([line] + more);
    } else {
      ScanKeepsDone(text[1..], done, line + [text[0]]);
    }
  }

  /** The lines are the pieces that `split` makes at line breaks. */
  lemma {:induction false} LinesAreThePieces(text: string, line: string)
    ensures var r := Scan(text, [], line);
            r.0 + [r.1] == [line + Split(text, '\n')[0]] + Split(text, '\n')[1..]
  {
    if text == [] {
      assert line + [] == line;
    } else if text[0] == '\n' {
      LinesAreThePieces(text[1..], []);
      ScanKeepsDone(text[1..], [line], []);
      assert [] + [line] == [line] && line + [] == line;
      assert [] + Split(text[1..], '\n')[0] == Split(text[1..], '\n')[0];
      var r := Scan(text[1..], [], []);
      assert ([line] + r.0) + [r.1] == [line] + (r.0 + [r.1]);
    } else {
      LinesAreThePieces(text[1..], line + [text[0]]);
      var first := Split(text[1..], '\n')[0];
      assert (line + [text[0]]) + first == line + ([text[0]] + first);
    }
  }

  /** Text without a break only extends the unfinished line. */
  lemma {:induction false} ScanUnbroken(text: string, line: string)
    requires '\n' !in text
    ensures Scan(text, [], line) == ([], line + text)
  {
    if text == [] {
      assert line + text == line;
    } else {
      assert text[0] in text && '\n' !in text[1..];
      ScanUnbroken(text[1..], line + [text[0]]);
      assert (line + [text[0]]) + text[1..] == line + text;
    }
  }

  lemma {:induction false} RestHasNoBreak(text: string, done: seq<string>, line: string)
    requires '\n' !in line
    ensures '\n' !in Scan(text, done, line).1
  {
    if text != [] {
      if text[0] == '\n' {
        RestHasNoBreak(text[1..], done + [line], []);
      } else {
        RestHasNoBreak(text[1..], done, line + [text[0]]);
      }
    }
  }

  lemma LinesOfAppended(a: string, b: string)
    ensures var first := Lines(a);
            var second := Lines(first.1 + b);
            Lines(a + b) == (first.0 + second.0, second.1)
  {
    var (lines, tail) := Lines(a);
    RestHasNoBreak(a, [], []);
    ScanUnbroken(tail, []);
    assert [] + tail == tail;
    ScanAppended(a, b, [], []);
    ScanAppended(tail, b, [], []);
    ScanKeepsDone(b, lines, tail);
  }

  /** Two chunks framed one after the other give what one framing of both gives. */
  lemma TwoChunksAreOne(rest: string, a: string, b: string, parse: Parser)
    ensures var first := SplitSpec(rest, a, parse);
            var second := SplitSpec(first.rest, b, parse);
            SplitSpec(rest, a + b, parse) ==
            JsonlSplit(first.frames + second.frames, second.rest, first.dropped + second.dropped)
  {
    var lines := Lines(rest + a);
    var more := Lines(lines.1 + b);
    LinesOfAppended(rest + a, b);
    assert rest + (a + b) == (rest + a) + b;
    FramesConcat(lines.0, more.0, parse);
    DropsConcat(lines.0, more.0, parse);
  }

  /** The first n chunks framed one by one, from an empty rest. */
  function FrameAll(chunks: seq<string>, parse: Parser, n: nat): JsonlSplit
    requires n <= |chunks|
  {
    if n == 0 then JsonlSplit([], [], [])
    else
      var before := FrameAll(chunks, parse, n - 1);
      var last := SplitSpec(before.rest, chunks[n - 1], parse);
      JsonlSplit(before.frames + last.frames, last.rest, before.dropped + last.dropped)
  }

  lemma NothingFramed(parse: Parser)
    ensures SplitSpec([], [], parse) == JsonlSplit([], [], [])
  {
  }

  /** The frames, the dropped lines and the unfinished rest depend on the text alone. */
  lemma {:induction false} ChunkInvariance(chunks: seq<string>, parse: Parser, n: nat)
    requires n <= |chunks|
    ensures FrameAll(chunks, parse, n) == SplitSpec([], FirstChunks(chunks, n), parse)
  {
    if n == 0 {
      NothingFramed(parse);
    } else {
      ChunkInvariance(chunks, parse, n - 1);
      TwoChunksAreOne([], FirstChunks(chunks, n - 1), chunks[n - 1], parse);
    }
  }

  /** What one complete line gives: nothing when it is blank, its value when it parses, else at most its
      first 200 characters as dropped. With `TwoChunksAreOne` this is what any text gives. */
  lemma LineIsFramed(line: string, parse: Parser)
    requires '\n' !in line
    ensures SplitSpec([], line + ['\n'], parse) ==
            if forall c :: c in line ==> IsSpace(c) then JsonlSplit([], [], [])
            else if parse(line).Some? then JsonlSplit([parse(line).value], [], [])
            else if |line| <= 200 then JsonlSplit([], [], [line])
            else JsonlSplit([], [], [line[..200] + "\U{2026}"])
  {
    BlankExactly(line);
    ScanUnbroken(line, []);
    ScanAppended(line, ['\n'], [], []);
    assert [] + line == line && [] + (line + ['\n']) == line + ['\n'];
    assert Scan(['\n'], [], line) == Scan([], [line], []) by {
      assert ['\n'][1..] == [] && [] + [line] == [line];
    }
    OneMoreFrame([], line, parse);
    OneMoreDrop([], line, parse);
    assert [] + [line] == [line];
  }
}
