/** A printed list of steps is read back exactly when every step is well formed. */
module RunbookRoundTrip {
  import opened Basics
  import opened Text
  import opened Runbooks
  import opened RunbookLaws

  // ---- A well-formed step is read back ----

  lemma CommandLineReads(d: Draft, line: string)
    requires NoTrailingBlank(line)
    ensures Extend(d, TrimEnd(if line == "" then "$" else "$ " + line)) == d.(cmd := d.cmd + [line])
  {
    var text := if line == "" then "$" else "$ " + line;
    assert text[|text| - 1] == if line == "" then '$' else line[|line| - 1];
    assert text[0] == '$' && "!!"[0] == '!';
    if line != "" {
      assert text[2..] == line;
    }
  }

  lemma ExtendFirst(d: Draft, line: string, rest: seq<string>)
    ensures ExtendAll(d, [line] + rest) == ExtendAll(Extend(d, TrimEnd(line)), rest)
  {
    assert ([line] + rest)[1..] == rest;
  }

  lemma OneMoreCommand(d: Draft, line: string, rest: seq<string>)
    requires NoTrailingBlank(line)
    ensures ExtendAll(d, CommandLines([line] + rest)) ==
            ExtendAll(d.(cmd := d.cmd + [line]), CommandLines(rest))
  {
    var first := if line == "" then "$" else "$ " + line;
    CommandLineReads(d, line);
    ExtendFirst(d, first, CommandLines(rest));
    assert ([line] + rest)[1..] == rest;
  }

  lemma {:induction false} CommandLinesRead(d: Draft, lines: seq<string>)
    requires forall l :: l in lines ==> NoTrailingBlank(l)
    ensures ExtendAll(d, CommandLines(lines)) == d.(cmd := d.cmd + lines)
    decreases |lines|
  {
    if lines == [] {
      assert d.cmd + lines == d.cmd;
    } else {
      var line, rest := lines[0], lines[1..];
      assert lines == [line] + rest;
      var next := d.(cmd := d.cmd + [line]);
      calc {
        ExtendAll(d, CommandLines(lines));
        { OneMoreCommand(d, line, rest); }
        ExtendAll(next, CommandLines(rest));
        { CommandLinesRead(next, rest); }
        next.(cmd := next.cmd + rest);
        { assert d.cmd + [line] + rest == d.cmd + lines; }
        d.(cmd := d.cmd + lines);
      }
    }
  }

  lemma PlainLineReads(d: Draft, line: string)
    requires NoTrailingBlank(line) && !SpecialLine(line) && (d.note != [] || Trim(line) != "")
    ensures Extend(d, TrimEnd(line)) == d.(note := d.note + [line])
  {
  }

  lemma {:induction false} PlainLinesRead(d: Draft, lines: seq<string>)
    requires forall l :: l in lines ==> NoTrailingBlank(l) && !SpecialLine(l)
    requires d.note != [] || lines == [] || Trim(lines[0]) != ""
    ensures ExtendAll(d, lines) == d.(note := d.note + lines)
    decreases |lines|
  {
    if lines == [] {
      assert d.note + lines == d.note;
    } else {
      var line, rest := lines[0], lines[1..];
      assert lines == [line] + rest;
      var next := d.(note := d.note + [line]);
      calc {
        ExtendAll(d, lines);
        { ExtendFirst(d, line, rest); PlainLineReads(d, line); }
        ExtendAll(next, rest);
        { PlainLinesRead(next, rest); }
        next.(note := next.note + rest);
        { assert d.note + [line] + rest == d.note + lines; }
        d.(note := d.note + lines);
      }
    }
  }

  lemma FirstNoteLineHasInk(note: string)
    requires note != "" && Trimmed(note)
    ensures Trim(Split(note, '\n')[0]) != ""
  {
    var first := Split(note, '\n')[0];
    assert first[0] == note[0];
    TrimKeepsInk(first);
  }

  function CommandOf(s: Step): seq<string> {
    if Given(s.command) then Split(s.command.value, '\n') else []
  }

  lemma BodyReads(s: Step)
    requires s.command.Some? ==> TidyLines(s.command.value)
    ensures ExtendAll(TitleDraft(s), BodyTexts(s)) == Draft(s.title, CommandOf(s), [], s.danger)
  {
    var d := TitleDraft(s);
    var mark := if s.danger then ["!!"] else [];
    ExtendConcat(d, mark, CommandLines(CommandOf(s)));
    var marked := d.(danger := s.danger);
    assert ExtendAll(d, mark) == marked by {
      if s.danger {
        assert mark[1..] == [];
      }
    }
    CommandLinesRead(marked, CommandOf(s));
    assert [] + CommandOf(s) == CommandOf(s);
    assert BodyTexts(s) == mark + CommandLines(CommandOf(s));
  }

  lemma BlockReads(s: Step)
    requires s.command.Some? ==> TidyLines(s.command.value)
    ensures ReadBlock(s) == Finished(ExtendAll(Draft(s.title, CommandOf(s), [], s.danger), NoteLines(s)))
  {
    BodyReads(s);
    ExtendConcat(TitleDraft(s), BodyTexts(s), NoteLines(s));
  }

  lemma PlainNoteReads(s: Step, d: Draft)
    requires WellFormed(s) && d.note == []
    ensures ExtendAll(d, NoteLines(s)) == d.(note := NoteLines(s))
  {
    if s.note.Some? {
      FirstNoteLineHasInk(s.note.value);
    }
    PlainLinesRead(d, NoteLines(s));
    assert [] + NoteLines(s) == NoteLines(s);
  }

  lemma WellFormedReadsBack(s: Step)
    requires WellFormed(s)
    ensures ReadBlock(s) == s
  {
    BlockReads(s);
    PlainNoteReads(s, Draft(s.title, CommandOf(s), [], s.danger));
    if s.note.Some? {
      JoinSplit(s.note.value, '\n');
      TrimmedIsFixed(s.note.value);
    }
    if s.command.Some? {
      JoinSplit(s.command.value, '\n');
    }
  }

  // ---- What is read back is well formed ----

  function Size(lines: seq<string>): nat {
    if lines == [] then 0 else |lines[0]| + 1 + Size(lines[1..])
  }

  lemma {:induction false} SizeSnoc(lines: seq<string>, last: string)
    ensures Size(lines + [last]) == Size(lines) + |last| + 1
  {
    if lines == [] {
      assert [] + [last] == [last] && [last][1..] == [];
    } else {
      assert (lines + [last])[1..] == lines[1..] + [last];
      SizeSnoc(lines[1..], last);
    }
  }

  lemma {:induction false} SizeOfJoin(lines: seq<string>)
    requires lines != []
    ensures |Join(lines, '\n')| + 1 == Size(lines)
  {
    if |lines| == 1 {
      assert lines[1..] == [];
    } else {
      SizeOfJoin(lines[1..]);
    }
  }

  /** A line adds no more to the note than itself, and less if it means something else. */
  lemma LineAddsItselfAtMost(d: Draft, line: string)
    ensures Size(Extend(d, line).note) <= Size(d.note) + |line| + 1
    ensures "!!" <= line || "$ " <= line || line == "$" ==>
              Size(Extend(d, line).note) < Size(d.note) + |line| + 1
  {
    if "!!" <= line {
      var rest := Trim(line[2..]);
      SizeSnoc(d.note, rest);
    } else {
      SizeSnoc(d.note, line);
    }
  }

  predicate Marked(line: string) {
    "!!" <= line || "$ " <= line || line == "$"
  }

  lemma {:induction false} MarkedLinesShortenTheNote(d: Draft, lines: seq<string>)
    requires forall l :: l in lines ==> NoTrailingBlank(l)
    ensures Size(ExtendAll(d, lines).note) <= Size(d.note) + Size(lines)
    ensures Size(ExtendAll(d, lines).note) == Size(d.note) + Size(lines) ==> forall l :: l in lines ==> !Marked(l)
    decreases |lines|
  {
    if lines != [] {
      assert lines[0] in lines && forall l :: l in lines[1..] ==> l in lines;
      LineAddsItselfAtMost(d, lines[0]);
      MarkedLinesShortenTheNote(Extend(d, lines[0]), lines[1..]);
      assert forall l :: l in lines ==> l == lines[0] || l in lines[1..];
    }
  }

  lemma ReadBackNoteIsPlain(s: Step)
    requires Parsable(s) && s.note.Some? && !HasHeading(NoteLines(s))
    ensures ReadBlock(s).note == s.note ==> PlainNote(s.note.value)
  {
    BlockReads(s);
    var d := Draft(s.title, CommandOf(s), [], s.danger);
    var lines := NoteLines(s);
    var read := ExtendAll(d, lines).note;
    JoinSplit(s.note.value, '\n');
    SizeOfJoin(lines);
    MarkedLinesShortenTheNote(d, lines);
    if read != [] && Size(read) == Size(lines) {
      forall l | l in lines
        ensures !SpecialLine(l)
      {
        assert !Marked(l);
      }
    } else if read != [] {
      SizeOfJoin(read);
    }
  }

  lemma ReadBackIsWellFormed(s: Step)
    requires Parsable(s) && !HasHeading(NoteLines(s)) && ReadBlock(s) == s
    ensures WellFormed(s)
  {
    BlockReads(s);
    if s.note.Some? {
      ReadBackNoteIsPlain(s);
      FirstNoteLineHasInk(s.note.value);
    }
    var d := Draft(s.title, CommandOf(s), [], s.danger);
    PlainLinesRead(d, NoteLines(s));
    assert s.command.Some? <==> CommandOf(s) != [];
  }

  // ---- A heading inside a note makes one step too many ----

  function HeadingCount(lines: seq<string>): nat {
    if lines == [] then 0
    else (if Heading(TrimEnd(lines[0])).Some? then 1 else 0) + HeadingCount(lines[1..])
  }

  lemma {:induction false} HeadingCountConcat(a: seq<string>, b: seq<string>)
    ensures HeadingCount(a + b) == HeadingCount(a) + HeadingCount(b)
  {
    if a == [] {
      assert a + b == b;
    } else {
      assert (a + b)[1..] == a[1..] + b;
      HeadingCountConcat(a[1..], b);
    }
  }

  lemma {:induction false} HeadingsAreCounted(lines: seq<string>)
    ensures HasHeading(lines) <==> HeadingCount(lines) > 0
  {
    if lines != [] {
      HeadingsAreCounted(lines[1..]);
      assert lines == [lines[0]] + lines[1..];
    }
  }

  lemma {:induction false} OneStepPerHeading(st: ParseState, lines: seq<string>)
    ensures |Flush(OnLines(st, lines))| == |Flush(st)| + HeadingCount(lines)
    decreases |lines|
  {
    if lines != [] {
      OneStepPerHeading(OnLine(st, lines[0]), lines[1..]);
    }
  }

  function NoteHeadings(steps: seq<Step>): nat {
    if steps == [] then 0 else HeadingCount(NoteLines(steps[0])) + NoteHeadings(steps[1..])
  }

  lemma BlockHeadings(s: Step)
    requires GoodTitle(s.title)
    ensures HeadingCount(BlockLines(s)) == 1 + HeadingCount(NoteLines(s))
  {
    BlockLinesAre(s);
    TitleLineReads(s.title);
    var title := ["## " + s.title];
    assert HeadingCount(title) == 1 by {
      assert title[1..] == [];
    }
    HeadingCountConcat(title, BodyTexts(s) + NoteLines(s));
    HeadingCountConcat(BodyTexts(s), NoteLines(s));
    BodyHasNoHeading(s);
    HeadingsAreCounted(BodyTexts(s));
  }

  lemma HeadingsOfTwo(block: seq<string>, rest: seq<string>)
    ensures HeadingCount(block + [""] + rest) == HeadingCount(block) + HeadingCount(rest)
  {
    HeadingCountConcat(block + [""], rest);
    HeadingCountConcat(block, [""]);
    assert HeadingCount([""]) == 0 by {
      assert [""][1..] == [];
    }
  }

  lemma {:induction false} RenderedHeadings(steps: seq<Step>)
    requires forall i :: 0 <= i < |steps| ==> GoodTitle(steps[i].title)
    ensures HeadingCount(RenderLines(steps)) == |steps| + NoteHeadings(steps)
  {
    if |steps| == 1 {
      BlockHeadings(steps[0]);
      assert steps[1..] == [];
    } else if |steps| > 1 {
      BlockHeadings(steps[0]);
      RenderedHeadings(steps[1..]);
      HeadingsOfTwo(BlockLines(steps[0]), RenderLines(steps[1..]));
    }
  }

  lemma {:induction false} NoNoteHeadings(steps: seq<Step>)
    requires NoteHeadings(steps) == 0
    ensures forall s :: s in steps ==> !HasHeading(NoteLines(s))
  {
    if steps != [] {
      HeadingsAreCounted(NoteLines(steps[0]));
      NoNoteHeadings(steps[1..]);
      assert forall s :: s in steps ==> s == steps[0] || s in steps[1..];
    }
  }

  lemma ReadBackHasNoHeadings(steps: seq<Step>)
    requires Parse(Render(steps)) == steps
    requires forall s :: s in steps ==> GoodTitle(s.title)
    ensures forall s :: s in steps ==> !HasHeading(NoteLines(s))
  {
    LinesOfRender(steps);
    RenderedHeadings(steps);
    OneStepPerHeading(START, RenderLines(steps));
    NoNoteHeadings(steps);
  }

  lemma ReadBackStepsAreWellFormed(steps: seq<Step>)
    requires Parse(Render(steps)) == steps
    ensures forall s :: s in steps ==> WellFormed(s)
  {
    ParsedStepsAreParsable(Render(steps));
    ReadBackHasNoHeadings(steps);
    RenderedReadsBlockwise(steps);
    forall s | s in steps
      ensures WellFormed(s)
    {
      var i :| 0 <= i < |steps| && steps[i] == s;
      assert ReadBlocks(steps)[i] == ReadBlock(s);
      ReadBackIsWellFormed(s);
    }
  }

  /** Printing and parsing give back the same steps exactly when every step is well formed. */
  lemma RoundTrip(steps: seq<Step>)
    ensures Parse(Render(steps)) == steps <==> forall s :: s in steps ==> WellFormed(s)
  {
    if forall s :: s in steps ==> WellFormed(s) {
      forall s | s in steps
        ensures !HasHeading(NoteLines(s)) && ReadBlock(s) == s
      {
        WellFormedReadsBack(s);
      }
      RenderedReadsBlockwise(steps);
      assert ReadBlocks(steps) == steps;
    }
    if Parse(Render(steps)) == steps {
      ReadBackStepsAreWellFormed(steps);
    }
  }

  /** For instance, a note that looks like a command is not read back. */
  lemma MarkedNoteIsNotReadBack(title: string, word: string)
    ensures var steps := [Step(title, None, Some("$ " + word), false)];
            Parse(Render(steps)) != steps
  {
    var s := Step(title, None, Some("$ " + word), false);
    var first := Split(s.note.value, '\n')[0];
    FirstLineOfMarked(word);
    assert first in Split(s.note.value, '\n') && SpecialLine(first);
    RoundTrip([s]);
    assert s in [s];
  }

  lemma FirstLineOfMarked(word: string)
    ensures "$ " <= Split("$ " + word, '\n')[0]
  {
    var text := "$ " + word;
    assert text[1..] == " " + word && text[1..][1..] == word;
    assert Split(text, '\n')[0] == "$" + (" " + Split(word, '\n')[0]);
  }
}
