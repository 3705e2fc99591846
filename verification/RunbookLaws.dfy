/** How the printed text of a runbook is parsed. */
module RunbookLaws {
  import opened Basics
  import opened Text
  import opened Runbooks

  // ---- The lines of a printed text ----

  function SplitAll(texts: seq<string>): seq<string> {
    if texts == [] then [] else Split(texts[0], '\n') + SplitAll(texts[1..])
  }

  lemma {:induction false} SplitAllConcat(a: seq<string>, b: seq<string>)
    ensures SplitAll(a + b) == SplitAll(a) + SplitAll(b)
  {
    if a == [] {
      assert a + b == b;
    } else {
      assert (a + b)[1..] == a[1..] + b;
      SplitAllConcat(a[1..], b);
    }
  }

  lemma {:induction false} SplitOfJoin(texts: seq<string>)
    requires texts != []
    ensures Split(Join(texts, '\n'), '\n') == SplitAll(texts)
  {
    if |texts| == 1 {
      assert SplitAll(texts) == Split(texts[0], '\n') + SplitAll([]);
    } else {
      SplitOfJoin(texts[1..]);
      SplitAround(texts[0], Join(texts[1..], '\n'), '\n');
    }
  }

  function BlockLines(s: Step): seq<string> {
    SplitAll(StepTexts(s))
  }

  function RenderLines(steps: seq<Step>): seq<string> {
    if steps == [] then [""]
    else if |steps| == 1 then BlockLines(steps[0])
    else BlockLines(steps[0]) + [""] + RenderLines(steps[1..])
  }

  lemma {:induction false} LinesOfRender(steps: seq<Step>)
    ensures Split(Render(steps), '\n') == RenderLines(steps)
  {
    if steps != [] {
      SplitOfJoin(StepTexts(steps[0]));
      if |steps| > 1 {
        LinesOfRender(steps[1..]);
        var rest := Render(steps[1..]);
        SplitAround("", rest, '\n');
        assert "" + ['\n'] + rest == "\n" + rest;
        SplitAround(Block(steps[0]), "\n" + rest, '\n');
        assert Render(steps) == Block(steps[0]) + ['\n'] + ("\n" + rest);
        assert Split("", '\n') == [""];
        assert BlockLines(steps[0]) + ([""] + RenderLines(steps[1..])) == RenderLines(steps);
      }
    }
  }

  // ---- Tidy lines, character by character ----

  ghost predicate TidyAt(t: string, i: int)
    requires 0 <= i < |t|
  {
    IsSpace(t[i]) && t[i] != '\n' ==> i + 1 < |t| && t[i + 1] != '\n'
  }

  /** The first line is tidy at its first character or has no more than that. */
  lemma TidyFirst(t: string)
    requires t != []
    ensures TidyLines(t) <==> TidyLines(t[1..]) && TidyAt(t, 0)
  {
    var rest := Split(t[1..], '\n');
    assert rest[0] in rest && forall l :: l in rest <==> l == rest[0] || l in rest[1..] by {
      assert rest == [rest[0]] + rest[1..];
    }
    if t[0] == '\n' {
      assert Split(t, '\n') == [[]] + rest;
    } else {
      var first := [t[0]] + rest[0];
      assert Split(t, '\n') == [first] + rest[1..];
      assert NoTrailingBlank(first) <==> NoTrailingBlank(rest[0]) && TidyAt(t, 0) by {
        if rest[0] != [] {
          assert first[|first| - 1] == rest[0][|rest[0]| - 1];
        }
      }
    }
  }

  lemma {:induction false} TidyLinesAreTidyChars(t: string)
    ensures TidyLines(t) <==> forall i :: 0 <= i < |t| ==> TidyAt(t, i)
  {
    if t != [] {
      TidyLinesAreTidyChars(t[1..]);
      assert forall i :: 1 <= i < |t| ==> (TidyAt(t, i) <==> TidyAt(t[1..], i - 1));
      TidyFirst(t);
      if forall i :: 0 <= i < |t| ==> TidyAt(t, i) {
        forall i | 0 <= i < |t[1..]|
          ensures TidyAt(t[1..], i)
        {
          assert TidyAt(t, i + 1);
        }
      }
    } else {
      assert Split(t, '\n') == [""];
    }
  }

  // ---- What the parser yields is parsable ----

  ghost predicate DraftFits(d: Draft) {
    && GoodTitle(d.title)
    && (forall l :: l in d.cmd ==> NoTrailingBlank(l) && '\n' !in l)
    && (forall l :: l in d.note ==> NoTrailingBlank(l) && '\n' !in l)
    && (d.note != [] ==> Trim(d.note[0]) != "")
  }

  lemma TrimIsSlice(s: string) returns (a: nat, b: nat)
    ensures a <= b <= |s| && Trim(s) == s[a..b]
  {
    var t := TrimStart(s);
    TrimStartIsSuffix(s);
    a := |s| - |t|;
    b := a + |TrimEnd(t)|;
    assert TrimEnd(t) == t[..|TrimEnd(t)|];
    assert s[a..][..|TrimEnd(t)|] == s[a..b];
  }

  lemma {:induction false} EndKeepsInk(s: string)
    ensures (forall c :: c in s ==> IsSpace(c)) <==> TrimEnd(s) == ""
  {
    if s != [] && IsSpace(s[|s| - 1]) {
      EndKeepsInk(s[..|s| - 1]);
      assert s == s[..|s| - 1] + [s[|s| - 1]];
    } else if s != [] {
      assert s[|s| - 1] in s;
    }
  }

  lemma {:induction false} TrimKeepsInk(s: string)
    ensures Trim(s) == "" <==> forall c :: c in s ==> IsSpace(c)
  {
    StartKeepsInk(s);
    EndKeepsInk(TrimStart(s));
  }

  lemma {:induction false} StartKeepsInk(s: string)
    ensures (forall c :: c in s ==> IsSpace(c)) <==> TrimStart(s) == ""
    ensures (forall c :: c in TrimStart(s) ==> IsSpace(c)) <==> TrimStart(s) == ""
  {
    if s != [] && IsSpace(s[0]) {
      StartKeepsInk(s[1..]);
      assert s == [s[0]] + s[1..];
    } else if s != [] {
      assert s[0] in s;
    }
  }

  lemma DangerFits(d: Draft, line: string)
    requires DraftFits(d) && "!!" <= line && '\n' !in line
    ensures DraftFits(Extend(d, line))
  {
    var rest := Trim(line[2..]);
    var a, b := TrimIsSlice(line[2..]);
    TrimmedIsFixed(rest);
    assert NoTrailingBlank(rest) && '\n' !in rest;
  }

  lemma ExtendFits(d: Draft, line: string)
    requires DraftFits(d) && NoTrailingBlank(line) && '\n' !in line
    ensures DraftFits(Extend(d, line))
  {
    if "!!" <= line {
      DangerFits(d, line);
    } else if "$ " <= line {
      var rest := line[2..];
      assert rest == "" || rest[|rest| - 1] == line[|line| - 1];
      assert NoTrailingBlank(rest) && '\n' !in rest;
    }
  }

  lemma DefaultTitleIsGood(n: nat)
    ensures GoodTitle(DefaultTitle(n))
  {
    var digits := Decimal(n);
    var title := DefaultTitle(n);
    assert title[0] == 'B' && title[|title| - 1] == digits[|digits| - 1];
    assert digits[|digits| - 1] in digits;
  }

  ghost predicate StateFits(st: ParseState) {
    && (forall s :: s in st.steps ==> Parsable(s))
    && (st.cur.Some? ==> DraftFits(st.cur.value))
  }

  lemma {:induction false} JoinIsTidy(lines: seq<string>)
    requires lines != [] && forall l :: l in lines ==> NoTrailingBlank(l) && '\n' !in l
    ensures TidyLines(Join(lines, '\n'))
  {
    SplitJoin(lines, '\n');
  }

  lemma SliceIsTidy(text: string, a: nat, b: nat)
    requires a <= b <= |text| && forall i :: 0 <= i < |text| ==> TidyAt(text, i)
    requires a < b ==> !IsSpace(text[b - 1])
    ensures forall i :: 0 <= i < b - a ==> TidyAt(text[a..b], i)
  {
    var t := text[a..b];
    forall i | 0 <= i < b - a
      ensures TidyAt(t, i)
    {
      assert TidyAt(text, a + i);
      assert t[i] == text[a + i];
      if i + 1 < |t| {
        assert t[i + 1] == text[a + i + 1];
      }
    }
  }

  lemma TrimmedJoinIsTidy(text: string)
    requires TidyLines(text)
    ensures TidyLines(Trim(text))
  {
    TidyLinesAreTidyChars(text);
    var a, b := TrimIsSlice(text);
    SliceIsTidy(text, a, b);
    TidyLinesAreTidyChars(Trim(text));
  }

  lemma JoinHasInk(lines: seq<string>)
    requires lines != [] && Trim(lines[0]) != ""
    ensures Trim(Join(lines, '\n')) != ""
  {
    var text := Join(lines, '\n');
    TrimKeepsInk(lines[0]);
    TrimKeepsInk(text);
    assert lines[0] <= text;
    assert forall c :: c in lines[0] ==> c in text;
  }

  lemma NoteIsParsable(note: seq<string>)
    requires note != [] && Trim(note[0]) != "" && forall l :: l in note ==> NoTrailingBlank(l) && '\n' !in l
    ensures var text := Trim(Join(note, '\n')); text != "" && Trimmed(text) && TidyLines(text)
  {
    var text := Join(note, '\n');
    JoinIsTidy(note);
    TrimmedJoinIsTidy(text);
    JoinHasInk(note);
  }

  lemma FinishedIsParsable(d: Draft)
    requires DraftFits(d)
    ensures Parsable(Finished(d))
  {
    if d.cmd != [] {
      JoinIsTidy(d.cmd);
    }
    if d.note != [] {
      NoteIsParsable(d.note);
    }
  }

  lemma FlushFits(st: ParseState)
    requires StateFits(st)
    ensures forall s :: s in Flush(st) ==> Parsable(s)
  {
    if st.cur.Some? {
      FinishedIsParsable(st.cur.value);
    }
  }

  lemma OnLineFits(st: ParseState, raw: string)
    requires StateFits(st) && '\n' !in raw
    ensures StateFits(OnLine(st, raw))
  {
    var line := TrimEnd(raw);
    FlushFits(st);
    if Heading(line).Some? {
      DefaultTitleIsGood(|Flush(st)| + 1);
    } else if st.cur.Some? {
      ExtendFits(st.cur.value, line);
    }
  }

  lemma {:induction false} OnLinesFits(st: ParseState, lines: seq<string>)
    requires StateFits(st) && forall l :: l in lines ==> '\n' !in l
    ensures StateFits(OnLines(st, lines))
    decreases |lines|
  {
    if lines != [] {
      assert lines[0] in lines && forall l :: l in lines[1..] ==> l in lines;
      OnLineFits(st, lines[0]);
      OnLinesFits(OnLine(st, lines[0]), lines[1..]);
    }
  }

  /** Every step of a parsed text is tidy: it has a one-line title and no trailing blanks. */
  lemma ParsedStepsAreParsable(text: string)
    ensures forall s :: s in Parse(text) ==> Parsable(s)
  {
    SplitPiecesAreWhole(text, '\n');
    OnLinesFits(START, Split(text, '\n'));
    FlushFits(OnLines(START, Split(text, '\n')));
  }

  // ---- One printed block, read back ----

  function ExtendAll(d: Draft, lines: seq<string>): Draft
    decreases |lines|
  {
    if lines == [] then d else ExtendAll(Extend(d, TrimEnd(lines[0])), lines[1..])
  }

  predicate HasHeading(lines: seq<string>) {
    exists l :: l in lines && Heading(TrimEnd(l)).Some?
  }

  /** Lines without a heading only extend the step being read. */
  lemma {:induction false} OnOrdinaryLines(done: seq<Step>, d: Draft, lines: seq<string>)
    requires !HasHeading(lines)
    ensures OnLines(ParseState(done, Some(d)), lines) == ParseState(done, Some(ExtendAll(d, lines)))
    decreases |lines|
  {
    if lines != [] {
      assert lines[0] in lines && forall l :: l in lines[1..] ==> l in lines;
      OnOrdinaryLines(done, Extend(d, TrimEnd(lines[0])), lines[1..]);
    }
  }

  lemma {:induction false} ExtendConcat(d: Draft, a: seq<string>, b: seq<string>)
    ensures ExtendAll(d, a + b) == ExtendAll(ExtendAll(d, a), b)
    decreases |a|
  {
    if a == [] {
      assert a + b == b;
    } else {
      assert (a + b)[1..] == a[1..] + b;
      ExtendConcat(Extend(d, TrimEnd(a[0])), a[1..], b);
    }
  }

  /** The lines of a step after its title. */
  function BodyTexts(s: Step): seq<string> {
    (if s.danger then ["!!"] else [])
    + (if Given(s.command) then CommandLines(Split(s.command.value, '\n')) else [])
  }

  function NoteLines(s: Step): seq<string> {
    if Given(s.note) then Split(s.note.value, '\n') else []
  }

  lemma {:induction false} SplitAllWhole(texts: seq<string>)
    requires forall t :: t in texts ==> '\n' !in t
    ensures SplitAll(texts) == texts
  {
    if texts != [] {
      assert texts[0] in texts && forall t :: t in texts[1..] ==> t in texts;
      SplitWhole(texts[0], '\n');
      SplitAllWhole(texts[1..]);
      assert [texts[0]] + texts[1..] == texts;
    }
  }

  lemma {:induction false} CommandLinesAreOrdinary(lines: seq<string>)
    requires forall l :: l in lines ==> '\n' !in l
    ensures forall t :: t in CommandLines(lines) ==> '\n' !in t && t != [] && t[0] == '$'
  {
    if lines != [] {
      assert lines[0] in lines && forall l :: l in lines[1..] ==> l in lines;
      CommandLinesAreOrdinary(lines[1..]);
      var first := if lines[0] == "" then "$" else "$ " + lines[0];
      assert '\n' !in first && first[0] == '$';
      assert CommandLines(lines) == [first] + CommandLines(lines[1..]);
    }
  }

  lemma BodyTextsAreOrdinary(s: Step)
    ensures forall t :: t in BodyTexts(s) ==> '\n' !in t && t != [] && t[0] != '#'
  {
    assert "!!"[0] == '!';
    if Given(s.command) {
      var lines := Split(s.command.value, '\n');
      SplitPiecesAreWhole(s.command.value, '\n');
      CommandLinesAreOrdinary(lines);
      assert forall t :: t in BodyTexts(s) ==> t == "!!" || t in CommandLines(lines);
    }
  }

  lemma NoteTextLines(s: Step)
    ensures SplitAll(if Given(s.note) then [s.note.value] else []) == NoteLines(s)
  {
    if Given(s.note) {
      var note := [s.note.value];
      assert note[1..] == [] && SplitAll(note) == Split(note[0], '\n') + [];
    }
  }

  lemma SplitAllThree(a: seq<string>, b: seq<string>, c: seq<string>)
    ensures SplitAll(a + (b + c)) == SplitAll(a) + (SplitAll(b) + SplitAll(c))
  {
    SplitAllConcat(a, b + c);
    SplitAllConcat(b, c);
  }

  lemma TextsOfStep(s: Step)
    ensures StepTexts(s) == ["## " + s.title] +
                            (BodyTexts(s) + if Given(s.note) then [s.note.value] else [])
  {
  }

  lemma BlockLinesAre(s: Step)
    requires GoodTitle(s.title)
    ensures BlockLines(s) == ["## " + s.title] + (BodyTexts(s) + NoteLines(s))
  {
    var note := if Given(s.note) then [s.note.value] else [];
    var title := ["## " + s.title];
    TextsOfStep(s);
    SplitAllThree(title, BodyTexts(s), note);
    BodyTextsAreOrdinary(s);
    SplitAllWhole(BodyTexts(s));
    assert forall t :: t in title ==> '\n' !in t;
    SplitAllWhole(title);
    NoteTextLines(s);
  }

  lemma TitleLineReads(title: string)
    requires GoodTitle(title)
    ensures TrimEnd("## " + title) == "## " + title
    ensures Heading("## " + title) == Some(title) && Trim(title) == title
  {
    var line := "## " + title;
    assert line[|line| - 1] == title[|title| - 1];
    assert line[2..] == " " + title && (" " + title)[1..] == title;
    TrimmedIsFixed(title);
  }

  function TitleDraft(s: Step): Draft {
    Draft(s.title, [], [], false)
  }

  lemma BodyHasNoHeading(s: Step)
    ensures !HasHeading(BodyTexts(s))
    ensures !HasHeading(NoteLines(s)) ==> !HasHeading(BodyTexts(s) + NoteLines(s))
  {
    BodyTextsAreOrdinary(s);
  }

  /** The step a printed block is read as. */
  function ReadBlock(s: Step): Step {
    Finished(ExtendAll(TitleDraft(s), BodyTexts(s) + NoteLines(s)))
  }

  lemma OnBlock(st: ParseState, s: Step)
    requires GoodTitle(s.title) && !HasHeading(NoteLines(s))
    ensures OnLines(st, BlockLines(s)) ==
            ParseState(Flush(st), Some(ExtendAll(TitleDraft(s), BodyTexts(s) + NoteLines(s))))
  {
    BlockLinesAre(s);
    TitleLineReads(s.title);
    var lines := BodyTexts(s) + NoteLines(s);
    assert (["## " + s.title] + lines)[1..] == lines;
    BodyHasNoHeading(s);
    OnOrdinaryLines(Flush(st), TitleDraft(s), lines);
  }

  lemma {:induction false} JoinSnoc(lines: seq<string>, last: string)
    requires lines != []
    ensures Join(lines + [last], '\n') == Join(lines, '\n') + ['\n'] + last
  {
    if |lines| == 1 {
      assert lines + [last] == [lines[0], last] && [lines[0], last][1..] == [last];
    } else {
      assert (lines + [last])[1..] == lines[1..] + [last];
      JoinSnoc(lines[1..], last);
    }
  }

  lemma {:induction false} TrimStartAppend(s: string, c: char)
    requires IsSpace(c)
    ensures TrimEnd(TrimStart(s + [c])) == TrimEnd(TrimStart(s))
  {
    if s == [] {
      assert s + [c] == [c] && [c][1..] == [];
    } else if IsSpace(s[0]) {
      assert (s + [c])[1..] == s[1..] + [c];
      TrimStartAppend(s[1..], c);
    } else {
      assert (s + [c])[..|s|] == s;
    }
  }

  /** The empty line between two blocks leaves the step before it as it is. */
  lemma BlankLineChangesNothing(d: Draft)
    ensures Finished(Extend(d, "")) == Finished(d)
  {
    if d.note != [] {
      JoinSnoc(d.note, "");
      var text := Join(d.note, '\n');
      assert text + ['\n'] + "" == text + ['\n'];
      TrimStartAppend(text, '\n');
    }
  }

  function ReadBlocks(steps: seq<Step>): seq<Step> {
    seq(|steps|, i requires 0 <= i < |steps| => ReadBlock(steps[i]))
  }

  lemma OnBlockAndBlank(st: ParseState, s: Step)
    requires GoodTitle(s.title) && !HasHeading(NoteLines(s))
    ensures Flush(OnLines(st, BlockLines(s))) == Flush(st) + [ReadBlock(s)]
    ensures Flush(OnLine(OnLines(st, BlockLines(s)), "")) == Flush(st) + [ReadBlock(s)]
  {
    OnBlock(st, s);
    BlankLineChangesNothing(OnLines(st, BlockLines(s)).cur.value);
  }

  lemma OneThenRest(before: seq<Step>, read: seq<Step>)
    requires read != []
    ensures before + [read[0]] + read[1..] == before + read
    ensures |read| == 1 ==> before + [read[0]] == before + read
  {
  }

  lemma RenderedInTwo(st: ParseState, steps: seq<Step>)
    requires |steps| > 1
    ensures OnLines(st, RenderLines(steps)) ==
            OnLines(OnLine(OnLines(st, BlockLines(steps[0])), ""), RenderLines(steps[1..]))
  {
    var later := [""] + RenderLines(steps[1..]);
    OnLinesConcat(st, BlockLines(steps[0]), later);
    assert BlockLines(steps[0]) + later == RenderLines(steps);
    assert later[1..] == RenderLines(steps[1..]);
  }

  /** `before` are the steps finished when the text starts, `read` what its blocks are read as. */
  lemma {:induction false} OnRenderedLines(st: ParseState, steps: seq<Step>, before: seq<Step>, read: seq<Step>)
    requires steps != [] && |read| == |steps| && Flush(st) == before
    requires forall i :: 0 <= i < |steps| ==> GoodTitle(steps[i].title) && !HasHeading(NoteLines(steps[i]))
    requires forall i :: 0 <= i < |steps| ==> read[i] == ReadBlock(steps[i])
    ensures Flush(OnLines(st, RenderLines(steps))) == before + read
    decreases |steps|
  {
    OnBlockAndBlank(st, steps[0]);
    OneThenRest(before, read);
    if |steps| > 1 {
      RenderedInTwo(st, steps);
      var next := OnLine(OnLines(st, BlockLines(steps[0])), "");
      OnRenderedLines(next, steps[1..], before + [read[0]], read[1..]);
    } else {
      assert RenderLines(steps) == BlockLines(steps[0]);
    }
  }

  /** A printed list whose notes hold no heading is read back block by block. */
  lemma RenderedReadsBlockwise(steps: seq<Step>)
    requires forall s :: s in steps ==> GoodTitle(s.title) && !HasHeading(NoteLines(s))
    ensures Parse(Render(steps)) == ReadBlocks(steps)
  {
    LinesOfRender(steps);
    if steps == [] {
      assert OnLines(START, [""]) == OnLines(OnLine(START, ""), [""][1..]);
    } else {
      OnRenderedLines(START, steps, [], ReadBlocks(steps));
      assert [] + ReadBlocks(steps) == ReadBlocks(steps);
    }
  }
}
