/** What any runbook text means, line by line. */
module RunbookMeaning {
  import opened Basics
  import opened Text
  import opened Runbooks
  import opened RunbookLaws

  // ---- One step ----

  /** `$ text` is a line of the command, `$` alone an empty one. */
  function CommandIn(line: string): seq<string> {
    if "$ " <= line then [line[2..]] else if line == "$" then [""] else []
  }

  predicate MarksDanger(line: string) {
    "!!" <= line
  }

  predicate Dangerous(lines: seq<string>) {
    exists l :: l in lines && MarksDanger(l)
  }

  /** Behind `!!` stands a note, unless it is blank; every other line that is no command is a note. */
  function NoteIn(line: string): seq<string> {
    if MarksDanger(line) then (if Gap(line[2..]) then [] else [Trim(line[2..])])
    else if CommandIn(line) == [] then [line]
    else []
  }

  function CommandsIn(lines: seq<string>): seq<string> {
    if lines == [] then [] else CommandIn(lines[0]) + CommandsIn(lines[1..])
  }

  function NotesIn(lines: seq<string>): seq<string> {
    if lines == [] then [] else NoteIn(lines[0]) + NotesIn(lines[1..])
  }

  /** The command lines of a step, its notes without blanks around them, and whether it is dangerous. */
  ghost function StepMeant(title: string, lines: seq<string>): Step {
    var commands, notes := CommandsIn(lines), NotesIn(lines);
    Step(title,
         if commands == [] then None else Some(Join(commands, '\n')),
         if forall n :: n in notes ==> Gap(n) then None else Some(Trim(Join(notes, '\n'))),
         Dangerous(lines))
  }

  // ---- A whole text ----

  /** `##` begins a step, unless the rest of the line breaks inside. */
  predicate BeginsStep(line: string) {
    "##" <= line && forall c :: c in Trim(line[2..]) ==> !IsLineBreak(c)
  }

  /** A heading without a title is numbered. */
  function TitleMeant(line: string, number: nat): string
    requires "##" <= line
  {
    if Gap(line[2..]) then "B\U{01b0}\U{1edb}c " + Decimal(number) else Trim(line[2..])
  }

  /** The lines before the next heading. */
  function Body(lines: seq<string>): seq<string> {
    if lines == [] || BeginsStep(lines[0]) then [] else [lines[0]] + Body(lines[1..])
  }

  /** Every heading begins a step with the lines up to the next one; what comes before the first is
      ignored. */
  ghost function StepsMeant(lines: seq<string>, before: nat): seq<Step> {
    if lines == [] then []
    else if !BeginsStep(lines[0]) then StepsMeant(lines[1..], before)
    else [StepMeant(TitleMeant(lines[0], before + 1), Body(lines[1..]))] + StepsMeant(lines[1..], before + 1)
  }

  // ---- Reading line by line gives just that ----

  function Ends(lines: seq<string>): seq<string> {
    if lines == [] then [] else [TrimEnd(lines[0])] + Ends(lines[1..])
  }

  function DropBlank(notes: seq<string>): seq<string> {
    if notes != [] && Trim(notes[0]) == "" then DropBlank(notes[1..]) else notes
  }

  function NoteAfter(note: seq<string>, more: seq<string>): seq<string> {
    if note == [] then DropBlank(more) else note + more
  }

  lemma DropOne(note: string)
    ensures DropBlank([note]) == if Trim(note) == "" then [] else [note]
  {
    assert [note][1..] == [] && DropBlank([]) == [];
  }

  lemma DangerLine(d: Draft, line: string)
    requires MarksDanger(line)
    ensures Extend(d, line) == d.(danger := true, note := NoteAfter(d.note, NoteIn(line)))
    ensures CommandIn(line) == []
  {
    var rest := Trim(line[2..]);
    assert line[0] == '!' && d.note + [] == d.note && DropBlank([]) == [];
    BlankExactly(line[2..]);
    TrimmedIsFixed(rest);
    DropOne(rest);
  }

  lemma CommandLine(d: Draft, line: string)
    requires CommandIn(line) != []
    ensures Extend(d, line) == d.(cmd := d.cmd + CommandIn(line))
    ensures NoteIn(line) == [] && !MarksDanger(line)
  {
    assert line[0] == '$';
  }

  lemma NoteLine(d: Draft, line: string)
    requires !MarksDanger(line) && CommandIn(line) == []
    ensures Extend(d, line) == d.(note := NoteAfter(d.note, [line]))
  {
    DropOne(line);
  }

  lemma OneLine(d: Draft, line: string)
    ensures Extend(d, line) == Draft(d.title, d.cmd + CommandIn(line), NoteAfter(d.note, NoteIn(line)),
                                     d.danger || MarksDanger(line))
  {
    assert d.cmd + [] == d.cmd && NoteAfter(d.note, []) == d.note;
    if MarksDanger(line) {
      DangerLine(d, line);
    } else if CommandIn(line) != [] {
      CommandLine(d, line);
    } else {
      NoteLine(d, line);
    }
  }

  lemma NoteGrows(note: seq<string>, a: seq<string>, b: seq<string>)
    requires |a| <= 1
    ensures NoteAfter(NoteAfter(note, a), b) == NoteAfter(note, a + b)
  {
    assert DropBlank([]) == [];
    if a == [] {
      assert a + b == b && note + [] == note;
    } else {
      assert a == [a[0]] && (a + b)[0] == a[0] && (a + b)[1..] == b;
      DropOne(a[0]);
      assert note + (a + b) == note + a + b;
    }
  }

  /** What lines add to a step. */
  function Added(d: Draft, commands: seq<string>, notes: seq<string>, danger: bool): Draft {
    Draft(d.title, d.cmd + commands, NoteAfter(d.note, notes), d.danger || danger)
  }

  lemma AddedTwice(d: Draft, c: seq<string>, n: seq<string>, danger: bool,
                   cs: seq<string>, ns: seq<string>, later: bool)
    requires |n| <= 1
    ensures Added(Added(d, c, n, danger), cs, ns, later) == Added(d, c + cs, n + ns, danger || later)
  {
    NoteGrows(d.note, n, ns);
    assert d.cmd + c + cs == d.cmd + (c + cs);
  }

  lemma FirstLineFirst(line: string, rest: seq<string>)
    ensures CommandsIn([line] + rest) == CommandIn(line) + CommandsIn(rest)
    ensures NotesIn([line] + rest) == NoteIn(line) + NotesIn(rest)
    ensures Dangerous([line] + rest) <==> MarksDanger(line) || Dangerous(rest)
  {
    assert ([line] + rest)[1..] == rest;
    assert forall l :: l in [line] + rest <==> l == line || l in rest;
  }

  lemma {:induction false} LinesExtend(d: Draft, lines: seq<string>)
    ensures ExtendAll(d, lines) ==
            Added(d, CommandsIn(Ends(lines)), NotesIn(Ends(lines)), Dangerous(Ends(lines)))
    decreases |lines|
  {
    if lines == [] {
      assert d.cmd + [] == d.cmd && d.note + [] == d.note;
    } else {
      var line, rest := TrimEnd(lines[0]), Ends(lines[1..]);
      OneLine(d, line);
      LinesExtend(Extend(d, line), lines[1..]);
      FirstLineFirst(line, rest);
      AddedTwice(d, CommandIn(line), NoteIn(line), MarksDanger(line), CommandsIn(rest), NotesIn(rest), Dangerous(rest));
    }
  }

  lemma {:induction false} TrimSkipsGap(gap: string, s: string)
    requires Gap(gap)
    ensures Trim(gap + s) == Trim(s)
  {
    if gap == [] {
      assert gap + s == s;
    } else {
      assert gap[0] in gap && (gap + s)[1..] == gap[1..] + s;
      TrimSkipsGap(gap[1..], s);
    }
  }

  lemma {:induction false} BlanksAreTrimmed(notes: seq<string>)
    ensures DropBlank(notes) == [] <==> forall n :: n in notes ==> Gap(n)
    ensures DropBlank(notes) != [] ==> Trim(Join(DropBlank(notes), '\n')) == Trim(Join(notes, '\n'))
  {
    if notes != [] {
      BlankExactly(notes[0]);
      assert notes == [notes[0]] + notes[1..];
      if Trim(notes[0]) == "" {
        BlanksAreTrimmed(notes[1..]);
        if |notes| > 1 {
          TrimSkipsGap(notes[0] + ['\n'], Join(notes[1..], '\n'));
        }
      }
    }
  }

  lemma BodyIsMeant(title: string, lines: seq<string>)
    ensures Finished(ExtendAll(Draft(title, [], [], false), lines)) == StepMeant(title, Ends(lines))
  {
    LinesExtend(Draft(title, [], [], false), lines);
    BlanksAreTrimmed(NotesIn(Ends(lines)));
    assert [] + CommandsIn(Ends(lines)) == CommandsIn(Ends(lines));
  }

  lemma HeadingIsRead(line: string)
    requires line == TrimEnd(line)
    ensures Heading(line).Some? <==> BeginsStep(line)
    ensures Heading(line).Some? ==> Trim(Heading(line).value) == Trim(line[2..])
  {
    if "##" <= line {
      var rest := line[2..];
      var t := TrimStart(rest);
      TrimStartIsSuffix(rest);
      assert t != [] ==> t[|t| - 1] == line[|line| - 1];
      assert TrimEnd(t) == t;
      TrimmedIsFixed(t);
    }
  }

  function BodyOf(lines: seq<string>): seq<string> {
    if lines == [] || BeginsStep(TrimEnd(lines[0])) then [] else [lines[0]] + BodyOf(lines[1..])
  }

  lemma {:induction false} BodyEnds(lines: seq<string>)
    ensures Ends(BodyOf(lines)) == Body(Ends(lines))
  {
    if lines != [] {
      BodyEnds(lines[1..]);
      assert ([TrimEnd(lines[0])] + Ends(lines[1..]))[1..] == Ends(lines[1..]);
      assert ([lines[0]] + BodyOf(lines[1..]))[1..] == BodyOf(lines[1..]);
    }
  }

  lemma HeadingStarts(st: ParseState, raw: string)
    requires BeginsStep(TrimEnd(raw))
    ensures OnLine(st, raw) ==
            ParseState(Flush(st), Some(Draft(TitleMeant(TrimEnd(raw), |Flush(st)| + 1), [], [], false)))
  {
    var line := TrimEnd(raw);
    HeadingIsRead(line);
    BlankExactly(line[2..]);
  }

  lemma OtherLineExtends(st: ParseState, raw: string)
    requires !BeginsStep(TrimEnd(raw))
    ensures OnLine(st, raw) ==
            if st.cur.Some? then st.(cur := Some(Extend(st.cur.value, TrimEnd(raw)))) else st
  {
    HeadingIsRead(TrimEnd(raw));
  }

  lemma MeantFirst(raw: string, rest: seq<string>, before: nat)
    ensures var line := TrimEnd(raw);
            StepsMeant(Ends([raw] + rest), before) ==
            if !BeginsStep(line) then StepsMeant(Ends(rest), before)
            else [StepMeant(TitleMeant(line, before + 1), Ends(BodyOf(rest)))] + StepsMeant(Ends(rest), before + 1)
  {
    assert ([raw] + rest)[1..] == rest;
    assert ([TrimEnd(raw)] + Ends(rest))[1..] == Ends(rest);
    BodyEnds(rest);
  }

  lemma MeantOther(raw: string, rest: seq<string>, before: nat)
    requires !BeginsStep(TrimEnd(raw))
    ensures StepsMeant(Ends([raw] + rest), before) == StepsMeant(Ends(rest), before)
    ensures BodyOf([raw] + rest) == [raw] + BodyOf(rest)
  {
    MeantFirst(raw, rest, before);
    assert ([raw] + rest)[1..] == rest;
  }

  /** The step begun by d, with its lines, and the steps behind it. */
  ghost function ReadOn(steps: seq<Step>, d: Draft, lines: seq<string>): seq<Step> {
    steps + ([Finished(ExtendAll(d, BodyOf(lines)))] + StepsMeant(Ends(lines), |steps| + 1))
  }

  lemma HeadingReadOn(steps: seq<Step>, raw: string, rest: seq<string>)
    requires BeginsStep(TrimEnd(raw))
    ensures ReadOn(steps, Draft(TitleMeant(TrimEnd(raw), |steps| + 1), [], [], false), rest) ==
            steps + StepsMeant(Ends([raw] + rest), |steps|)
  {
    MeantFirst(raw, rest, |steps|);
    BodyIsMeant(TitleMeant(TrimEnd(raw), |steps| + 1), BodyOf(rest));
  }

  lemma StepBetween(before: seq<Step>, s: Step, later: seq<Step>)
    ensures before + ([s] + later) == before + [s] + later
  {
  }

  lemma NextHeading(steps: seq<Step>, d: Draft, lines: seq<string>)
    requires BodyOf(lines) == []
    ensures ReadOn(steps, d, lines) == steps + [Finished(d)] + StepsMeant(Ends(lines), |steps| + 1)
  {
    assert ExtendAll(d, []) == d;
    StepBetween(steps, Finished(d), StepsMeant(Ends(lines), |steps| + 1));
  }

  lemma NextLine(steps: seq<Step>, d: Draft, raw: string, rest: seq<string>)
    requires !BeginsStep(TrimEnd(raw))
    ensures ReadOn(steps, d, [raw] + rest) == ReadOn(steps, Extend(d, TrimEnd(raw)), rest)
  {
    MeantOther(raw, rest, |steps| + 1);
    assert ([raw] + BodyOf(rest))[1..] == BodyOf(rest);
  }

  lemma FirstThenRest(st: ParseState, raw: string, rest: seq<string>)
    ensures OnLines(st, [raw] + rest) == OnLines(OnLine(st, raw), rest)
  {
    assert ([raw] + rest)[1..] == rest;
  }

  /** With a step begun, the lines up to the next heading belong to it. */
  lemma {:induction false} BegunIsRead(steps: seq<Step>, d: Draft, lines: seq<string>)
    ensures Flush(OnLines(ParseState(steps, Some(d)), lines)) == ReadOn(steps, d, lines)
    decreases |lines|
  {
    var st := ParseState(steps, Some(d));
    if lines == [] {
      assert [Finished(d)] + [] == [Finished(d)];
    } else {
      var raw, rest := lines[0], lines[1..];
      assert lines == [raw] + rest;
      FirstThenRest(st, raw, rest);
      if BeginsStep(TrimEnd(raw)) {
        var done := steps + [Finished(d)];
        HeadingStarts(st, raw);
        BegunIsRead(done, Draft(TitleMeant(TrimEnd(raw), |done| + 1), [], [], false), rest);
        HeadingReadOn(done, raw, rest);
        NextHeading(steps, d, lines);
      } else {
        OtherLineExtends(st, raw);
        BegunIsRead(steps, Extend(d, TrimEnd(raw)), rest);
        NextLine(steps, d, raw, rest);
      }
    }
  }

  lemma HeadingThenRest(st: ParseState, done: seq<Step>, raw: string, rest: seq<string>)
    requires BeginsStep(TrimEnd(raw)) && done == Flush(st)
    ensures Flush(OnLines(st, [raw] + rest)) == done + StepsMeant(Ends([raw] + rest), |done|)
  {
    var d := Draft(TitleMeant(TrimEnd(raw), |done| + 1), [], [], false);
    FirstThenRest(st, raw, rest);
    HeadingStarts(st, raw);
    BegunIsRead(done, d, rest);
    HeadingReadOn(done, raw, rest);
  }

  lemma {:induction false} UnbegunIsRead(lines: seq<string>)
    ensures Flush(OnLines(START, lines)) == [] + StepsMeant(Ends(lines), 0)
  {
    if lines == [] {
      assert OnLines(START, lines) == START;
    } else {
      var raw, rest := lines[0], lines[1..];
      assert lines == [raw] + rest;
      if BeginsStep(TrimEnd(raw)) {
        HeadingThenRest(START, [], raw, rest);
      } else {
        FirstThenRest(START, raw, rest);
        OtherLineExtends(START, raw);
        UnbegunIsRead(rest);
        MeantOther(raw, rest, 0);
      }
    }
  }

  /** Every text, printed or typed, is read as what its lines mean. */
  lemma TextIsReadAsMeant(text: string)
    ensures Parse(text) == StepsMeant(Ends(Split(text, '\n')), 0)
  {
    UnbegunIsRead(Split(text, '\n'));
  }
}
