/** The text form of a runbook: a parser of what a user types, and a printer of existing steps. */
module Runbooks {
  import opened Basics
  import opened Text

  datatype Step = Step(title: string, command: Option<string>, note: Option<string>, danger: bool)

  /** The step being read. */
  datatype Draft = Draft(title: string, cmd: seq<string>, note: seq<string>, danger: bool)

  datatype ParseState = ParseState(steps: seq<Step>, cur: Option<Draft>)

  // ---- The parser ----

  function Finished(d: Draft): Step {
    Step(d.title,
         if d.cmd == [] then None else Some(Join(d.cmd, '\n')),
         if d.note == [] then None else Some(Trim(Join(d.note, '\n'))),
         d.danger)
  }

  function Flush(st: ParseState): seq<Step> {
    if st.cur.Some? then st.steps + [Finished(st.cur.value)] else st.steps
  }

  /** `^##\s*(.*)$`: the title of a heading line; the rest must not break inside. */
  function Heading(line: string): Option<string> {
    if !("##" <= line) then None
    else
      var title := TrimStart(line[2..]);
      if exists c :: c in title && IsLineBreak(c) then None else Some(title)
  }

  function DefaultTitle(n: nat): string {
    "B\U{01b0}\U{1edb}c " + Decimal(n)
  }

  /** What a line adds to the step being read. */
  function Extend(d: Draft, line: string): Draft {
    if "!!" <= line then
      var rest := Trim(line[2..]);
      d.(danger := true, note := if rest != "" then d.note + [rest] else d.note)
    else if "$ " <= line then d.(cmd := d.cmd + [line[2..]])
    else if line == "$" then d.(cmd := d.cmd + [""])
    else if Trim(line) == "" && d.note == [] then d
    else d.(note := d.note + [line])
  }

  /** One line; trimming its end also takes the carriage return of a CRLF. */
  function OnLine(st: ParseState, raw: string): ParseState {
    var line := TrimEnd(raw);
    var heading := Heading(line);
    if heading.Some? then
      var title := if Trim(heading.value) != "" then Trim(heading.value)
                   else DefaultTitle(|Flush(st)| + 1);
      ParseState(Flush(st), Some(Draft(title, [], [], false)))
    else if st.cur.None? then st
    else st.(cur := Some(Extend(st.cur.value, line)))
  }

  function OnLines(st: ParseState, lines: seq<string>): ParseState
    decreases |lines|
  {
    if lines == [] then st else OnLines(OnLine(st, lines[0]), lines[1..])
  }

  const START := ParseState([], None)

  function Parse(text: string): seq<Step> {
    Flush(OnLines(START, Split(text, '\n')))
  }

  lemma {:induction false} OnLinesConcat(st: ParseState, a: seq<string>, b: seq<string>)
    ensures OnLines(st, a + b) == OnLines(OnLines(st, a), b)
    decreases |a|
  {
    if a == [] {
      assert a + b == b;
    } else {
      assert (a + b)[1..] == a[1..] + b;
      OnLinesConcat(OnLine(st, a[0]), a[1..], b);
    }
  }

  lemma OneMoreLine(lines: seq<string>, i: nat)
    requires i < |lines|
    ensures OnLines(START, lines[..i + 1]) == OnLine(OnLines(START, lines[..i]), lines[i])
  {
    assert lines[..i + 1] == lines[..i] + [lines[i]];
    OnLinesConcat(START, lines[..i], [lines[i]]);
  }

  method ParseRunbookText(text: string) returns (steps: seq<Step>)
    ensures steps == Parse(text)
  {
    var lines := Split(text, '\n');
    steps := [];
    var cur: Option<Draft> := None;
    for i := 0 to |lines|
      invariant ParseState(steps, cur) == OnLines(START, lines[..i])
    {
      OneMoreLine(lines, i);
      var line := TrimEnd(lines[i]);
      var heading := Heading(line);
      if heading.Some? {
        if cur.Some? {
          steps := steps + [Finished(cur.value)];
        }
        var title := Trim(heading.value);
        if title == "" {
          title := DefaultTitle(|steps| + 1);
        }
        cur := Some(Draft(title, [], [], false));
      } else if cur.Some? {
        cur := Some(Extend(cur.value, line));
      }
    }
    assert lines[..|lines|] == lines;
    if cur.Some? {
      steps := steps + [Finished(cur.value)];
    }
  }

  // ---- The printer ----

  predicate Given(text: Option<string>) {
    text.Some? && text.value != ""
  }

  function CommandLines(lines: seq<string>): seq<string> {
    if lines == [] then []
    else [if lines[0] == "" then "$" else "$ " + lines[0]] + CommandLines(lines[1..])
  }

  /** The lines of a step as they are joined; a title or note may hold further breaks. */
  function StepTexts(s: Step): seq<string> {
    ["## " + s.title]
    + (if s.danger then ["!!"] else [])
    + (if Given(s.command) then CommandLines(Split(s.command.value, '\n')) else [])
    + (if Given(s.note) then [s.note.value] else [])
  }

  function Block(s: Step): string {
    Join(StepTexts(s), '\n')
  }

  /** Blocks with an empty line between them. */
  function Render(steps: seq<Step>): string {
    if steps == [] then ""
    else if |steps| == 1 then Block(steps[0])
    else Block(steps[0]) + "\n" + "\n" + Render(steps[1..])
  }

  // ---- Which steps survive ----

  predicate NoTrailingBlank(line: string) {
    line == "" || !IsSpace(line[|line| - 1])
  }

  predicate TidyLines(text: string) {
    forall line :: line in Split(text, '\n') ==> NoTrailingBlank(line)
  }

  /** A note line that the parser would not take as part of a note. */
  predicate SpecialLine(line: string) {
    Heading(line).Some? || "!!" <= line || "$ " <= line || line == "$"
  }

  predicate GoodTitle(title: string) {
    title != "" && Trimmed(title) && forall c :: c in title ==> !IsLineBreak(c)
  }

  /** What every step of a parsed text satisfies. */
  predicate Parsable(s: Step) {
    && GoodTitle(s.title)
    && (s.command.Some? ==> TidyLines(s.command.value))
    && (s.note.Some? ==> s.note.value != "" && Trimmed(s.note.value) && TidyLines(s.note.value))
  }

  predicate PlainNote(note: string) {
    forall line :: line in Split(note, '\n') ==> !SpecialLine(line)
  }

  /** A step that can be printed and read back: tidy, with a command that is not empty and a note none
      of whose lines means something else. */
  predicate WellFormed(s: Step) {
    && Parsable(s)
    && (s.command.Some? ==> s.command.value != "")
    && (s.note.Some? ==> PlainNote(s.note.value))
  }
}
