/** Whole cron expressions: five written columns and the aliases are read as what they mean. */
module CronText {
  import opened Basics
  import opened Text
  import opened CronFields

  // ---- What five columns of parts mean ----

  function WriteColumn(parts: seq<Part>): string {
    Join(WriteAll(parts), ',')
  }

  function ColumnMeant(parts: seq<Part>, min: int, max: int): Option<seq<int>> {
    var values := MeantAll(parts, min, max);
    if values.Some? then Some(Ascending(values.value, min, max)) else None
  }

  /** A day column restricts unless it is a bare star. */
  predicate Restricts(parts: seq<Part>) {
    parts != [Part(Star, None)]
  }

  /** Minutes, hours, days of the month, months, days of the week. */
  function ScheduleMeant(columns: seq<seq<Part>>): Option<CronFields>
    requires |columns| == 5
  {
    var minutes, hours := ColumnMeant(columns[0], 0, 59), ColumnMeant(columns[1], 0, 23);
    var days, months := ColumnMeant(columns[2], 1, 31), ColumnMeant(columns[3], 1, 12);
    var weekdays := ColumnMeant(columns[4], 0, 7);
    if minutes.None? || hours.None? || days.None? || months.None? || weekdays.None? then None
    else Some(CronFields(minutes.value, hours.value, days.value, months.value, SundayAsZero(weekdays.value),
                         Restricts(columns[2]), Restricts(columns[4])))
  }

  // ---- Characters of written columns ----

  predicate ColumnChar(c: char) {
    IsDigit(c) || c == '*' || c == '-' || c == '/' || c == ','
  }

  lemma {:induction false} JoinedChars(texts: seq<string>)
    requires texts != [] && forall t :: t in texts ==> t != [] && forall c :: c in t ==> ColumnChar(c)
    ensures Join(texts, ',') != [] && forall c :: c in Join(texts, ',') ==> ColumnChar(c)
  {
    assert texts[0] in texts;
    if |texts| > 1 {
      assert forall t :: t in texts[1..] ==> t in texts;
      JoinedChars(texts[1..]);
    }
  }

  lemma {:induction false} WrittenChars(parts: seq<Part>)
    ensures |WriteAll(parts)| == |parts|
    ensures forall t :: t in WriteAll(parts) ==> t != [] && forall c :: c in t ==> ColumnChar(c)
  {
    if parts != [] {
      WrittenChars(parts[1..]);
    }
  }

  lemma ColumnIsWord(parts: seq<Part>)
    requires parts != []
    ensures IsWord(WriteColumn(parts)) && forall c :: c in WriteColumn(parts) ==> ColumnChar(c)
  {
    WrittenChars(parts);
    JoinedChars(WriteAll(parts));
  }

  /** Only the bare star is written as a star. */
  lemma StarIsWritten(parts: seq<Part>)
    requires parts != []
    ensures WriteColumn(parts) == "*" <==> !Restricts(parts)
  {
    var first := Write(parts[0]);
    WrittenChars(parts[1..]);
    if |parts| > 1 {
      ColumnIsWord(parts[1..]);
      assert WriteAll(parts)[1..] == WriteAll(parts[1..]);
      assert |WriteColumn(parts)| > 1;
    } else {
      assert WriteAll(parts)[1..] == [] && WriteColumn(parts) == first;
      StarPart(parts[0]);
      assert parts == [parts[0]];
    }
  }

  lemma StarPart(p: Part)
    ensures Write(p) == "*" <==> p == Part(Star, None)
  {
    var text := WriteBounds(p.bounds);
    if !p.bounds.Star? {
      var n := if p.bounds.One? then p.bounds.n else p.bounds.a;
      assert Decimal(n)[0] in Decimal(n) && text[0] == Decimal(n)[0] && Write(p)[0] == text[0];
    } else if p.step.Some? {
      assert |Write(p)| > 1;
    }
  }

  // ---- The whole expression ----

  function Columns(columns: seq<seq<Part>>): seq<string> {
    seq(|columns|, i requires 0 <= i < |columns| => WriteColumn(columns[i]))
  }

  lemma ColumnsRead(columns: seq<seq<Part>>)
    requires |columns| == 5 && forall i :: 0 <= i < 5 ==> columns[i] != []
    ensures FieldsOf(Columns(columns)) == ScheduleMeant(columns)
  {
    FieldReadsBack(columns[0], 0, 59);
    FieldReadsBack(columns[1], 0, 23);
    FieldReadsBack(columns[2], 1, 31);
    FieldReadsBack(columns[3], 1, 12);
    FieldReadsBack(columns[4], 0, 7);
    StarIsWritten(columns[2]);
    StarIsWritten(columns[4]);
  }

  predicate TextChar(c: char) {
    ColumnChar(c) || IsSpace(c)
  }

  lemma {:induction false} SpreadChars(words: seq<string>, gaps: seq<string>)
    requires words != [] && |gaps| == |words| - 1
    requires forall w :: w in words ==> forall c :: c in w ==> ColumnChar(c)
    requires forall g :: g in gaps ==> Gap(g)
    ensures forall c :: c in Spread(words, gaps) ==> TextChar(c)
  {
    assert words[0] in words;
    if |words| > 1 {
      assert gaps[0] in gaps;
      assert (forall w :: w in words[1..] ==> w in words) && forall g :: g in gaps[1..] ==> g in gaps;
      SpreadChars(words[1..], gaps[1..]);
    }
  }

  lemma PlainTextIsLower(s: string)
    requires forall c :: c in s ==> TextChar(c)
    ensures LowerAscii(s) == s
  {
    forall i | 0 <= i < |s|
      ensures LowerAscii(s)[i] == s[i]
    {
      assert s[i] in s;
    }
  }

  lemma PlainTextIsNoName(s: string)
    requires s != [] && forall c :: c in s ==> TextChar(c)
    ensures s !in INHERITED_NAMES && Alias(s) == s && !("@" <= s)
  {
    assert s[0] in s;
  }

  /** The text of five columns, read column by column. */
  lemma TextReads(columns: seq<seq<Part>>, gaps: seq<string>)
    requires |columns| == 5 && forall i :: 0 <= i < 5 ==> columns[i] != []
    requires |gaps| == 4 && forall g :: g in gaps ==> g != [] && Gap(g)
    ensures var text := Spread(Columns(columns), gaps);
            && ParseColumns(text) == ScheduleMeant(columns)
            && LowerAscii(text) == text && text !in INHERITED_NAMES && Alias(text) == text
            && text != [] && !IsSpace(text[0]) && !IsSpace(text[|text| - 1])
  {
    var words := Columns(columns);
    forall w | w in words
      ensures IsWord(w) && forall c :: c in w ==> ColumnChar(c)
    {
      var i :| 0 <= i < 5 && words[i] == w;
      ColumnIsWord(columns[i]);
    }
    SpreadFields(words, gaps);
    SpreadChars(words, gaps);
    PlainTextIsLower(Spread(words, gaps));
    PlainTextIsNoName(Spread(words, gaps));
    ColumnsRead(columns);
  }

  /** Reading undoes writing for whole expressions: five columns written from any lists of parts, with
      any white space around and between them, are read as the schedule meant, and refused exactly
      when some part leaves its column or has step 0. */
  lemma ExpressionReadsBack(columns: seq<seq<Part>>, gaps: seq<string>, before: string, after: string)
    requires |columns| == 5 && forall i :: 0 <= i < 5 ==> columns[i] != []
    requires |gaps| == 4 && (forall g :: g in gaps ==> g != [] && Gap(g)) && Gap(before) && Gap(after)
    ensures ParseCron(before + Spread(Columns(columns), gaps) + after) == Returned(ScheduleMeant(columns))
  {
    TextReads(columns, gaps);
    TrimmedText(before, Spread(Columns(columns), gaps), after);
  }

  // ---- Aliases ----

  const EVERY := [Part(Star, None)]

  const ONE_BLANK_EACH := [" ", " ", " ", " "]

  function Only(n: nat): seq<Part> {
    [Part(One(n), None)]
  }

  /** What each alias promises. */
  function AliasMeans(name: string): Option<seq<seq<Part>>> {
    if name == "@hourly" then Some([Only(0), EVERY, EVERY, EVERY, EVERY])
    else if name == "@daily" || name == "@midnight" then Some([Only(0), Only(0), EVERY, EVERY, EVERY])
    else if name == "@weekly" then Some([Only(0), Only(0), EVERY, EVERY, Only(0)])
    else if name == "@monthly" then Some([Only(0), Only(0), Only(1), EVERY, EVERY])
    else if name == "@yearly" || name == "@annually" then Some([Only(0), Only(0), Only(1), Only(1), EVERY])
    else None
  }

  lemma ShortColumns()
    ensures WriteColumn(EVERY) == "*" && WriteColumn(Only(0)) == "0" && WriteColumn(Only(1)) == "1"
  {
    assert EVERY[1..] == [] && Only(0)[1..] == [] && Only(1)[1..] == [];
    assert Decimal(0) == "0" && Decimal(1) == "1";
  }

  lemma SpreadStep(words: seq<string>, gaps: seq<string>, k: nat)
    requires |gaps| == |words| - 1 && k < |gaps|
    ensures Spread(words[k..], gaps[k..]) == words[k] + gaps[k] + Spread(words[k + 1..], gaps[k + 1..])
  {
    assert words[k..][1..] == words[k + 1..] && gaps[k..][1..] == gaps[k + 1..];
  }

  lemma SpreadFive(words: seq<string>, gaps: seq<string>)
    requires |words| == 5 && |gaps| == 4
    ensures Spread(words, gaps) ==
            words[0] + gaps[0] + (words[1] + gaps[1] + (words[2] + gaps[2] + (words[3] + gaps[3] + words[4])))
  {
    assert words[0..] == words && gaps[0..] == gaps;
    SpreadStep(words, gaps, 0);
    SpreadStep(words, gaps, 1);
    SpreadStep(words, gaps, 2);
    SpreadStep(words, gaps, 3);
  }

  /** One-letter columns, one blank apart. */
  lemma ShortText(a: char, b: char, c: char, d: char, e: char)
    ensures Spread([[a], [b], [c], [d], [e]], ONE_BLANK_EACH) == [a, ' ', b, ' ', c, ' ', d, ' ', e]
  {
    SpreadFive([[a], [b], [c], [d], [e]], ONE_BLANK_EACH);
  }

  lemma ClockAliasIsWritten(name: string)
    requires name == "@hourly" || name == "@daily" || name == "@midnight"
    ensures Alias(name) == Spread(Columns(AliasMeans(name).value), ONE_BLANK_EACH)
  {
    ShortColumns();
    if name == "@hourly" {
      ShortText('0', '*', '*', '*', '*');
      assert Columns(AliasMeans(name).value) == ["0", "*", "*", "*", "*"];
    } else {
      ShortText('0', '0', '*', '*', '*');
      assert Columns(AliasMeans(name).value) == ["0", "0", "*", "*", "*"];
    }
  }

  lemma DateAliasIsWritten(name: string)
    requires name == "@weekly" || name == "@monthly" || name == "@yearly" || name == "@annually"
    ensures Alias(name) == Spread(Columns(AliasMeans(name).value), ONE_BLANK_EACH)
  {
    ShortColumns();
    if name == "@weekly" {
      ShortText('0', '0', '*', '*', '0');
      assert Columns(AliasMeans(name).value) == ["0", "0", "*", "*", "0"];
    } else if name == "@monthly" {
      ShortText('0', '0', '1', '*', '*');
      assert Columns(AliasMeans(name).value) == ["0", "0", "1", "*", "*"];
    } else {
      ShortText('0', '0', '1', '1', '*');
      assert Columns(AliasMeans(name).value) == ["0", "0", "1", "1", "*"];
    }
  }

  lemma AliasIsWritten(name: string)
    requires AliasMeans(name).Some?
    ensures Alias(name) == Spread(Columns(AliasMeans(name).value), ONE_BLANK_EACH)
  {
    if name == "@hourly" || name == "@daily" || name == "@midnight" {
      ClockAliasIsWritten(name);
    } else {
      DateAliasIsWritten(name);
    }
  }

  lemma UnknownAlias(name: string)
    requires "@" <= name && AliasMeans(name).None?
    ensures Alias(name) == name
  {
  }

  lemma KnownAlias(name: string)
    requires AliasMeans(name).Some?
    ensures ParseColumns(Alias(name)) == ScheduleMeant(AliasMeans(name).value)
  {
    var columns := AliasMeans(name).value;
    var text := Spread(Columns(columns), ONE_BLANK_EACH);
    AliasIsWritten(name);
    TextReads(columns, ONE_BLANK_EACH);
  }

  /** Every alias, in any case and with any blanks around it, is read as the schedule it promises;
      every other name with an `@` is refused. */
  lemma AliasesMean(expr: string)
    requires "@" <= LowerAscii(Trim(expr))
    ensures var columns := AliasMeans(LowerAscii(Trim(expr)));
            ParseCron(expr) == Returned(if columns.Some? then ScheduleMeant(columns.value) else None)
  {
    var name := LowerAscii(Trim(expr));
    assert name[0] == '@';
    if AliasMeans(name).Some? {
      KnownAlias(name);
    } else {
      UnknownAlias(name);
    }
  }
}
