/** Exactly which texts a column of a cron expression accepts, and what they list. */
module CronGrammar {
  import opened Basics
  import opened Text
  import opened CronFields

  // ---- The grammar ----

  predicate Digits(s: string) {
    s != [] && forall c :: c in s ==> '0' <= c <= '9'
  }

  predicate OneOrTwoDigits(s: string) {
    Digits(s) && |s| <= 2
  }

  ghost predicate IsSpan(text: string, a: string, b: string) {
    OneOrTwoDigits(a) && OneOrTwoDigits(b) && text == a + "-" + b
  }

  /** `*`, a number, which with a step runs to the end of the column, or a span of two numbers. */
  ghost predicate BoundsMean(text: string, stepped: bool, min: int, max: int, lo: int, hi: int) {
    || (text == "*" && lo == min && hi == max)
    || (OneOrTwoDigits(text) && lo == DigitsValue(text) && hi == if stepped then max else lo)
    || exists a, b :: IsSpan(text, a, b) && lo == DigitsValue(a) && hi == DigitsValue(b)
  }

  /** Bounds, a slash and a step; what a second slash begins is ignored. */
  ghost predicate IsStepped(body: string, bounds: string, step: string, rest: string) {
    body == bounds + "/" + step + rest && '/' !in bounds && Digits(step) && (rest == [] || rest[0] == '/')
  }

  ghost predicate BodyMeans(body: string, min: int, max: int, r: Range) {
    && min <= r.lo <= r.hi <= max && r.step >= 1
    && (('/' !in body && r.step == 1 && BoundsMean(body, false, min, max, r.lo, r.hi))
        || exists bounds, step, rest ::
             IsStepped(body, bounds, step, rest) && r.step == DigitsValue(step)
             && BoundsMean(bounds, true, min, max, r.lo, r.hi))
  }

  /** White space around a part does not matter. */
  ghost predicate PartMeans(part: string, min: int, max: int, r: Range) {
    exists before, body, after ::
      IsPadded(part, before, body, after) && BodyMeans(body, min, max, r)
  }

  ghost predicate IsPadded(part: string, before: string, body: string, after: string) {
    part == before + body + after && Gap(before) && Gap(after) && body != [] && Trimmed(body)
  }

  // ---- The parser finds it ----

  lemma SplitInTwo(s: string, c: char)
    ensures |Split(s, c)| == 1 ==> c !in s && Split(s, c)[0] == s
    ensures |Split(s, c)| > 1 ==> c !in Split(s, c)[0] && s == Split(s, c)[0] + [c] + Join(Split(s, c)[1..], c)
  {
    JoinSplit(s, c);
    SplitPiecesAreWhole(s, c);
  }

  /** A text without separators, and behind it nothing or a separator. */
  lemma FirstPiece(first: string, rest: string, c: char)
    requires c !in first && (rest == [] || rest[0] == c)
    ensures Split(first + rest, c)[0] == first
    ensures rest == [] ==> Split(first + rest, c) == [first]
  {
    if rest == [] {
      assert first + rest == first;
      SplitWhole(first, c);
    } else {
      assert first + rest == first + [c] + rest[1..];
      SplitFirst(first, rest[1..], c);
    }
  }

  lemma FirstOfJoined(pieces: seq<string>, c: char) returns (rest: string)
    requires pieces != []
    ensures Join(pieces, c) == pieces[0] + rest && (rest == [] || rest[0] == c)
  {
    if |pieces| == 1 {
      rest := [];
      assert pieces[0] + [] == pieces[0];
    } else {
      rest := [c] + Join(pieces[1..], c);
    }
  }

  lemma BoundsAreRead(text: string, stepped: bool, min: int, max: int, lo: int, hi: int)
    ensures ParseBounds(text, stepped, min, max) == Some((lo, hi)) <==> BoundsMean(text, stepped, min, max, lo, hi)
  {
    var ends := Split(text, '-');
    SplitInTwo(text, '-');
    if OneOrTwoDigits(text) {
      assert text[0] in text;
      SplitWhole(text, '-');
    }
    if |ends| == 2 {
      assert ends[1..] == [ends[1]] && Join(ends[1..], '-') == ends[1];
      assert ShortNumber(ends[0]) && ShortNumber(ends[1]) ==> IsSpan(text, ends[0], ends[1]);
    }
    forall a, b | IsSpan(text, a, b)
      ensures ends == [a, b] && text != "*"
    {
      assert a + "-" + b == a + ['-'] + b && a[0] in a && text[0] == a[0];
      SplitFirst(a, b, '-');
      SplitWhole(b, '-');
    }
  }

  function ParseBody(body: string, min: int, max: int): Option<Range> {
    var pieces := Split(body, '/');
    RangeWithin(ParseStep(pieces), ParseBounds(pieces[0], |pieces| > 1, min, max), min, max)
  }

  lemma RangeIsWithin(step: Option<int>, bounds: Option<(int, int)>, min: int, max: int, r: Range)
    ensures RangeWithin(step, bounds, min, max) == Some(r) <==>
            step == Some(r.step) && bounds == Some((r.lo, r.hi)) && min <= r.lo <= r.hi <= max
  {
  }

  lemma SteppedHasSlash(body: string, bounds: string, step: string, rest: string)
    ensures IsStepped(body, bounds, step, rest) ==> '/' in body
  {
    if IsStepped(body, bounds, step, rest) {
      assert body[|bounds|] == '/';
    }
  }

  lemma PlainBodyIsRead(body: string, min: int, max: int, r: Range)
    requires '/' !in body
    ensures ParseBody(body, min, max) == Some(r) <==> BodyMeans(body, min, max, r)
  {
    SplitWhole(body, '/');
    RangeIsWithin(Some(1), ParseBounds(body, false, min, max), min, max, r);
    BoundsAreRead(body, false, min, max, r.lo, r.hi);
    forall bounds, step, rest
      ensures !IsStepped(body, bounds, step, rest)
    {
      SteppedHasSlash(body, bounds, step, rest);
    }
  }

  /** The bounds and the step of a stepped body, which begin it. */
  lemma StepIsFound(body: string, bounds: string, step: string, rest: string)
    requires IsStepped(body, bounds, step, rest)
    ensures '/' in body && |Split(body, '/')| > 1
    ensures Split(body, '/')[0] == bounds && Split(body, '/')[1] == step
  {
    assert body == bounds + ['/'] + (step + rest) && body[|bounds|] == '/';
    SplitFirst(bounds, step + rest, '/');
    assert '/' !in step;
    FirstPiece(step, rest, '/');
  }

  lemma PiecesAreStepped(body: string) returns (rest: string)
    requires '/' in body
    ensures var pieces := Split(body, '/');
            |pieces| > 1 && (Digits(pieces[1]) ==> IsStepped(body, pieces[0], pieces[1], rest))
  {
    var pieces := Split(body, '/');
    SplitInTwo(body, '/');
    rest := FirstOfJoined(pieces[1..], '/');
    assert pieces[0] + ['/'] + (pieces[1] + rest) == pieces[0] + "/" + pieces[1] + rest;
  }

  lemma SteppedBodyIsRead(body: string, min: int, max: int, r: Range)
    requires '/' in body
    ensures ParseBody(body, min, max) == Some(r) <==> BodyMeans(body, min, max, r)
  {
    var rest := PiecesAreStepped(body);
    var pieces := Split(body, '/');
    RangeIsWithin(ParseStep(pieces), ParseBounds(pieces[0], true, min, max), min, max, r);
    BoundsAreRead(pieces[0], true, min, max, r.lo, r.hi);
    forall bounds, step, more | IsStepped(body, bounds, step, more)
      ensures bounds == pieces[0] && step == pieces[1]
    {
      StepIsFound(body, bounds, step, more);
    }
  }

  /** A part is accepted if and only if the grammar gives it a meaning, and then with that range. */
  lemma PartIsReadExactly(part: string, min: int, max: int, r: Range)
    ensures ParsePart(part, min, max) == Some(r) <==> PartMeans(part, min, max, r)
  {
    var body := Trim(part);
    var before := TrimStartSplits(part);
    var after := TrimEndSplits(TrimStart(part));
    assert part == before + body + after;
    forall b, t, a | IsPadded(part, b, t, a)
      ensures t == body
    {
      TrimmedText(b, t, a);
    }
    if '/' in body {
      SteppedBodyIsRead(body, min, max, r);
    } else {
      PlainBodyIsRead(body, min, max, r);
    }
    assert body != [] ==> IsPadded(part, before, body, after);
  }

  // ---- A whole column ----

  ghost predicate AllMean(parts: seq<string>, min: int, max: int) {
    forall p :: p in parts ==> exists r :: PartMeans(p, min, max, r)
  }

  /** Some part lists v: its first value and some number of its steps, up to its last. */
  ghost predicate SomeLists(parts: seq<string>, min: int, max: int, v: int) {
    exists p, r, k: nat :: Lists(parts, min, max, v, p, r, k)
  }

  ghost predicate Lists(parts: seq<string>, min: int, max: int, v: int, p: string, r: Range, k: nat) {
    p in parts && PartMeans(p, min, max, r) && v == r.lo + k * r.step <= r.hi
  }

  lemma FirstPartLists(part: string, min: int, max: int, v: int, r: Range)
    requires ParsePart(part, min, max) == Some(r)
    ensures PartMeans(part, min, max, r) && r.step >= 1
    ensures v in Values(r) <==> exists k: nat :: v == r.lo + k * r.step <= r.hi
    ensures forall other :: PartMeans(part, min, max, other) ==> other == r
  {
    PartIsReadExactly(part, min, max, r);
    StepsAreTheProgression(r.lo, r.hi, r.step, v);
    forall other | PartMeans(part, min, max, other)
      ensures other == r
    {
      PartIsReadExactly(part, min, max, other);
    }
  }

  lemma PartMeansOrNot(part: string, min: int, max: int)
    ensures ParsePart(part, min, max).Some? <==> exists r :: PartMeans(part, min, max, r)
  {
    if ParsePart(part, min, max).Some? {
      PartIsReadExactly(part, min, max, ParsePart(part, min, max).value);
    }
    if r :| PartMeans(part, min, max, r) {
      PartIsReadExactly(part, min, max, r);
    }
  }

  lemma AllMeanFirst(parts: seq<string>, min: int, max: int)
    requires parts != []
    ensures AllMean(parts, min, max) <==>
            (exists r :: PartMeans(parts[0], min, max, r)) && AllMean(parts[1..], min, max)
  {
    assert parts[0] in parts && forall p :: p in parts[1..] ==> p in parts;
    if (exists r :: PartMeans(parts[0], min, max, r)) && AllMean(parts[1..], min, max) {
      forall p | p in parts
        ensures exists r :: PartMeans(p, min, max, r)
      {
        assert p == parts[0] || p in parts[1..];
      }
    }
  }

  lemma ListedByFirstOrRest(parts: seq<string>, min: int, max: int, v: int, first: Range)
    requires parts != [] && forall r :: PartMeans(parts[0], min, max, r) <==> r == first
    ensures SomeLists(parts, min, max, v) <==>
            (exists k: nat :: v == first.lo + k * first.step <= first.hi) || SomeLists(parts[1..], min, max, v)
  {
    if k: nat :| v == first.lo + k * first.step <= first.hi {
      assert Lists(parts, min, max, v, parts[0], first, k);
    }
    if SomeLists(parts[1..], min, max, v) {
      var p, r, k: nat :| Lists(parts[1..], min, max, v, p, r, k);
      assert Lists(parts, min, max, v, p, r, k);
    }
    if SomeLists(parts, min, max, v) {
      var p, r, k: nat :| Lists(parts, min, max, v, p, r, k);
      assert p == parts[0] || Lists(parts[1..], min, max, v, p, r, k);
    }
  }

  lemma {:induction false} PartsAreReadExactly(parts: seq<string>, min: int, max: int, v: int)
    ensures FieldValues(parts, min, max).Some? <==> AllMean(parts, min, max)
    ensures FieldValues(parts, min, max).Some? ==>
              (v in FieldValues(parts, min, max).value <==> SomeLists(parts, min, max, v))
  {
    if parts != [] {
      PartsAreReadExactly(parts[1..], min, max, v);
      PartMeansOrNot(parts[0], min, max);
      AllMeanFirst(parts, min, max);
      if ParsePart(parts[0], min, max).Some? {
        FirstPartLists(parts[0], min, max, v, ParsePart(parts[0], min, max).value);
        ListedByFirstOrRest(parts, min, max, v, ParsePart(parts[0], min, max).value);
      }
    }
  }

  /** A column is accepted if and only if each of its parts between commas has a meaning, and it lists
      exactly what some part lists. */
  lemma ColumnIsReadExactly(raw: string, min: int, max: int, v: int)
    ensures FieldOf(raw, min, max).Some? <==> AllMean(Split(raw, ','), min, max)
    ensures FieldOf(raw, min, max).Some? ==>
              (v in FieldOf(raw, min, max).value <==> SomeLists(Split(raw, ','), min, max, v))
  {
    PartsAreReadExactly(Split(raw, ','), min, max, v);
  }

  // ---- A whole expression ----

  /** The column is accepted and lists just these values. */
  ghost predicate ColumnIs(values: seq<int>, word: string, min: int, max: int) {
    AllMean(Split(word, ','), min, max) && forall v :: v in values <==> SomeLists(Split(word, ','), min, max, v)
  }

  lemma ColumnIsThis(word: string, min: int, max: int)
    ensures FieldOf(word, min, max).Some? ==> ColumnIs(FieldOf(word, min, max).value, word, min, max)
  {
    forall v
      ensures FieldOf(word, min, max).Some? ==>
                (v in FieldOf(word, min, max).value <==> SomeLists(Split(word, ','), min, max, v))
    {
      ColumnIsReadExactly(word, min, max, v);
    }
    ColumnIsReadExactly(word, min, max, 0);
  }

  ghost predicate Accepted(words: seq<string>) {
    && |words| == 5
    && AllMean(Split(words[0], ','), 0, 59) && AllMean(Split(words[1], ','), 0, 23)
    && AllMean(Split(words[2], ','), 1, 31) && AllMean(Split(words[3], ','), 1, 12)
    && AllMean(Split(words[4], ','), 0, 7)
  }

  /** What five accepted columns say; the weekdays are those of `days`, with Sunday as 0. */
  ghost predicate SaysColumns(f: CronFields, words: seq<string>, days: seq<int>)
    requires |words| == 5
  {
    && ColumnIs(f.minutes, words[0], 0, 59) && ColumnIs(f.hours, words[1], 0, 23)
    && ColumnIs(f.daysOfMonth, words[2], 1, 31) && ColumnIs(f.months, words[3], 1, 12)
    && ColumnIs(days, words[4], 0, 7) && f.daysOfWeek == SundayAsZero(days)
    && (f.domRestricted <==> words[2] != "*") && (f.dowRestricted <==> words[4] != "*")
  }

  lemma ColumnsAreReadExactly(words: seq<string>) returns (days: seq<int>)
    requires |words| == 5
    ensures FieldsOf(words).Some? <==> Accepted(words)
    ensures FieldsOf(words).Some? ==> SaysColumns(FieldsOf(words).value, words, days)
  {
    ColumnIsReadExactly(words[0], 0, 59, 0);
    ColumnIsReadExactly(words[1], 0, 23, 0);
    ColumnIsReadExactly(words[2], 1, 31, 0);
    ColumnIsReadExactly(words[3], 1, 12, 0);
    ColumnIsReadExactly(words[4], 0, 7, 0);
    ColumnIsThis(words[0], 0, 59);
    ColumnIsThis(words[1], 0, 23);
    ColumnIsThis(words[2], 1, 31);
    ColumnIsThis(words[3], 1, 12);
    ColumnIsThis(words[4], 0, 7);
    days := if FieldOf(words[4], 0, 7).Some? then FieldOf(words[4], 0, 7).value else [];
  }

  lemma NoNameIsItself(source: string)
    requires !("@" <= source)
    ensures Alias(source) == source
  {
  }

  /** A text that is no name is accepted if and only if its words are five accepted columns, and then
      read as what they say. */
  lemma ExpressionIsReadExactly(expr: string, source: string, words: seq<string>) returns (days: seq<int>)
    requires source == LowerAscii(Trim(expr)) && LaidOut(source, words)
    requires !("@" <= source) && source !in {"constructor", "__proto__"}
    ensures ParseCron(expr).Returned?
    ensures ParseCron(expr).value.Some? <==> Accepted(words)
    ensures Accepted(words) ==> SaysColumns(ParseCron(expr).value.value, words, days)
  {
    LaidOutOnce(source, words);
    NoNameIsItself(source);
    days := [];
    if |words| == 5 {
      days := ColumnsAreReadExactly(words);
    }
  }

  // ---- Names that the table of aliases inherits ----

  /** They make the parser throw, and nothing else does. */
  lemma InheritedNamesThrow(expr: string)
    ensures ParseCron(expr).Threw? <==> LowerAscii(Trim(expr)) == "constructor" || LowerAscii(Trim(expr)) == "__proto__"
  {
  }
}
