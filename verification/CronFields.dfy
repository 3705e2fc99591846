/** Five-field cron expressions: their parser, and what each field means. */
module CronFields {
  import opened Basics
  import opened Text

  datatype CronFields = CronFields(
    minutes: seq<int>, hours: seq<int>, daysOfMonth: seq<int>, months: seq<int>,
    daysOfWeek: seq<int>, domRestricted: bool, dowRestricted: bool)

  /** What a call comes to that may throw. */
  datatype Called<T> = Returned(value: T) | Threw

  /** One element of a field: lo, lo + step, ... up to hi. */
  datatype Range = Range(lo: int, hi: int, step: int)

  // ---- Parsing ----

  predicate AllDigits(s: string) {
    s != [] && forall c :: c in s ==> IsDigit(c)
  }

  /** `\d{1,2}`. */
  predicate ShortNumber(s: string) {
    AllDigits(s) && |s| <= 2
  }

  function ParseStep(pieces: seq<string>): Option<int>
    requires |pieces| >= 1
  {
    if |pieces| == 1 then Some(1)
    else if AllDigits(pieces[1]) && DigitsValue(pieces[1]) >= 1 then Some(DigitsValue(pieces[1]))
    else None
  }

  /** The bounds before the `/`: a star, a number, or a span. */
  function ParseBounds(range: string, stepped: bool, min: int, max: int): Option<(int, int)> {
    if range == "*" then Some((min, max))
    else
      var ends := Split(range, '-');
      if |ends| == 1 && ShortNumber(ends[0]) then
        var lo := DigitsValue(ends[0]);
        Some((lo, if stepped then max else lo))
      else if |ends| == 2 && ShortNumber(ends[0]) && ShortNumber(ends[1])
      then Some((DigitsValue(ends[0]), DigitsValue(ends[1])))
      else None
  }

  function RangeWithin(step: Option<int>, bounds: Option<(int, int)>, min: int, max: int): Option<Range> {
    if step.None? || bounds.None? then None
    else if bounds.value.0 < min || bounds.value.1 > max || bounds.value.0 > bounds.value.1 then None
    else Some(Range(bounds.value.0, bounds.value.1, step.value))
  }

  function ParsePart(part: string, min: int, max: int): (r: Option<Range>)
    ensures r.Some? ==> min <= r.value.lo <= r.value.hi <= max && r.value.step >= 1
  {
    var piece := Trim(part);
    if piece == "" then None
    else
      var pieces := Split(piece, '/');
      RangeWithin(ParseStep(pieces), ParseBounds(pieces[0], |pieces| > 1, min, max), min, max)
  }

  function Steps(lo: int, hi: int, step: int): set<int>
    requires step >= 1
    decreases hi - lo
  {
    if lo > hi then {} else {lo} + Steps(lo + step, hi, step)
  }

  /** A range holds exactly the terms of its arithmetic progression up to its end. */
  lemma {:induction false} StepsAreTheProgression(lo: int, hi: int, step: int, v: int)
    requires step >= 1
    ensures v in Steps(lo, hi, step) <==> v <= hi && exists k: nat :: v == lo + k * step
    decreases hi - lo
  {
    if lo <= hi {
      StepsAreTheProgression(lo + step, hi, step, v);
      if exists k: nat :: v == lo + k * step {
        var k: nat :| v == lo + k * step;
        if k > 0 {
          assert v == (lo + step) + (k - 1) * step;
        }
      }
      if exists k: nat :: v == (lo + step) + k * step {
        var k: nat :| v == (lo + step) + k * step;
        assert v == lo + (k + 1) * step;
      }
      assert lo == lo + 0 * step;
    } else if exists k: nat :: v == lo + k * step {
      var k: nat :| v == lo + k * step;
      assert k * step >= 0;
    }
  }

  function Values(r: Range): set<int>
    requires r.step >= 1
  {
    Steps(r.lo, r.hi, r.step)
  }

  lemma {:induction false} StepsWithin(lo: int, hi: int, step: int)
    requires step >= 1
    ensures forall v :: v in Steps(lo, hi, step) ==> lo <= v <= hi
    decreases hi - lo
  {
    if lo <= hi {
      StepsWithin(lo + step, hi, step);
    }
  }

  /** The union of the parts, or None when one of them is not understood. */
  function FieldValues(parts: seq<string>, min: int, max: int): (r: Option<set<int>>)
    ensures r.Some? ==> forall v :: v in r.value ==> min <= v <= max
  {
    if parts == [] then Some({})
    else
      var first := ParsePart(parts[0], min, max);
      var rest := FieldValues(parts[1..], min, max);
      if first.None? || rest.None? then None
      else
        StepsWithin(first.value.lo, first.value.hi, first.value.step);
        Some(Values(first.value) + rest.value)
  }

  /** The elements of s from lo to hi, in order. */
  function Ascending(s: set<int>, lo: int, hi: int): (r: seq<int>)
    ensures forall v :: v in r <==> v in s && lo <= v <= hi
    ensures forall i, j :: 0 <= i < j < |r| ==> r[i] < r[j]
    decreases hi - lo
  {
    if lo > hi then []
    else
      var rest := Ascending(s, lo + 1, hi);
      assert forall i :: 0 <= i < |rest| ==> rest[i] in rest;
      if lo in s then [lo] + rest else rest
  }

  function FieldOf(raw: string, min: int, max: int): Option<seq<int>> {
    var values := FieldValues(Split(raw, ','), min, max);
    if values.Some? then Some(Ascending(values.value, min, max)) else None
  }

  /** Values already collected with those of the parts still to come. */
  function Joined(out: set<int>, rest: Option<set<int>>): Option<set<int>> {
    if rest.None? then None else Some(out + rest.value)
  }

  lemma OnePart(parts: seq<string>, i: nat, min: int, max: int, out: set<int>)
    requires i < |parts|
    ensures var range := ParsePart(parts[i], min, max);
            Joined(out, FieldValues(parts[i..], min, max)) ==
            if range.None? then None else Joined(out + Values(range.value), FieldValues(parts[i + 1..], min, max))
  {
    assert parts[i..][0] == parts[i] && parts[i..][1..] == parts[i + 1..];
    var range, rest := ParsePart(parts[i], min, max), FieldValues(parts[i + 1..], min, max);
    if range.Some? && rest.Some? {
      assert out + (Values(range.value) + rest.value) == (out + Values(range.value)) + rest.value;
    }
  }

  lemma JoinedWithNone(rest: Option<set<int>>)
    ensures Joined({}, rest) == rest
  {
    if rest.Some? {
      assert {} + rest.value == rest.value;
    }
  }

  method AddRange(range: Range, out: set<int>) returns (r: set<int>)
    requires range.step >= 1
    ensures r == out + Values(range)
  {
    r := out;
    var v := range.lo;
    while v <= range.hi
      invariant r + Steps(v, range.hi, range.step) == out + Values(range)
    {
      r := r + {v};
      v := v + range.step;
    }
  }

  /** Collects the values part by part, as the parser does. */
  method ParseField(raw: string, min: int, max: int) returns (r: Option<seq<int>>)
    ensures r == FieldOf(raw, min, max)
  {
    var parts := Split(raw, ',');
    var out: set<int> := {};
    assert parts[0..] == parts;
    JoinedWithNone(FieldValues(parts, min, max));
    for i := 0 to |parts|
      invariant Joined(out, FieldValues(parts[i..], min, max)) == FieldValues(parts, min, max)
    {
      OnePart(parts, i, min, max, out);
      var range := ParsePart(parts[i], min, max);
      if range.None? {
        return None;
      }
      out := AddRange(range.value, out);
    }
    assert parts[|parts|..] == [] && out + {} == out;
    r := Some(Ascending(out, min, max));
  }

  /** Names that every object of the host language has, the table of aliases included. */
  const INHERITED_NAMES := {"constructor", "__proto__"}

  function Alias(source: string): string {
    if source == "@hourly" then "0 * * * *"
    else if source == "@daily" || source == "@midnight" then "0 0 * * *"
    else if source == "@weekly" then "0 0 * * 0"
    else if source == "@monthly" then "0 0 1 * *"
    else if source == "@yearly" || source == "@annually" then "0 0 1 1 *"
    else source
  }

  /** 7 is Sunday too. */
  function SundayAsZero(days: seq<int>): seq<int> {
    Ascending(set d | d in days :: if d == 7 then 0 else d, 0, 6)
  }

  function FieldsOf(parts: seq<string>): Option<CronFields>
    requires |parts| == 5
  {
    var minutes := FieldOf(parts[0], 0, 59);
    var hours := FieldOf(parts[1], 0, 23);
    var dom := FieldOf(parts[2], 1, 31);
    var months := FieldOf(parts[3], 1, 12);
    var dow := FieldOf(parts[4], 0, 7);
    if minutes.None? || hours.None? || dom.None? || months.None? || dow.None? then None
    else Some(CronFields(minutes.value, hours.value, dom.value, months.value,
                         SundayAsZero(dow.value), parts[2] != "*", parts[4] != "*"))
  }

  /** Five columns; an alias that is not known is refused. */
  function ParseColumns(source: string): Option<CronFields> {
    var parts := SpaceFields(source);
    if "@" <= source || |parts| != 5 then None else FieldsOf(parts)
  }

  /** A name that the table of aliases inherits is found there, but is no text. */
  function ParseCron(expr: string): Called<Option<CronFields>> {
    var source := LowerAscii(Trim(expr));
    if source in INHERITED_NAMES then Threw else Returned(ParseColumns(Alias(source)))
  }

  // ---- Every field that can be written is understood ----

  datatype Bounds = Star | One(n: nat) | Span(a: nat, b: nat)

  /** A part as its author means it: bounds and an optional step. */
  datatype Part = Part(bounds: Bounds, step: Option<nat>)

  function WriteBounds(b: Bounds): string {
    match b
    case Star => "*"
    case One(n) => Decimal(n)
    case Span(lo, hi) => Decimal(lo) + "-" + Decimal(hi)
  }

  function Write(p: Part): string {
    WriteBounds(p.bounds) + if p.step.Some? then "/" + Decimal(p.step.value) else ""
  }

  function WriteAll(parts: seq<Part>): seq<string> {
    if parts == [] then [] else [Write(parts[0])] + WriteAll(parts[1..])
  }

  function BoundsMeant(b: Bounds, stepped: bool, min: int, max: int): (int, int) {
    match b
    case Star => (min, max)
    case One(n) => (n, if stepped then max else n)
    case Span(lo, hi) => (lo, hi)
  }

  function Meant(p: Part, min: int, max: int): Option<Range> {
    var step := if p.step.Some? then p.step.value else 1;
    var (lo, hi) := BoundsMeant(p.bounds, p.step.Some?, min, max);
    if step >= 1 && min <= lo <= hi <= max then Some(Range(lo, hi, step)) else None
  }

  function MeantAll(parts: seq<Part>, min: int, max: int): Option<set<int>> {
    if parts == [] then Some({})
    else
      var first, rest := Meant(parts[0], min, max), MeantAll(parts[1..], min, max);
      if first.None? || rest.None? then None else Some(Values(first.value) + rest.value)
  }

  /** A number of more than two digits is not understood, but it is out of every column as well. */
  ghost predicate BoundsAgree(r: Option<(int, int)>, meant: (int, int), min: int, max: int) {
    if r.Some? then r.value == meant else !(min <= meant.0 <= meant.1 <= max)
  }

  lemma NumberReads(n: nat, stepped: bool, min: int, max: int)
    requires 0 <= min && max < 100
    ensures BoundsAgree(ParseBounds(Decimal(n), stepped, min, max),
                        BoundsMeant(One(n), stepped, min, max), min, max)
  {
    DecimalReads(n);
    SplitWhole(Decimal(n), '-');
    assert IsDigit(Decimal(n)[0]);
  }

  lemma SpanPieces(lo: nat, hi: nat)
    ensures Split(WriteBounds(Span(lo, hi)), '-') == [Decimal(lo), Decimal(hi)]
    ensures WriteBounds(Span(lo, hi)) != "*"
  {
    SplitWhole(Decimal(hi), '-');
    SplitFirst(Decimal(lo), Decimal(hi), '-');
    assert Decimal(lo) + "-" + Decimal(hi) == Decimal(lo) + ['-'] + Decimal(hi);
    assert WriteBounds(Span(lo, hi))[0] == Decimal(lo)[0];
  }

  lemma SpanReads(lo: nat, hi: nat, stepped: bool, min: int, max: int)
    requires 0 <= min && max < 100
    ensures BoundsAgree(ParseBounds(WriteBounds(Span(lo, hi)), stepped, min, max),
                        BoundsMeant(Span(lo, hi), stepped, min, max), min, max)
  {
    DecimalReads(lo);
    DecimalReads(hi);
    SpanPieces(lo, hi);
  }

  lemma BoundsRead(b: Bounds, stepped: bool, min: int, max: int)
    requires 0 <= min && max < 100
    ensures BoundsAgree(ParseBounds(WriteBounds(b), stepped, min, max),
                        BoundsMeant(b, stepped, min, max), min, max)
  {
    match b
    case Star =>
    case One(n) => NumberReads(n, stepped, min, max);
    case Span(lo, hi) => SpanReads(lo, hi, stepped, min, max);
  }

  lemma StepReads(p: Part)
    requires '/' !in WriteBounds(p.bounds)
    ensures var pieces := Split(Write(p), '/');
            && |pieces| == (if p.step.Some? then 2 else 1)
            && pieces[0] == WriteBounds(p.bounds)
            && ParseStep(pieces) == if p.step == Some(0) then None
                                    else if p.step.Some? then Some(p.step.value) else Some(1)
  {
    var text := WriteBounds(p.bounds);
    if p.step.Some? {
      DecimalReads(p.step.value);
      SplitWhole(Decimal(p.step.value), '/');
      SplitFirst(text, Decimal(p.step.value), '/');
      assert Write(p) == text + ['/'] + Decimal(p.step.value);
    } else {
      assert Write(p) == text;
      SplitWhole(text, '/');
    }
  }

  lemma PartText(p: Part)
    ensures Trim(Write(p)) == Write(p) && Write(p) != "" && ',' !in Write(p)
  {
    var text := Write(p);
    assert forall c :: c in text ==> !IsSpace(c) && c != ',';
    assert text[0] in text && text[|text| - 1] in text;
    TrimmedIsFixed(text);
  }

  lemma PartReads(p: Part, min: int, max: int)
    requires 0 <= min && max < 100
    ensures ParsePart(Write(p), min, max) == Meant(p, min, max)
  {
    PartText(p);
    StepReads(p);
    BoundsRead(p.bounds, p.step.Some?, min, max);
    PartMeant(p, ParseStep(Split(Write(p), '/')),
              ParseBounds(WriteBounds(p.bounds), p.step.Some?, min, max), min, max);
  }

  lemma PartMeant(p: Part, step: Option<int>, bounds: Option<(int, int)>, min: int, max: int)
    requires step == if p.step == Some(0) then None
                     else if p.step.Some? then Some(p.step.value) else Some(1)
    requires BoundsAgree(bounds, BoundsMeant(p.bounds, p.step.Some?, min, max), min, max)
    ensures RangeWithin(step, bounds, min, max) == Meant(p, min, max)
  {
  }

  lemma {:induction false} PartsRead(parts: seq<Part>, min: int, max: int)
    requires 0 <= min && max < 100
    ensures FieldValues(WriteAll(parts), min, max) == MeantAll(parts, min, max)
    ensures forall p :: p in WriteAll(parts) ==> ',' !in p
  {
    if parts != [] {
      PartText(parts[0]);
      PartReads(parts[0], min, max);
      PartsRead(parts[1..], min, max);
      assert WriteAll(parts)[1..] == WriteAll(parts[1..]);
    }
  }

  /** Reading undoes writing: a field written from any list of parts is refused exactly when some
      part leaves the column or has step 0, and otherwise yields in order exactly the values meant. */
  lemma FieldReadsBack(parts: seq<Part>, min: int, max: int)
    requires parts != [] && 0 <= min && max < 100
    ensures var meant := MeantAll(parts, min, max);
            FieldOf(Join(WriteAll(parts), ','), min, max) ==
            if meant.Some? then Some(Ascending(meant.value, min, max)) else None
  {
    PartsRead(parts, min, max);
    SplitJoin(WriteAll(parts), ',');
  }
}
