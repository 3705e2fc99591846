/** What the schedule search finds, and what a ticking scheduler does with it. */
module CronLaws {
  import opened Basics
  import opened Calendar
  import opened CronFields
  import opened CronRun
  import opened CronText
  import opened Text

  // ---- The search finds the next run ----

  /** The end of the 1831 days searched, which begin with the day of the first minute considered. */
  function Reach(after: int): int {
    ((MinuteFloor(after) + 1) / 1440 + 1831) * 1440
  }

  /** The result is the least match after the minute of `after`; None means that no minute of the
      1831 days searched matches. */
  lemma NextRunIsLeast(f: CronFields, after: int)
    ensures var r := NextRun(f, after);
            && (r.Some? ==>
                  var m := r.value / 60000;
                  && r.value == m * 60000 && Matches(f, m)
                  && MinuteFloor(after) < m < Reach(after)
                  && forall k :: MinuteFloor(after) < k < m ==> !Matches(f, k))
            && (r.None? ==>
                  forall k :: MinuteFloor(after) < k < Reach(after) ==> !Matches(f, k))
  {
    var r := LeastMatch(f, FirstMinute(after), SearchEnd(FirstMinute(after)));
    if r.Some? {
      assert (r.value * 60000) / 60000 == r.value;
    }
  }

  /** What the parser guarantees about the fields. */
  ghost predicate WellFormed(f: CronFields) {
    && f.minutes != [] && (forall v :: v in f.minutes ==> 0 <= v <= 59)
    && f.hours != [] && (forall v :: v in f.hours ==> 0 <= v <= 23)
    && f.daysOfMonth != [] && (forall v :: v in f.daysOfMonth ==> 1 <= v <= 31)
    && f.months != [] && (forall v :: v in f.months ==> 1 <= v <= 12)
    && f.daysOfWeek != [] && (forall v :: v in f.daysOfWeek ==> 0 <= v <= 6)
  }

  lemma SundayKeepsDays(days: seq<int>)
    requires days != [] && forall v :: v in days ==> 0 <= v <= 7
    ensures SundayAsZero(days) != [] && forall v :: v in SundayAsZero(days) ==> 0 <= v <= 6
  {
    var d := days[0];
    var mapped := set v | v in days :: if v == 7 then 0 else v;
    assert d in days;
    assert (if d == 7 then 0 else d) in mapped;
    assert (if d == 7 then 0 else d) in SundayAsZero(days);
  }

  lemma FieldIsInRange(raw: string, min: int, max: int)
    ensures FieldOf(raw, min, max).Some? ==>
              FieldOf(raw, min, max).value != [] && forall v :: v in FieldOf(raw, min, max).value ==> min <= v <= max
  {
    var parts := Split(raw, ',');
    if FieldOf(raw, min, max).Some? {
      var lo := ParsePart(parts[0], min, max).value.lo;
      assert lo in FieldValues(parts, min, max).value;
      assert lo in FieldOf(raw, min, max).value;
    }
  }

  lemma FieldsAreWellFormed(parts: seq<string>)
    requires |parts| == 5
    ensures FieldsOf(parts).Some? ==> WellFormed(FieldsOf(parts).value)
  {
    FieldIsInRange(parts[0], 0, 59);
    FieldIsInRange(parts[1], 0, 23);
    FieldIsInRange(parts[2], 1, 31);
    FieldIsInRange(parts[3], 1, 12);
    FieldIsInRange(parts[4], 0, 7);
    if FieldsOf(parts).Some? {
      SundayKeepsDays(FieldOf(parts[4], 0, 7).value);
    }
  }

  lemma ColumnsAreWellFormed(source: string)
    ensures ParseColumns(source).Some? ==> WellFormed(ParseColumns(source).value)
  {
    if |SpaceFields(source)| == 5 {
      FieldsAreWellFormed(SpaceFields(source));
    }
  }

  lemma ParsedIsWellFormed(expr: string)
    ensures ParseCron(expr).Returned? && ParseCron(expr).value.Some? ==> WellFormed(ParseCron(expr).value.value)
  {
    ColumnsAreWellFormed(Alias(LowerAscii(Trim(expr))));
  }

  /** A written expression runs next when the schedule it means does, and never when it means none. */
  lemma WrittenScheduleRuns(columns: seq<seq<Part>>, gaps: seq<string>, after: int)
    requires |columns| == 5 && forall i :: 0 <= i < 5 ==> columns[i] != []
    requires |gaps| == 4 && forall g :: g in gaps ==> g != [] && Gap(g)
    ensures var f := ScheduleMeant(columns);
            NextCron(Spread(Columns(columns), gaps), after) ==
            Returned(if f.Some? then NextRun(f.value, after) else None)
  {
    var text := Spread(Columns(columns), gaps);
    ExpressionReadsBack(columns, gaps, [], []);
    assert [] + text + [] == text;
  }

  // ---- How far ahead is far enough ----

  function StartDay(after: int): int {
    DayOfMinute(FirstMinute(after))
  }

  lemma ListedDayIsFound(f: CronFields, after: int, day: int)
    requires WellFormed(f) && DayListed(f, day)
    requires StartDay(after) < day <= StartDay(after) + MAX_LOOKAHEAD_DAYS
    ensures NextRun(f, after).Some?
  {
    var h, mi := f.hours[0], f.minutes[0];
    assert h in f.hours && mi in f.minutes;
    var m := day * DAY_MINUTES + h * 60 + mi;
    MinuteInDay(m, day);
    assert HourOf(m) == h && MinuteOf(m) == mi;
    assert Matches(f, m);
  }

  lemma NextYearIsNear(day: int, date: Date)
    requires ValidDate(date) && date.year == DateOf(day).year + 1
    ensures day < DayNumber(date) < day + 732
  {
    DayInYear(DateOf(day));
    DayInYear(date);
    YearStartStep(DateOf(day).year);
  }

  /** Every weekday falls among the first seven days of a month. */
  lemma WeekdayInMonth(year: int, month: int, w: int) returns (date: Date)
    requires 1 <= month <= 12 && 0 <= w <= 6
    ensures ValidDate(date) && date.year == year && date.month == month
    ensures WeekdayOf(DayNumber(date)) == w
  {
    var first := DayNumber(Date(year, month, 1));
    var k := (w - (first + 4)) % 7;
    date := Date(year, month, 1 + k);
    assert DayNumber(date) == first + k;
    WeekdayShift(first + 4, w);
  }

  lemma WeekdayShift(a: int, w: int)
    requires 0 <= w <= 6
    ensures (a + (w - a) % 7) % 7 == w
  {
  }

  /** The only days the schedule can run on are February 29ths: the day of the month decides alone
      and no listed day exists in a common year. */
  ghost predicate NeedsLeapDay(f: CronFields) {
    && f.domRestricted && !f.dowRestricted
    && forall month, day :: month in f.months && day in f.daysOfMonth ==> day > DaysInMonth(1970, month)
  }

  lemma ListedDateInYear(f: CronFields, year: int) returns (date: Date)
    requires WellFormed(f) && !NeedsLeapDay(f)
    ensures ValidDate(date) && date.year == year && date.month in f.months
    ensures DayMatches(f, date, WeekdayOf(DayNumber(date)))
  {
    var month := f.months[0];
    assert month in f.months;
    date := Date(year, month, 1);
    if f.dowRestricted {
      var w := f.daysOfWeek[0];
      assert w in f.daysOfWeek;
      date := WeekdayInMonth(year, month, w);
    } else if f.domRestricted {
      var m, d :| m in f.months && d in f.daysOfMonth && d <= DaysInMonth(1970, m);
      date := Date(year, m, d);
    }
  }

  /** Every other schedule has a next run, from any time on. */
  lemma OrdinaryScheduleIsFound(f: CronFields, after: int)
    requires WellFormed(f) && !NeedsLeapDay(f)
    ensures NextRun(f, after).Some?
  {
    var start := StartDay(after);
    var date := ListedDateInYear(f, DateOf(start).year + 1);
    EveryDateHasItsDay(date);
    NextYearIsNear(start, date);
    ListedDayIsFound(f, after, DayNumber(date));
  }

  function LeapDay(year: int): Date {
    Date(year, 2, 29)
  }

  lemma LeapScheduleListsLeapDays(f: CronFields, day: int)
    requires WellFormed(f) && NeedsLeapDay(f)
    ensures DayListed(f, day) <==>
            DateOf(day) == LeapDay(DateOf(day).year) && 2 in f.months && 29 in f.daysOfMonth
  {
    var d := DateOf(day);
    if DayListed(f, day) {
      assert d.day > DaysInMonth(1970, d.month);
      assert d.month == 2;
    }
  }

  /** A schedule that needs a February 29 and lists it is found when one lies among the 1830 days
      after the start day. */
  lemma LeapDayInReachIsFound(f: CronFields, after: int, year: int)
    requires WellFormed(f) && NeedsLeapDay(f) && 2 in f.months && 29 in f.daysOfMonth
    requires Leap(year)
    requires StartDay(after) < DayNumber(LeapDay(year)) <= StartDay(after) + MAX_LOOKAHEAD_DAYS
    ensures NextRun(f, after).Some?
  {
    EveryDateHasItsDay(LeapDay(year));
    LeapScheduleListsLeapDays(f, DayNumber(LeapDay(year)));
    ListedDayIsFound(f, after, DayNumber(LeapDay(year)));
  }

  ghost predicate LeapDayAhead(after: int, year: int) {
    Leap(year) && StartDay(after) < DayNumber(LeapDay(year)) <= StartDay(after) + MAX_LOOKAHEAD_DAYS
  }

  /** The start day is itself a February 29 with a listed minute still to come. */
  ghost predicate LaterToday(f: CronFields, after: int) {
    && DateOf(StartDay(after)) == LeapDay(DateOf(StartDay(after)).year)
    && exists m :: FirstMinute(after) <= m < (StartDay(after) + 1) * DAY_MINUTES && TimeListed(f, m)
  }

  predicate TimeListed(f: CronFields, m: int) {
    HourOf(m) in f.hours && MinuteOf(m) in f.minutes
  }

  lemma LaterTodayIsFound(f: CronFields, after: int)
    requires WellFormed(f) && NeedsLeapDay(f) && 2 in f.months && 29 in f.daysOfMonth && LaterToday(f, after)
    ensures NextRun(f, after).Some?
  {
    var day := StartDay(after);
    var m :| FirstMinute(after) <= m < (day + 1) * DAY_MINUTES && TimeListed(f, m);
    assert day * DAY_MINUTES <= FirstMinute(after);
    MinuteInDay(m, day);
    LeapScheduleListsLeapDays(f, day);
    assert Matches(f, m);
  }

  lemma FoundLeapDay(f: CronFields, after: int)
    requires WellFormed(f) && NeedsLeapDay(f)
    ensures NextRun(f, after).Some? ==>
              && 2 in f.months && 29 in f.daysOfMonth
              && (LaterToday(f, after) || exists year :: LeapDayAhead(after, year))
  {
    var from := FirstMinute(after);
    var found := LeastMatch(f, from, SearchEnd(from));
    if found.Some? {
      var m := found.value;
      var day := DayOfMinute(m);
      LeapScheduleListsLeapDays(f, day);
      if day == StartDay(after) {
        assert TimeListed(f, m);
      } else {
        assert LeapDayAhead(after, DateOf(day).year);
      }
    }
  }

  /** Exactly when a schedule has a next run: always, unless it can only fall on a February 29; then one
      must be listed and lie among the 1830 days after the start day, or still be going on. */
  lemma FoundExactly(f: CronFields, after: int)
    requires WellFormed(f)
    ensures NextRun(f, after).Some? <==>
              !NeedsLeapDay(f)
              || (2 in f.months && 29 in f.daysOfMonth
                  && (LaterToday(f, after) || exists year :: LeapDayAhead(after, year)))
  {
    if !NeedsLeapDay(f) {
      OrdinaryScheduleIsFound(f, after);
    } else {
      FoundLeapDay(f, after);
      if 2 in f.months && 29 in f.daysOfMonth {
        LeapDayIsFound(f, after);
      }
    }
  }

  lemma LeapDayIsFound(f: CronFields, after: int)
    requires WellFormed(f) && NeedsLeapDay(f) && 2 in f.months && 29 in f.daysOfMonth
    ensures LaterToday(f, after) || (exists year :: LeapDayAhead(after, year)) ==> NextRun(f, after).Some?
  {
    if LaterToday(f, after) {
      LaterTodayIsFound(f, after);
    } else if year :| LeapDayAhead(after, year) {
      LeapDayInReachIsFound(f, after, year);
    }
  }

  lemma ShiftedRemainder(y: int, j: int)
    requires 1 <= j <= 3
    ensures (y + j) % 4 == 0 <==> y % 4 == 4 - j
  {
  }

  lemma OneLeapInFour(y: int)
    ensures YearLength(y) + YearLength(y + 1) + YearLength(y + 2) + YearLength(y + 3) <= 1461
  {
    ShiftedRemainder(y, 1);
    ShiftedRemainder(y, 2);
    ShiftedRemainder(y, 3);
  }

  lemma FourYearsOn(y: int)
    ensures YearStart(y + 4) <= YearStart(y) + 1461
  {
    YearStartStep(y);
    YearStartStep(y + 1);
    YearStartStep(y + 2);
    YearStartStep(y + 3);
    OneLeapInFour(y);
  }

  lemma FourYears(y: int, z: int)
    requires y < z <= y + 4
    ensures YearStart(z) <= YearStart(y) + 1461
  {
    FourYearsOn(y);
    if z < y + 4 {
      YearStartGrows(z, y + 4);
    }
  }

  lemma LeapDayDistance(day: int, leap: int)
    requires Leap(leap) && DateOf(day).year < leap <= DateOf(day).year + 4
    ensures day < DayNumber(LeapDay(leap)) <= day + MAX_LOOKAHEAD_DAYS
  {
    DayInYear(DateOf(day));
    DayInYear(LeapDay(leap));
    YearStartGrows(DateOf(day).year, leap);
    FourYears(DateOf(day).year, leap);
  }

  lemma NextMultipleOfFour(y: int) returns (leap: int)
    requires forall c :: y < c <= y + 4 && c % 100 == 0 ==> c % 400 == 0
    ensures Leap(leap) && y < leap <= y + 4
  {
    leap := y + 4 - y % 4;
    assert leap % 4 == 0;
  }

  /** February 29 is always near enough, unless a common century year comes within four years. */
  lemma LeapDayIsNear(f: CronFields, after: int)
    requires WellFormed(f) && NeedsLeapDay(f) && 2 in f.months && 29 in f.daysOfMonth
    requires var y := DateOf(StartDay(after)).year;
             forall c :: y < c <= y + 4 && c % 100 == 0 ==> c % 400 == 0
    ensures NextRun(f, after).Some?
  {
    var leap := NextMultipleOfFour(DateOf(StartDay(after)).year);
    LeapDayDistance(StartDay(after), leap);
    LeapDayInReachIsFound(f, after, leap);
  }

  lemma NoLeapDayNear2096(y: int)
    requires Leap(y)
    ensures var start := DayNumber(Date(2096, 3, 1));
            !(start <= DayNumber(LeapDay(y)) <= start + MAX_LOOKAHEAD_DAYS)
  {
    DayInYear(LeapDay(y));
    DayInYear(Date(2096, 3, 1));
    assert DayNumber(LeapDay(2096)) < DayNumber(Date(2096, 3, 1));
    assert YearStart(2104) == YearStart(2096) + 2921;
    if y < 2096 {
      YearStartGrows(y, 2096);
    } else if y > 2104 {
      YearStartGrows(2104, y);
    } else {
      assert y == 2096 || y == 2104;
    }
  }

  lemma NoLeapDayAhead2096(after: int)
    requires StartDay(after) == DayNumber(Date(2096, 3, 1))
    ensures forall year :: !LeapDayAhead(after, year)
  {
    forall year
      ensures !LeapDayAhead(after, year)
    {
      if Leap(year) {
        NoLeapDayNear2096(year);
      }
    }
  }

  lemma MarchIsNotLeapDay(f: CronFields, after: int, date: Date)
    requires ValidDate(date) && date.month == 3 && StartDay(after) == DayNumber(date)
    ensures !LaterToday(f, after)
  {
    EveryDateHasItsDay(date);
  }

  /** The condition matters: counted from March 2096 the next February 29 is in 2104, further than
      the search looks, and a yearly leap-day schedule has no next run. */
  lemma LeapDayTooFar(f: CronFields, after: int)
    requires WellFormed(f) && NeedsLeapDay(f) && StartDay(after) == DayNumber(Date(2096, 3, 1))
    ensures NextRun(f, after).None?
  {
    MarchIsNotLeapDay(f, after, Date(2096, 3, 1));
    NoLeapDayAhead2096(after);
    FoundExactly(f, after);
  }

  // ---- The scheduler ----

  /** The last run, or when the schedule was enabled before the first. */
  function BaseOf(last: Option<int>, enabledAt: int): int {
    if last.Some? then last.value else enabledAt
  }

  /** Due when the next run after the last one has come. */
  predicate IsDue(f: CronFields, now: int, lastRunAt: Option<int>, enabledAt: int) {
    var next := NextRun(f, BaseOf(lastRunAt, enabledAt));
    next.Some? && next.value <= now
  }

  /** Whether to run now, given the last run. */
  type Rule = (Option<int>, int) -> bool

  function Due(f: CronFields, enabledAt: int): (due: Rule)
    ensures forall last, now :: due(last, now) <==> IsDue(f, now, last, enabledAt)
  {
    (last, now) => IsDue(f, now, last, enabledAt)
  }

  /** The last run after n ticks, where a tick that is due runs at once. */
  function LastRunBy(due: Rule, ticks: seq<int>, n: nat): Option<int>
    requires n <= |ticks|
  {
    if n == 0 then None
    else
      var last := LastRunBy(due, ticks, n - 1);
      if due(last, ticks[n - 1]) then Some(ticks[n - 1]) else last
  }

  function FireCountBy(due: Rule, ticks: seq<int>, n: nat): nat
    requires n <= |ticks|
  {
    if n == 0 then 0
    else FireCountBy(due, ticks, n - 1) + if due(LastRunBy(due, ticks, n - 1), ticks[n - 1]) then 1 else 0
  }

  function BaseTime(f: CronFields, enabledAt: int, ticks: seq<int>, n: nat): int
    requires n <= |ticks|
  {
    BaseOf(LastRunBy(Due(f, enabledAt), ticks, n), enabledAt)
  }

  predicate Fires(f: CronFields, enabledAt: int, ticks: seq<int>, n: nat)
    requires n < |ticks|
  {
    IsDue(f, ticks[n], LastRunBy(Due(f, enabledAt), ticks, n), enabledAt)
  }

  function FireCount(f: CronFields, enabledAt: int, ticks: seq<int>, n: nat): nat
    requires n <= |ticks|
  {
    FireCountBy(Due(f, enabledAt), ticks, n)
  }

  /** How many numbers after lo, up to hi, are of a kind. */
  function CountAfter(kind: int -> bool, lo: int, hi: int): nat
    decreases hi - lo
  {
    if lo >= hi then 0 else CountAfter(kind, lo, hi - 1) + if kind(hi) then 1 else 0
  }

  lemma {:induction false} CountSplits(kind: int -> bool, lo: int, mid: int, hi: int)
    requires lo <= mid <= hi
    ensures CountAfter(kind, lo, hi) == CountAfter(kind, lo, mid) + CountAfter(kind, mid, hi)
    decreases hi - mid
  {
    if mid < hi {
      CountSplits(kind, lo, mid, hi - 1);
    }
  }

  lemma {:induction false} OneIsCounted(kind: int -> bool, lo: int, m: int, hi: int)
    requires lo < m <= hi && kind(m)
    ensures CountAfter(kind, lo, hi) >= 1
    decreases hi - m
  {
    if m < hi {
      OneIsCounted(kind, lo, m, hi - 1);
    }
  }

  /** The matching minutes after lo, up to hi. */
  function MatchCount(f: CronFields, lo: int, hi: int): nat {
    CountAfter(Matching(f), lo, hi)
  }

  /** A tick fires exactly when a matching minute within reach of the search has come since the
      minute of the last run. */
  lemma TickLaw(f: CronFields, enabledAt: int, ticks: seq<int>, n: nat)
    requires n < |ticks|
    ensures var base := BaseTime(f, enabledAt, ticks, n);
            Fires(f, enabledAt, ticks, n) <==>
            exists m :: MinuteFloor(base) < m < Reach(base)
                        && m * 60000 <= ticks[n] && Matches(f, m)
  {
    NextRunIsLeast(f, BaseTime(f, enabledAt, ticks, n));
  }

  /** A run settles the backlog: ticks in the minute of the last run do not fire again. */
  lemma NoSecondFireInAMinute(f: CronFields, enabledAt: int, ticks: seq<int>, n: nat)
    requires n < |ticks|
    requires MinuteFloor(ticks[n]) <= MinuteFloor(BaseTime(f, enabledAt, ticks, n))
    ensures !Fires(f, enabledAt, ticks, n)
  {
    TickLaw(f, enabledAt, ticks, n);
    var base := BaseTime(f, enabledAt, ticks, n);
    if m :| MinuteFloor(base) < m < Reach(base) && m * 60000 <= ticks[n]
            && Matches(f, m) {
      assert m <= MinuteFloor(ticks[n]);
    }
  }

  lemma OneMoreMatch(f: CronFields, start: int, base: int, m: int, now: int)
    requires start <= base && MinuteFloor(base) < m && m * 60000 <= now && Matches(f, m)
    ensures start <= now
    ensures MatchCount(f, MinuteFloor(start), MinuteFloor(now)) >
            MatchCount(f, MinuteFloor(start), MinuteFloor(base))
  {
    assert MinuteFloor(start) <= MinuteFloor(base) && m <= MinuteFloor(now);
    CountSplits(Matching(f), MinuteFloor(start), MinuteFloor(base), MinuteFloor(now));
    OneIsCounted(Matching(f), MinuteFloor(base), m, MinuteFloor(now));
  }

  lemma DueMatches(f: CronFields, enabledAt: int, last: Option<int>, now: int)
    requires enabledAt <= BaseOf(last, enabledAt) && IsDue(f, now, last, enabledAt)
    ensures enabledAt <= now
    ensures MatchCount(f, MinuteFloor(enabledAt), MinuteFloor(now)) >
            MatchCount(f, MinuteFloor(enabledAt), MinuteFloor(BaseOf(last, enabledAt)))
  {
    var base := BaseOf(last, enabledAt);
    NextRunIsLeast(f, base);
    OneMoreMatch(f, enabledAt, base, NextRun(f, base).value / 60000, now);
  }

  /** Whatever grows with every run bounds the number of runs. */
  lemma {:induction false} RunsAreBounded(due: Rule, enabledAt: int, grown: int -> int, ticks: seq<int>, n: nat)
    requires n <= |ticks|
    requires forall last, now :: due(last, now) && enabledAt <= BaseOf(last, enabledAt) ==>
               enabledAt <= now && grown(BaseOf(last, enabledAt)) < grown(now)
    ensures var base := BaseOf(LastRunBy(due, ticks, n), enabledAt);
            enabledAt <= base && FireCountBy(due, ticks, n) <= grown(base) - grown(enabledAt)
  {
    if n > 0 {
      RunsAreBounded(due, enabledAt, grown, ticks, n - 1);
    }
  }

  lemma {:induction false} LastRunIsATick(due: Rule, ticks: seq<int>, n: nat)
    requires n <= |ticks|
    ensures var last := LastRunBy(due, ticks, n);
            last.Some? ==> exists i :: 0 <= i < n && ticks[i] == last.value
  {
    if n > 0 {
      LastRunIsATick(due, ticks, n - 1);
    }
  }

  /** Runs never outnumber the matching minutes that have passed since the schedule was enabled. */
  lemma FiresWithinMatches(f: CronFields, enabledAt: int, ticks: seq<int>, n: nat)
    requires n <= |ticks|
    ensures var base := BaseTime(f, enabledAt, ticks, n);
            && enabledAt <= base
            && FireCount(f, enabledAt, ticks, n) <= MatchCount(f, MinuteFloor(enabledAt), MinuteFloor(base))
            && (base == enabledAt || exists i :: 0 <= i < n && ticks[i] == base)
  {
    var due := Due(f, enabledAt);
    var matched := t => MatchCount(f, MinuteFloor(enabledAt), MinuteFloor(t));
    forall last, now | due(last, now) && enabledAt <= BaseOf(last, enabledAt)
      ensures enabledAt <= now && matched(BaseOf(last, enabledAt)) < matched(now)
    {
      DueMatches(f, enabledAt, last, now);
    }
    RunsAreBounded(due, enabledAt, matched, ticks, n);
    LastRunIsATick(due, ticks, n);
  }
}
