/** The next run of a schedule: the day-skipping search, and when a schedule is due. */
module CronRun {
  import opened Basics
  import opened Calendar
  import opened CronFields

  const MAX_LOOKAHEAD_DAYS := 5 * 366

  // ---- What a schedule means ----

  /** Both day columns restricted: either may match; otherwise the restricted ones must. */
  predicate DayMatches(f: CronFields, date: Date, weekday: int) {
    var dom, dow := date.day in f.daysOfMonth, weekday in f.daysOfWeek;
    if f.domRestricted && f.dowRestricted then dom || dow
    else if f.domRestricted then dom
    else if f.dowRestricted then dow
    else true
  }

  predicate DayListed(f: CronFields, day: int) {
    DateOf(day).month in f.months && DayMatches(f, DateOf(day), WeekdayOf(day))
  }

  predicate Matches(f: CronFields, m: int) {
    DayListed(f, DayOfMinute(m)) && HourOf(m) in f.hours && MinuteOf(m) in f.minutes
  }

  function Matching(f: CronFields): (kind: int -> bool)
    ensures forall m :: Matches(f, m) <==> kind(m)
  {
    m => Matches(f, m)
  }

  /** The simple search: the least number of a kind from lo up to but not including hi. */
  function LeastOf(kind: int -> bool, lo: int, hi: int): (r: Option<int>)
    ensures r.Some? ==> lo <= r.value < hi && kind(r.value)
    ensures r.Some? ==> forall m :: lo <= m < r.value ==> !kind(m)
    ensures r.None? ==> forall m :: lo <= m < hi ==> !kind(m)
    decreases hi - lo
  {
    if lo >= hi then None else if kind(lo) then Some(lo) else LeastOf(kind, lo + 1, hi)
  }

  lemma LeastIsUnique(kind: int -> bool, lo: int, r: Option<int>, hi: int)
    requires r.Some? ==> lo <= r.value < hi && kind(r.value) && forall m :: lo <= m < r.value ==> !kind(m)
    requires r.None? ==> forall m :: lo <= m < hi ==> !kind(m)
    ensures LeastOf(kind, lo, hi) == r
  {
  }

  /** The least matching minute. */
  function LeastMatch(f: CronFields, lo: int, hi: int): (r: Option<int>)
    ensures r.Some? ==> lo <= r.value < hi && Matches(f, r.value)
    ensures r.Some? ==> forall m :: lo <= m < r.value ==> !Matches(f, m)
    ensures r.None? ==> forall m :: lo <= m < hi ==> !Matches(f, m)
  {
    LeastOf(Matching(f), lo, hi)
  }

  /** The first minute considered, and the first minute past the days searched. */
  function FirstMinute(after: int): int { MinuteFloor(after) + 1 }

  function SearchEnd(from: int): int {
    (DayOfMinute(from) + MAX_LOOKAHEAD_DAYS + 1) * DAY_MINUTES
  }

  /** The next run in milliseconds. */
  function NextRun(f: CronFields, after: int): Option<int> {
    var m := LeastMatch(f, FirstMinute(after), SearchEnd(FirstMinute(after)));
    if m.Some? then Some(m.value * 60000) else None
  }

  function NextCron(expr: string, after: int): Called<Option<int>> {
    var f := ParseCron(expr);
    if f.Threw? then Threw
    else if f.value.Some? then Returned(NextRun(f.value.value, after))
    else Returned(None)
  }

  /** Minutes that do not match may be skipped. */
  lemma SkipUnmatched(f: CronFields, lo: int, mid: int, hi: int)
    requires lo <= mid <= hi
    requires forall m :: lo <= m < mid ==> !Matches(f, m)
    ensures LeastMatch(f, lo, hi) == LeastMatch(f, mid, hi)
  {
    var rest := LeastOf(Matching(f), mid, hi);
    LeastIsUnique(Matching(f), lo, rest, hi);
  }

  lemma FoundIsLeast(f: CronFields, lo: int, m: int, hi: int)
    requires lo <= m < hi && Matches(f, m) && forall k :: lo <= k < m ==> !Matches(f, k)
    ensures LeastMatch(f, lo, hi) == Some(m)
  {
    LeastIsUnique(Matching(f), lo, Some(m), hi);
  }

  lemma NothingLeft(f: CronFields, lo: int, hi: int)
    requires lo >= hi
    ensures LeastMatch(f, lo, hi) == None
  {
  }

  lemma DayWithinSearch(from: int, day: int, m: int)
    requires day <= DayOfMinute(from) + MAX_LOOKAHEAD_DAYS && m < (day + 1) * DAY_MINUTES
    ensures m < SearchEnd(from) && (day + 1) * DAY_MINUTES <= SearchEnd(from)
  {
  }

  method ScanDay(f: CronFields, start: int, day: int) returns (r: Option<int>)
    requires day * DAY_MINUTES <= start < (day + 1) * DAY_MINUTES
    ensures r.Some? ==> start <= r.value < (day + 1) * DAY_MINUTES && Matches(f, r.value)
    ensures r.Some? ==> forall m :: start <= m < r.value ==> !Matches(f, m)
    ensures r.None? ==> forall m :: start <= m < (day + 1) * DAY_MINUTES ==> !Matches(f, m)
  {
    forall m | start <= m < (day + 1) * DAY_MINUTES
      ensures DayOfMinute(m) == day
    {
      MinuteInDay(m, day);
    }
    if !DayListed(f, day) {
      return None;
    }
    var cursor := start;
    while cursor < (day + 1) * DAY_MINUTES
      invariant start <= cursor <= (day + 1) * DAY_MINUTES
      invariant forall m :: start <= m < cursor ==> !Matches(f, m)
    {
      if HourOf(cursor) in f.hours && MinuteOf(cursor) in f.minutes {
        return Some(cursor);
      }
      cursor := cursor + 1;
    }
    r := None;
  }

  /** The search as it is run: an unlisted day is skipped whole, a listed one is scanned minute by
      minute. */
  method SearchDays(f: CronFields, from: int) returns (r: Option<int>)
    ensures r == LeastMatch(f, from, SearchEnd(from))
  {
    var cursor := from;
    ghost var first := DayOfMinute(from);
    ghost var end := SearchEnd(from);
    for day := 0 to MAX_LOOKAHEAD_DAYS + 1
      invariant (first + day) * DAY_MINUTES <= cursor < (first + day + 1) * DAY_MINUTES
      invariant LeastMatch(f, from, end) == LeastMatch(f, cursor, end)
    {
      MinuteInDay(cursor, first + day);
      var today := DayOfMinute(cursor);
      var found := ScanDay(f, cursor, today);
      DayWithinSearch(from, today, if found.Some? then found.value else cursor);
      if found.Some? {
        FoundIsLeast(f, cursor, found.value, end);
        return found;
      }
      SkipUnmatched(f, cursor, (today + 1) * DAY_MINUTES, end);
      cursor := (today + 1) * DAY_MINUTES;
    }
    NothingLeft(f, cursor, end);
    r := None;
  }

  method NextCronRun(expr: string, after: int) returns (r: Called<Option<int>>)
    ensures r == NextCron(expr, after)
  {
    var f := ParseCron(expr);
    if f.Threw? {
      return Threw;
    }
    if f.value.None? {
      return Returned(None);
    }
    var m := SearchDays(f.value.value, FirstMinute(after));
    r := Returned(if m.Some? then Some(m.value * 60000) else None);
  }
}
