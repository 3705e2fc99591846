/**
 The Gregorian calendar of a local clock without daylight saving. A day is counted from 1970-01-01
 (day 0, a Thursday), a minute from that day's 00:00.
 */
module Calendar {
  datatype Date = Date(year: int, month: int, day: int)

  predicate Leap(year: int) {
    year % 4 == 0 && (year % 100 != 0 || year % 400 == 0)
  }

  function DaysInMonth(year: int, month: int): int {
    if month == 2 then (if Leap(year) then 29 else 28)
    else if month == 4 || month == 6 || month == 9 || month == 11 then 30
    else 31
  }

  predicate ValidDate(d: Date) {
    1 <= d.month <= 12 && 1 <= d.day <= DaysInMonth(d.year, d.month)
  }

  /** The calendar's own successor rule. */
  function NextDate(d: Date): Date {
    if d.day < DaysInMonth(d.year, d.month) then d.(day := d.day + 1)
    else if d.month < 12 then Date(d.year, d.month + 1, 1)
    else Date(d.year + 1, 1, 1)
  }

  function YearLength(year: int): int {
    if Leap(year) then 366 else 365
  }

  /** Days from 1970-01-01 to January 1 of a year. */
  function YearStart(year: int): int {
    365 * (year - 1970) + ((year - 1) / 4 - 492) - ((year - 1) / 100 - 19) + ((year - 1) / 400 - 4)
  }

  lemma YearStartStep(year: int)
    ensures YearStart(year + 1) == YearStart(year) + YearLength(year)
  {
    FloorStep(year, 4);
    FloorStep(year, 100);
    FloorStep(year, 400);
  }

  lemma FloorStep(year: int, k: int)
    requires k == 4 || k == 100 || k == 400
    ensures year / k == (year - 1) / k + (if year % k == 0 then 1 else 0)
  {
  }

  /** Days from January 1 to the first of a month; month 13 is the year's end. */
  function MonthStart(year: int, month: int): int
    requires 1 <= month <= 13
  {
    if month == 1 then 0 else MonthStart(year, month - 1) + DaysInMonth(year, month - 1)
  }

  function DayNumber(d: Date): int
    requires 1 <= d.month <= 12
  {
    YearStart(d.year) + MonthStart(d.year, d.month) + d.day - 1
  }

  /** The year that holds the day `left` days after January 1 of `year`. */
  function YearOf(year: int, left: int): (r: (int, int))
    ensures YearStart(r.0) + r.1 == YearStart(year) + left
    ensures 0 <= r.1 < YearLength(r.0)
    decreases if left < 0 then 1000 - left else left
  {
    YearStartStep(year);
    YearStartStep(year - 1);
    if left < 0 then YearOf(year - 1, left + YearLength(year - 1))
    else if left < YearLength(year) then (year, left)
    else YearOf(year + 1, left - YearLength(year))
  }

  function MonthOf(year: int, month: int, left: int): (r: (int, int))
    requires 1 <= month <= 12
    requires 0 <= left < MonthStart(year, 13) - MonthStart(year, month)
    ensures 1 <= r.0 <= 12 && 0 <= r.1 < DaysInMonth(year, r.0)
    ensures MonthStart(year, r.0) + r.1 == MonthStart(year, month) + left
    decreases 12 - month
  {
    if left < DaysInMonth(year, month) then (month, left)
    else MonthOf(year, month + 1, left - DaysInMonth(year, month))
  }

  lemma YearEnd(year: int)
    ensures MonthStart(year, 13) == YearLength(year)
  {
    var leap := if Leap(year) then 1 else 0;
    assert MonthStart(year, 2) == 31;
    assert MonthStart(year, 3) == 59 + leap;
    assert MonthStart(year, 4) == 90 + leap;
    assert MonthStart(year, 5) == 120 + leap;
    assert MonthStart(year, 6) == 151 + leap;
    assert MonthStart(year, 7) == 181 + leap;
    assert MonthStart(year, 8) == 212 + leap;
    assert MonthStart(year, 9) == 243 + leap;
    assert MonthStart(year, 10) == 273 + leap;
    assert MonthStart(year, 11) == 304 + leap;
    assert MonthStart(year, 12) == 334 + leap;
  }

  /** The date of a day number. */
  function DateInYear(year: int, left: int): (d: Date)
    requires 0 <= left < YearLength(year)
    ensures ValidDate(d) && d.year == year && MonthStart(year, d.month) + d.day - 1 == left
  {
    YearEnd(year);
    var m := MonthOf(year, 1, left);
    Date(year, m.0, m.1 + 1)
  }

  function DateOf(day: int): (d: Date)
    ensures ValidDate(d) && DayNumber(d) == day
  {
    var y := YearOf(1970, day);
    DateInYear(y.0, y.1)
  }

  lemma {:induction false} YearStartGrows(a: int, b: int)
    requires a < b
    ensures YearStart(a) + YearLength(a) <= YearStart(b)
    decreases b - a
  {
    YearStartStep(a);
    if a + 1 < b {
      YearStartGrows(a + 1, b);
    }
  }

  lemma {:induction false} MonthStartGrows(year: int, a: int, b: int)
    requires 1 <= a < b <= 13
    ensures MonthStart(year, a) + DaysInMonth(year, a) <= MonthStart(year, b)
    decreases b - a
  {
    if a + 1 < b {
      MonthStartGrows(year, a, b - 1);
    }
  }

  lemma DayInYear(d: Date)
    requires ValidDate(d)
    ensures YearStart(d.year) <= DayNumber(d) < YearStart(d.year) + YearLength(d.year)
  {
    YearEnd(d.year);
    MonthStartGrows(d.year, d.month, 13);
    if d.month > 1 {
      MonthStartGrows(d.year, 1, d.month);
    }
  }

  /** Two dates with one day number are the same date. */
  lemma DayNumberIsInjective(a: Date, b: Date)
    requires ValidDate(a) && ValidDate(b) && DayNumber(a) == DayNumber(b)
    ensures a == b
  {
    DayInYear(a);
    DayInYear(b);
    if a.year < b.year {
      YearStartGrows(a.year, b.year);
    } else if b.year < a.year {
      YearStartGrows(b.year, a.year);
    } else if a.month < b.month {
      MonthStartGrows(a.year, a.month, b.month);
    } else if b.month < a.month {
      MonthStartGrows(a.year, b.month, a.month);
    }
  }

  lemma NextDateIsNextDay(d: Date)
    requires ValidDate(d)
    ensures ValidDate(NextDate(d)) && DayNumber(NextDate(d)) == DayNumber(d) + 1
  {
    YearStartStep(d.year);
    YearEnd(d.year);
  }

  /** The day numbering is the Gregorian calendar: each day is followed by its calendar successor. */
  lemma DaysFollowTheCalendar(day: int)
    ensures DateOf(day + 1) == NextDate(DateOf(day))
  {
    NextDateIsNextDay(DateOf(day));
    DayNumberIsInjective(DateOf(day + 1), NextDate(DateOf(day)));
  }

  lemma EpochIsDayZero()
    ensures DayNumber(Date(1970, 1, 1)) == 0
  {
  }

  lemma NumberedDate(d: Date, numbered: Date)
    requires ValidDate(d) && numbered == DateOf(DayNumber(d))
    ensures numbered == d
  {
    DayNumberIsInjective(numbered, d);
  }

  /** Every valid date is the date of its day number, and the numbering starts at the epoch. */
  lemma EveryDateHasItsDay(d: Date)
    requires ValidDate(d)
    ensures DateOf(DayNumber(d)) == d
    ensures d == Date(1970, 1, 1) ==> DayNumber(d) == 0
  {
    EpochIsDayZero();
    NumberedDate(d, DateOf(DayNumber(d)));
  }

  /** 0 is Sunday. */
  function WeekdayOf(day: int): int {
    (day + 4) % 7
  }

  /** The epoch was a Thursday, and each day is followed by the next day of the week. */
  lemma WeekdaysGoRound(day: int)
    ensures WeekdayOf(0) == 4 && 0 <= WeekdayOf(day) <= 6
    ensures WeekdayOf(day + 1) == if WeekdayOf(day) == 6 then 0 else WeekdayOf(day) + 1
  {
  }

  // ---- Minutes ----

  const DAY_MINUTES := 1440

  function DayOfMinute(m: int): (day: int)
    ensures day * DAY_MINUTES <= m < (day + 1) * DAY_MINUTES
  {
    m / DAY_MINUTES
  }

  function HourOf(m: int): int { (m - DayOfMinute(m) * DAY_MINUTES) / 60 }

  function MinuteOf(m: int): int { (m - DayOfMinute(m) * DAY_MINUTES) % 60 }

  lemma MinuteInDay(m: int, day: int)
    requires day * DAY_MINUTES <= m < (day + 1) * DAY_MINUTES
    ensures DayOfMinute(m) == day
  {
  }

  /** The clock shows hour and minute of the day. */
  lemma ClockShows(day: int, hour: int, minute: int)
    requires 0 <= hour <= 23 && 0 <= minute <= 59
    ensures var m := day * DAY_MINUTES + hour * 60 + minute;
            DayOfMinute(m) == day && HourOf(m) == hour && MinuteOf(m) == minute
  {
    MinuteInDay(day * DAY_MINUTES + hour * 60 + minute, day);
  }

  /** The minute that a time in milliseconds falls in. */
  function MinuteFloor(ms: int): (m: int)
    ensures m * 60000 <= ms < (m + 1) * 60000
  {
    ms / 60000
  }
}
