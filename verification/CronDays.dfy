/** What the two day columns of a schedule mean for its runs. */
module CronDays {
  import opened Basics
  import opened Calendar
  import opened CronFields
  import opened CronRun

  /** The months and the day columns list this day: with no day column restricted every day of the month
      is listed, else a restricted column must list it. */
  predicate Lists(f: CronFields, date: Date, weekday: int) {
    && date.month in f.months
    && ((!f.domRestricted && !f.dowRestricted) || (f.domRestricted && date.day in f.daysOfMonth)
        || (f.dowRestricted && weekday in f.daysOfWeek))
  }

  /** A schedule runs at a minute exactly when it lists the date, the hour and the minute. */
  lemma RunsAtExactly(f: CronFields, day: int, hour: int, minute: int)
    requires 0 <= hour <= 23 && 0 <= minute <= 59
    ensures Matches(f, day * DAY_MINUTES + hour * 60 + minute) <==>
            Lists(f, DateOf(day), (day + 4) % 7) && hour in f.hours && minute in f.minutes
  {
    ClockShows(day, hour, minute);
  }

  function Earlier(a: Option<int>, b: Option<int>): Option<int> {
    if a.None? then b else if b.None? then a else Some(if a.value <= b.value then a.value else b.value)
  }

  lemma LeastOfEither(kind: int -> bool, a: int -> bool, b: int -> bool, lo: int, hi: int)
    requires forall m :: kind(m) <==> a(m) || b(m)
    ensures LeastOf(kind, lo, hi) == Earlier(LeastOf(a, lo, hi), LeastOf(b, lo, hi))
  {
    LeastIsUnique(kind, lo, Earlier(LeastOf(a, lo, hi), LeastOf(b, lo, hi)), hi);
  }

  lemma LeastOfSame(a: int -> bool, b: int -> bool, lo: int, hi: int)
    requires forall m :: a(m) <==> b(m)
    ensures LeastOf(a, lo, hi) == LeastOf(b, lo, hi)
  {
    LeastIsUnique(a, lo, LeastOf(b, lo, hi), hi);
  }

  /** With both day columns restricted, the next run is the earlier of those of the two schedules that
      go by one of them alone. */
  lemma EitherDayColumn(f: CronFields, after: int)
    requires f.domRestricted && f.dowRestricted
    ensures NextRun(f, after) ==
            Earlier(NextRun(f.(dowRestricted := false), after), NextRun(f.(domRestricted := false), after))
  {
    var byDate, byWeekday := f.(dowRestricted := false), f.(domRestricted := false);
    var lo, hi := FirstMinute(after), SearchEnd(FirstMinute(after));
    LeastOfEither(Matching(f), Matching(byDate), Matching(byWeekday), lo, hi);
  }

  /** A day column that does not restrict has no say. */
  lemma FreeColumnHasNoSay(f: CronFields, days: seq<int>, after: int)
    ensures !f.domRestricted ==> NextRun(f.(daysOfMonth := days), after) == NextRun(f, after)
    ensures !f.dowRestricted ==> NextRun(f.(daysOfWeek := days), after) == NextRun(f, after)
  {
    var lo, hi := FirstMinute(after), SearchEnd(FirstMinute(after));
    if !f.domRestricted {
      LeastOfSame(Matching(f.(daysOfMonth := days)), Matching(f), lo, hi);
    }
    if !f.dowRestricted {
      LeastOfSame(Matching(f.(daysOfWeek := days)), Matching(f), lo, hi);
    }
  }

  lemma NextMidnightIsNext(f: CronFields, day: int, after: int)
    requires f.minutes == [0] && f.hours == [0] && Matches(f, (day + 1) * DAY_MINUTES)
    requires MinuteFloor(after) == day * DAY_MINUTES
    ensures NextRun(f, after) == Some((day + 1) * DAY_MINUTES * 60000)
  {
    var lo, m := day * DAY_MINUTES + 1, (day + 1) * DAY_MINUTES;
    forall k | lo <= k < m
      ensures !Matches(f, k)
    {
      MinuteInDay(k, day);
    }
    FoundIsLeast(f, lo, m, SearchEnd(lo));
  }

  /** `0 0 13 * 5` at the first minute of a twelfth runs next on the thirteenth, also when that is no
      Friday and the twelfth was one. */
  lemma TheThirteenthIsNext(months: seq<int>, date: Date, day: int, after: int)
    requires DateOf(day + 1) == date && date.day == 13 && date.month in months
    requires MinuteFloor(after) == day * DAY_MINUTES
    ensures NextRun(CronFields([0], [0], [13], months, [5], true, true), after)
            == Some((day + 1) * DAY_MINUTES * 60000)
  {
    var f := CronFields([0], [0], [13], months, [5], true, true);
    RunsAtExactly(f, day + 1, 0, 0);
    NextMidnightIsNext(f, day, after);
  }

  /** Sunday is 0, whether it was written 0 or 7; the other days stay as they are. */
  lemma SundayIsZero(days: seq<int>, v: int)
    requires forall d :: d in days ==> 0 <= d <= 7
    ensures v in SundayAsZero(days) <==> (v in days && v != 7) || (v == 0 && 7 in days)
  {
    var mapped := set d | d in days :: if d == 7 then 0 else d;
    assert v in SundayAsZero(days) <==> v in mapped && 0 <= v <= 6;
    if v in days {
      assert (if v == 7 then 0 else v) in mapped;
    }
    if 7 in days {
      assert (if 7 == 7 then 0 else 7) in mapped;
    }
  }
}
