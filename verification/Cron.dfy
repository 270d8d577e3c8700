/** Cron matching and the search for the next time (cron.py), in a zone with a fixed offset. */
module Cron {
  import opened Common
  import opened Calendar

  datatype CronSpec = CronSpec(minutes: set<int>, hours: set<int>, days: set<int>, months: set<int>, weekdays: set<int>)

  const MICROS_PER_MINUTE: int := 60_000_000
  const MINUTES_PER_DAY: int := 1440
  const WINDOW_MINUTES: int := 366 * 2 * MINUTES_PER_DAY
  const ALL_WEEKDAYS: set<int> := set w | 0 <= w < 7
  const ALL_DAYS: set<int> := set d | 1 <= d <= 31

  /** Python's `weekday()`: Monday is 0. */
  function Weekday(day: int): int
  {
    (day + 6) % 7
  }

  /** `_matches`, for a local time given as minutes since midnight before day 0. */
  predicate Matches(spec: CronSpec, local: int)
    requires local >= MINUTES_PER_DAY
  {
    var day := local / MINUTES_PER_DAY;
    var date := DateOf(day);
    var cronWeekday := (Weekday(day) + 1) % 7;
    && local % 60 in spec.minutes
    && local / 60 % 24 in spec.hours
    && date.day in spec.days
    && date.month in spec.months
    && cronWeekday in spec.weekdays
  }

  /** What every parsed specification satisfies. */
  predicate InRange(spec: CronSpec)
  {
    && spec.minutes != {} && (forall v <- spec.minutes :: 0 <= v <= 59)
    && spec.hours != {} && (forall v <- spec.hours :: 0 <= v <= 23)
    && spec.days != {} && (forall v <- spec.days :: 1 <= v <= 31)
    && spec.months != {} && (forall v <- spec.months :: 1 <= v <= 12)
    && spec.weekdays != {} && (forall v <- spec.weekdays :: 0 <= v <= 6)
  }

  /** The minute the search starts at: seconds cut off, one minute added. */
  function FirstMinute(after: int, offset: int): (first: int)
    ensures after + offset < first * MICROS_PER_MINUTE <= after + offset + MICROS_PER_MINUTE
  {
    (after + offset) / MICROS_PER_MINUTE + 1
  }

  /** The instant of a local minute, in UTC microseconds. */
  function ToUtc(local: int, offset: int): int
  {
    local * MICROS_PER_MINUTE - offset
  }

  function FirstMatch(spec: CronSpec, local: int, limit: int): (r: Option<int>)
    requires local >= MINUTES_PER_DAY
    ensures r.Some? ==> local <= r.value <= limit && Matches(spec, r.value)
    ensures forall m :: local <= m <= limit && (r.Some? ==> m < r.value) ==> !Matches(spec, m)
    decreases limit - local
  {
    if local > limit then None
    else if Matches(spec, local) then Some(local)
    else FirstMatch(spec, local + 1, limit)
  }

  /** The next firing after an instant, in UTC microseconds; nothing where the source raises. */
  function FireAfter(spec: CronSpec, after: int, offset: int): Option<int>
  {
    var first := FirstMinute(after, offset);
    var m := if first < MINUTES_PER_DAY then None else FirstMatch(spec, first, first + WINDOW_MINUTES);
    if m.None? then None else Some(ToUtc(m.value, offset))
  }

  // The same on the clock and the calendar, without the search.

  ghost predicate ClockTime(d: Date, hour: int, minute: int)
  {
    ValidDate(d) && 0 <= hour < 24 && 0 <= minute < 60
  }

  function LocalMinute(d: Date, hour: int, minute: int): int
    requires ValidDate(d)
  {
    Ordinal(d) * 1440 + hour * 60 + minute
  }

  /** The five fields admit a date and time. Day 1 was a Monday, and weekday 0 is Sunday. */
  predicate Allowed(spec: CronSpec, d: Date, hour: int, minute: int)
    requires ValidDate(d)
  {
    && minute in spec.minutes && hour in spec.hours
    && d.day in spec.days && d.month in spec.months && Ordinal(d) % 7 in spec.weekdays
  }

  /** An instant at which the schedule fires: an admitted local date and time, as UTC microseconds. */
  ghost predicate Tick(spec: CronSpec, offset: int, t: int)
  {
    exists d, hour, minute :: ClockTime(d, hour, minute)
                              && LocalMinute(d, hour, minute) * 60_000_000 - offset == t
                              && Allowed(spec, d, hour, minute)
  }

  /** `_matches` compares exactly the five fields of the date and time. */
  lemma MatchesExactly(spec: CronSpec, d: Date, hour: int, minute: int)
    requires ClockTime(d, hour, minute)
    ensures LocalMinute(d, hour, minute) >= MINUTES_PER_DAY
    ensures Matches(spec, LocalMinute(d, hour, minute)) <==> Allowed(spec, d, hour, minute)
  {
    hide DaysBeforeYear, DaysBeforeMonth, DateOf, DaysIn;
    DateInYear(d);
    FirstYear(d.year);
    hide Ordinal;
    ClockFields(Ordinal(d), hour, minute);
    OrdinalInjective(DateOf(Ordinal(d)), d);
  }

  lemma FirstYear(year: int)
    requires year >= 1
    ensures DaysBeforeYear(year) >= 0
  {
    YearsGrow(1, year);
  }

  /** Every minute from day 1 on has a date and time. */
  lemma MinuteHasClockTime(m: int) returns (d: Date, hour: int, minute: int)
    requires m >= MINUTES_PER_DAY
    ensures ClockTime(d, hour, minute) && LocalMinute(d, hour, minute) == m
  {
    hide Ordinal, DateOf, DaysIn;
    d, hour, minute := DateOf(m / MINUTES_PER_DAY), m / 60 % 24, m % 60;
    assert m / 60 / 24 == m / MINUTES_PER_DAY;
  }

  lemma MatchIsTick(spec: CronSpec, offset: int, m: int)
    requires m >= MINUTES_PER_DAY && Matches(spec, m)
    ensures Tick(spec, offset, ToUtc(m, offset))
  {
    var d, hour, minute := MinuteHasClockTime(m);
    MatchesExactly(spec, d, hour, minute);
    hide Matches, Ordinal, DaysIn, Allowed;
  }

  lemma TickIsMatch(spec: CronSpec, offset: int, t: int) returns (m: int)
    requires Tick(spec, offset, t)
    ensures m >= MINUTES_PER_DAY && ToUtc(m, offset) == t && Matches(spec, m)
  {
    hide Ordinal, DaysIn, Matches;
    var d, hour, minute :| ClockTime(d, hour, minute)
                           && LocalMinute(d, hour, minute) * 60_000_000 - offset == t && Allowed(spec, d, hour, minute);
    MatchesExactly(spec, d, hour, minute);
    m := LocalMinute(d, hour, minute);
  }

  /** The next firing is a tick, lies after the instant, and is the first one that does. */
  lemma FireAfterIsNextTick(spec: CronSpec, after: int, offset: int)
    requires FireAfter(spec, after, offset).Some?
    ensures var t := FireAfter(spec, after, offset).value;
            && after < t && Tick(spec, offset, t)
            && forall u :: after < u < t ==> !Tick(spec, offset, u)
  {
    hide *;
    var m := FireAfterIsFirst(spec, after, offset);
    MatchIsTick(spec, offset, m);
    forall u | after < u < ToUtc(m, offset) ensures !Tick(spec, offset, u) {
      if Tick(spec, offset, u) {
        var k := TickIsMatch(spec, offset, u);
        LaterMinute(k, m, offset);
        FirstAfter(k, after, offset);
      }
    }
  }

  /** The minute the search finds, and that no earlier one of its window matches. */
  lemma FireAfterIsFirst(spec: CronSpec, after: int, offset: int) returns (m: int)
    requires FireAfter(spec, after, offset).Some?
    ensures m >= MINUTES_PER_DAY && ToUtc(m, offset) == FireAfter(spec, after, offset).value && Matches(spec, m)
    ensures after < ToUtc(m, offset)
    ensures forall k :: FirstMinute(after, offset) <= k < m ==> k >= MINUTES_PER_DAY && !Matches(spec, k)
  {
    hide Matches;
    var first := FirstMinute(after, offset);
    m := FirstMatch(spec, first, first + WINDOW_MINUTES).value;
  }

  lemma LaterMinute(k: int, m: int, offset: int)
    ensures ToUtc(k, offset) < ToUtc(m, offset) <==> k < m
  {}

  lemma FirstAfter(k: int, after: int, offset: int)
    ensures after < ToUtc(k, offset) <==> FirstMinute(after, offset) <= k
  {}

  /**
   * The search of `next_cron_time`, minute by minute. It returns the first instant after `after` whose local date and
   * time the five fields admit, and finds nothing (the source raises) exactly when they admit none of the window.
   */
  method NextCronTime(spec: CronSpec, after: int, offset: int) returns (next: Option<int>)
    requires FirstMinute(after, offset) >= MINUTES_PER_DAY
    ensures next == FireAfter(spec, after, offset)
    ensures next.Some? ==> after < next.value && Tick(spec, offset, next.value)
    ensures next.Some? ==> forall u :: after < u < next.value ==> !Tick(spec, offset, u)
    ensures next.None? <==> !FiresFrom(spec, FirstMinute(after, offset))
  {
    hide Matches, Tick, FiresFrom;
    var first := FirstMinute(after, offset);
    var local := first;
    var limit := local + WINDOW_MINUTES;
    FailsExactlyWhen(spec, after, offset);
    while local <= limit
      invariant first <= local <= limit + 1
      invariant FirstMatch(spec, first, limit) == FirstMatch(spec, local, limit)
    {
      if Matches(spec, local) {
        FireAfterIsNextTick(spec, after, offset);
        return Some(ToUtc(local, offset));
      }
      local := local + 1;
    }
    return None;
  }

  lemma FailsExactlyWhen(spec: CronSpec, after: int, offset: int)
    requires FirstMinute(after, offset) >= MINUTES_PER_DAY
    ensures FireAfter(spec, after, offset).None? <==> !FiresFrom(spec, FirstMinute(after, offset))
  {
    hide Matches, Ordinal, DaysIn, Allowed;
    var first := FirstMinute(after, offset);
    if FiresFrom(spec, first) {
      var d, hour, minute :| ClockTime(d, hour, minute)
                             && first <= LocalMinute(d, hour, minute) <= first + 366 * 2 * 1440
                             && Allowed(spec, d, hour, minute);
      MatchesExactly(spec, d, hour, minute);
    }
    if FireAfter(spec, after, offset).Some? {
      var m := FirstMatch(spec, first, first + WINDOW_MINUTES).value;
      var d, hour, minute := MinuteHasClockTime(m);
      MatchesExactly(spec, d, hour, minute);
    }
  }

  /** Some date and time within two years of 366 days is admitted. */
  ghost predicate FiresFrom(spec: CronSpec, first: int)
  {
    exists d, hour, minute :: ClockTime(d, hour, minute)
                              && first <= LocalMinute(d, hour, minute) <= first + 366 * 2 * 1440
                              && Allowed(spec, d, hour, minute)
  }

  ghost function Pick(values: set<int>): (v: int)
    requires values != {}
    ensures v in values
  {
    assert (forall v :: v !in values) ==> values == {};
    var v :| v in values;
    v
  }

  /** A matching date in the year after the search starts is inside the window. */
  lemma NextYearFires(spec: CronSpec, first: int, month: int, day: int)
    requires InRange(spec) && first >= MINUTES_PER_DAY
    requires month in spec.months && day in spec.days
    requires var year := DateOf(first / MINUTES_PER_DAY).year + 1;
             ValidDate(Date(year, month, day)) && Ordinal(Date(year, month, day)) % 7 in spec.weekdays
    ensures FiresFrom(spec, first)
  {
    hide DaysBeforeYear, DaysBeforeMonth, DateOf, Ordinal, DaysIn, Weekday;
    var today := DateOf(first / MINUTES_PER_DAY);
    var target := Date(today.year + 1, month, day);
    NextYearIsNear(today, target);
    var hour, minute := Pick(spec.hours), Pick(spec.minutes);
    assert ClockTime(target, hour, minute) && Allowed(spec, target, hour, minute);
  }

  lemma ClockFields(day: int, hour: int, minute: int)
    requires 0 <= hour < 24 && 0 <= minute < 60
    ensures var m := day * MINUTES_PER_DAY + hour * 60 + minute;
            m / MINUTES_PER_DAY == day && m % 60 == minute && m / 60 % 24 == hour
    ensures (Weekday(day) + 1) % 7 == day % 7
  {
    var m := day * MINUTES_PER_DAY + hour * 60 + minute;
    assert m / 60 == day * 24 + hour;
  }

  /** With days of the month unrestricted the search never fails. */
  lemma AnyDayFires(spec: CronSpec, first: int)
    requires InRange(spec) && spec.days == ALL_DAYS && first >= MINUTES_PER_DAY
    ensures FiresFrom(spec, first)
  {
    hide DaysBeforeYear, DaysBeforeMonth, DateOf, DaysIn, Ordinal;
    var month, weekday := Pick(spec.months), Pick(spec.weekdays);
    var year := DateOf(first / MINUTES_PER_DAY).year + 1;
    var firstOfMonth := Ordinal(Date(year, month, 1));
    var day := 1 + (weekday - firstOfMonth) % 7;
    SameMonth(year, month, day);
    assert (firstOfMonth + (weekday - firstOfMonth) % 7) % 7 == weekday;
    NextYearFires(spec, first, month, day);
  }

  lemma SameMonth(year: int, month: int, day: int)
    requires year >= 1 && 1 <= month <= 12 && 1 <= day <= 28
    ensures ValidDate(Date(year, month, 1)) && ValidDate(Date(year, month, day))
    ensures Ordinal(Date(year, month, day)) == Ordinal(Date(year, month, 1)) + day - 1
  {}

  /** Some allowed day exists in some allowed month of every year. */
  predicate DayInEveryYear(spec: CronSpec)
  {
    exists month <- spec.months :: exists day <- spec.days :: day <= CommonDays(month)
  }

  /** The first minute of 2097: the next leap day is seven years away. */
  const START_OF_2097: int := 765550 * MINUTES_PER_DAY

  lemma CommonYears(date: Date)
    requires ValidDate(date) && 765549 < Ordinal(date) <= 765549 + 3 * 365
    ensures date.day <= CommonDays(date.month)
  {
    hide Ordinal;
    assert DaysBeforeYear(2097) == 765549 && DaysBeforeYear(2100) == 765549 + 3 * 365;
    YearBetween(date, 2097, 2100);
    assert !IsLeap(2097) && !IsLeap(2098) && !IsLeap(2099);
  }

  /** With weekdays unrestricted, the search succeeds from every start exactly when an allowed day occurs every year. */
  lemma AnyWeekdayFiresExactlyWhen(spec: CronSpec)
    requires InRange(spec) && spec.weekdays == ALL_WEEKDAYS
    ensures (forall first :: first >= MINUTES_PER_DAY ==> FiresFrom(spec, first)) <==> DayInEveryYear(spec)
  {
    if DayInEveryYear(spec) {
      var month :| month in spec.months && exists day <- spec.days :: day <= CommonDays(month);
      var day :| day in spec.days && day <= CommonDays(month);
      forall first | first >= MINUTES_PER_DAY ensures FiresFrom(spec, first) {
        NextYearFires(spec, first, month, day);
      }
    } else {
      assert !FiresFrom(spec, START_OF_2097) by {
        forall d, hour, minute | ClockTime(d, hour, minute)
                                 && START_OF_2097 <= LocalMinute(d, hour, minute) <= START_OF_2097 + 366 * 2 * 1440
          ensures !Allowed(spec, d, hour, minute)
        {
          CommonYears(d);
        }
      }
    }
  }
}
