/** The proleptic Gregorian calendar that `datetime` counts by; day 1 is 1 January of year 1. */
module Calendar {
  datatype Date = Date(year: int, month: int, day: int)

  predicate IsLeap(year: int)
  {
    year % 4 == 0 && (year % 100 != 0 || year % 400 == 0)
  }

  /** Days of a month in a year that is not a leap year. */
  function CommonDays(month: int): (days: int)
    ensures 28 <= days <= 31
  {
    if month == 2 then 28 else if month in {4, 6, 9, 11} then 30 else 31
  }

  function DaysIn(year: int, month: int): (days: int)
    ensures 28 <= days <= 31
  {
    if month == 2 && IsLeap(year) then 29 else CommonDays(month)
  }

  predicate ValidDate(d: Date)
  {
    1 <= d.year && 1 <= d.month <= 12 && 1 <= d.day <= DaysIn(d.year, d.month)
  }

  function DaysBeforeYear(year: int): int
    requires year >= 1
  {
    var y := year - 1;
    y * 365 + y / 4 - y / 100 + y / 400
  }

  lemma QuotientSteps(year: int)
    ensures year / 4 - (year - 1) / 4 == if year % 4 == 0 then 1 else 0
    ensures year / 100 - (year - 1) / 100 == if year % 100 == 0 then 1 else 0
    ensures year / 400 - (year - 1) / 400 == if year % 400 == 0 then 1 else 0
  {}

  lemma TimesDivides(n: int, unit: int)
    requires unit == 4 || unit == 100
    ensures n * unit % unit == 0
  {}

  lemma MultiplesNest(year: int)
    ensures year % 400 == 0 ==> year % 100 == 0
    ensures year % 100 == 0 ==> year % 4 == 0
  {
    if year % 400 == 0 { TimesDivides(year / 400 * 4, 100); }
    if year % 100 == 0 { TimesDivides(year / 100 * 25, 4); }
  }

  lemma YearLength(year: int)
    requires year >= 1
    ensures DaysBeforeYear(year + 1) - DaysBeforeYear(year) == if IsLeap(year) then 366 else 365
  {
    QuotientSteps(year);
    MultiplesNest(year);
  }

  function DaysBeforeMonth(year: int, month: int): int
    requires 1 <= month <= 13
    decreases month
  {
    if month == 1 then 0 else DaysBeforeMonth(year, month - 1) + DaysIn(year, month - 1)
  }

  lemma MonthsFillYear(year: int)
    requires year >= 1
    ensures DaysBeforeMonth(year, 13) == DaysBeforeYear(year + 1) - DaysBeforeYear(year)
  {
    YearLength(year);
    assert DaysBeforeMonth(year, 4) == 31 + DaysIn(year, 2) + 31;
    assert DaysBeforeMonth(year, 7) == DaysBeforeMonth(year, 4) + 91;
    assert DaysBeforeMonth(year, 10) == DaysBeforeMonth(year, 7) + 92;
    assert DaysBeforeMonth(year, 13) == DaysBeforeMonth(year, 10) + 92;
  }

  function Ordinal(d: Date): int
    requires ValidDate(d)
  {
    DaysBeforeYear(d.year) + DaysBeforeMonth(d.year, d.month) + d.day
  }

  function YearFrom(n: int, year: int): (r: int)
    requires year >= 1 && DaysBeforeYear(year) < n
    ensures r >= year && DaysBeforeYear(r) < n <= DaysBeforeYear(r + 1)
    decreases n - DaysBeforeYear(year)
  {
    YearLength(year);
    if n <= DaysBeforeYear(year + 1) then year else YearFrom(n, year + 1)
  }

  function MonthFrom(year: int, n: int, month: int): (r: int)
    requires year >= 1 && 1 <= month <= 12
    requires DaysBeforeMonth(year, month) < n <= DaysBeforeMonth(year, 13)
    ensures month <= r <= 12 && DaysBeforeMonth(year, r) < n <= DaysBeforeMonth(year, r + 1)
    decreases 13 - month
  {
    if n <= DaysBeforeMonth(year, month + 1) then month else MonthFrom(year, n, month + 1)
  }

  /** The date of a day number. */
  function DateOf(n: int): (d: Date)
    requires n >= 1
    ensures ValidDate(d) && Ordinal(d) == n
  {
    var year := YearFrom(n, 1);
    var inYear := n - DaysBeforeYear(year);
    MonthsFillYear(year);
    var month := MonthFrom(year, inYear, 1);
    Date(year, month, inYear - DaysBeforeMonth(year, month))
  }

  lemma {:induction false} YearsGrow(a: int, b: int)
    requires 1 <= a <= b
    ensures DaysBeforeYear(a) <= DaysBeforeYear(b)
    decreases b - a
  {
    if a < b {
      YearLength(b - 1);
      YearsGrow(a, b - 1);
    }
  }

  lemma {:induction false} MonthsGrow(year: int, a: int, b: int)
    requires 1 <= a <= b <= 13
    ensures DaysBeforeMonth(year, a) <= DaysBeforeMonth(year, b)
    decreases b - a
  {
    if a < b {
      MonthsGrow(year, a, b - 1);
    }
  }

  lemma DateInYear(d: Date)
    requires ValidDate(d)
    ensures DaysBeforeYear(d.year) < Ordinal(d) <= DaysBeforeYear(d.year + 1)
    ensures DaysBeforeMonth(d.year, d.month) + d.day <= DaysBeforeMonth(d.year, d.month + 1)
  {
    MonthsFillYear(d.year);
    MonthsGrow(d.year, d.month + 1, 13);
    MonthsGrow(d.year, 1, d.month);
  }

  /** Day numbers and valid dates are the same thing: no two dates share a number. */
  lemma OrdinalInjective(c: Date, d: Date)
    requires ValidDate(c) && ValidDate(d) && Ordinal(c) == Ordinal(d)
    ensures c == d
  {
    hide DaysBeforeYear, DaysBeforeMonth, DaysIn;
    DateInYear(c);
    DateInYear(d);
    if c.year < d.year { YearsGrow(c.year + 1, d.year); }
    if d.year < c.year { YearsGrow(d.year + 1, c.year); }
    if c.month < d.month { MonthsGrow(c.year, c.month + 1, d.month); }
    if d.month < c.month { MonthsGrow(c.year, d.month + 1, c.month); }
  }

  lemma NextYearIsNear(d: Date, target: Date)
    requires ValidDate(d) && ValidDate(target) && target.year == d.year + 1
    ensures Ordinal(d) < Ordinal(target) < Ordinal(d) + 731
  {
    hide DaysBeforeYear, DaysBeforeMonth, Ordinal;
    DateInYear(d);
    DateInYear(target);
    YearLength(d.year);
    YearLength(d.year + 1);
  }

  lemma YearBetween(d: Date, first: int, next: int)
    requires ValidDate(d) && 1 <= first <= next && DaysBeforeYear(first) < Ordinal(d) <= DaysBeforeYear(next)
    ensures first <= d.year < next
  {
    hide DaysBeforeYear, DaysBeforeMonth, Ordinal;
    DateInYear(d);
    if d.year < first { YearsGrow(d.year + 1, first); }
    if d.year >= next { YearsGrow(next, d.year); }
  }

  /** The months, written out. */
  lemma MonthLengths(year: int, month: int)
    requires 1 <= month <= 12
    ensures DaysIn(year, month)
         == [31, if year % 4 == 0 && (year % 100 != 0 || year % 400 == 0) then 29
             else 28, 31, 30, 31, 30, 31, 31, 30, 31,
             30, 31][month - 1]
  {}

  /** Day numbers count days: the next day has the next number, and the first day has the first. */
  lemma NextDay(d: Date)
    requires ValidDate(d)
    ensures var next := if d.day < DaysIn(d.year, d.month) then Date(d.year, d.month, d.day + 1)
                        else if d.month < 12 then Date(d.year, d.month + 1, 1) else Date(d.year + 1, 1, 1);
            ValidDate(next) && Ordinal(next) == Ordinal(d) + 1
    ensures Ordinal(Date(1, 1, 1)) == 1
  {
    hide DaysIn, DaysBeforeYear;
    MonthsFillYear(d.year);
    FirstDay();
  }

  lemma FirstDay()
    ensures DaysBeforeYear(1) == 0
  {}
}
