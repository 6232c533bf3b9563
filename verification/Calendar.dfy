/**
 The proleptic Gregorian calendar in a zone with a fixed offset, as the time
 package applies it for the cron engine.  Day 0 is Monday, 1 January of year 1.
 */
module Calendar {

  const MINUTES_PER_DAY := 1440

  datatype Date = Date(year: int, month: int, day: int)

  predicate IsLeap(y: int) {
    y % 4 == 0 && (y % 100 != 0 || y % 400 == 0)
  }

  function YearLength(y: int): int {
    if IsLeap(y) then 366 else 365
  }

  /** The number of days between 1 January of year 1 and 1 January of year y. */
  function DaysBeforeYear(y: int): int {
    365 * (y - 1) + (y - 1) / 4 - (y - 1) / 100 + (y - 1) / 400
  }

  lemma DaysBeforeNextYear(y: int)
    ensures DaysBeforeYear(y + 1) == DaysBeforeYear(y) + YearLength(y)
  {
    QuotientStep(y, 4);
    QuotientStep(y, 100);
    QuotientStep(y, 400);
    CenturiesNest(y);
  }

  lemma CenturiesNest(y: int)
    ensures y % 400 == 0 ==> y % 100 == 0
    ensures y % 100 == 0 ==> y % 4 == 0
  {
    if y % 400 == 0 {
      MultipleOf400(y / 400);
    }
    if y % 100 == 0 {
      MultipleOf100(y / 100);
    }
  }

  lemma MultipleOf400(q: int)
    ensures 400 * q % 100 == 0
  {
  }

  lemma MultipleOf100(q: int)
    ensures 100 * q % 4 == 0
  {
  }

  lemma LeapYearsApart(y: int)
    ensures !(IsLeap(y) && IsLeap(y + 1))
  {
    assert !(y % 4 == 0 && (y + 1) % 4 == 0);
  }

  lemma QuotientStep(y: int, k: int)
    requires k == 4 || k == 100 || k == 400
    ensures y / k == (y - 1) / k + (if y % k == 0 then 1 else 0)
  {
    if k == 4 {
    } else if k == 100 {
    } else {
    }
  }

  lemma {:induction false} DaysBeforeYearMonotone(y: int, z: int)
    requires y <= z
    ensures DaysBeforeYear(y) + 365 * (z - y) <= DaysBeforeYear(z)
    decreases z - y
  {
    if y < z {
      DaysBeforeNextYear(z - 1);
      DaysBeforeYearMonotone(y, z - 1);
    }
  }

  /** The year a day falls in: an estimate from the mean year length, put right by at most one. */
  function YearOf(n: int): (y: int)
    ensures DaysBeforeYear(y) <= n < DaysBeforeYear(y + 1)
  {
    var estimate := n * 400 / 146097 + 1;
    EstimateIsClose(n);
    if n < DaysBeforeYear(estimate) then estimate - 1
    else if DaysBeforeYear(estimate + 1) <= n then estimate + 1
    else estimate
  }

  lemma EstimateIsClose(n: int)
    ensures var e := n * 400 / 146097 + 1;
            DaysBeforeYear(e - 1) <= n < DaysBeforeYear(e + 2)
  {
    var q := n * 400 / 146097;
    assert 146097 * q <= 400 * n < 146097 * (q + 1);
    // k years hold 365.2425 * k days, give or take less than two.
    assert 400 * DaysBeforeYear(q) <= 400 * n;
    assert 400 * n < 400 * DaysBeforeYear(q + 3);
  }

  function MonthLength(y: int, m: int): int
    requires 1 <= m <= 12
  {
    if m == 2 then (if IsLeap(y) then 29 else 28)
    else if m == 4 || m == 6 || m == 9 || m == 11 then 30
    else 31
  }

  /** The number of days of year y before month m; month 13 stands for the end of the year. */
  function DaysBeforeMonth(y: int, m: int): (n: int)
    requires 1 <= m <= 13
    ensures 0 <= n
    ensures m == 13 ==> n == YearLength(y)
    ensures m <= 12 ==> n + MonthLength(y, m) <= YearLength(y)
  {
    var common := [0, 31, 59, 90, 120, 151, 181, 212, 243, 273, 304, 334, 365][m - 1];
    if m > 2 && IsLeap(y) then common + 1 else common
  }

  lemma DaysBeforeNextMonth(y: int, m: int)
    requires 1 <= m <= 12
    ensures DaysBeforeMonth(y, m + 1) == DaysBeforeMonth(y, m) + MonthLength(y, m)
  {
  }

  predicate ValidDate(d: Date) {
    1 <= d.month <= 12 && 1 <= d.day <= MonthLength(d.year, d.month)
  }

  function DayNumber(d: Date): (n: int)
    requires ValidDate(d)
    ensures DaysBeforeYear(d.year) <= n < DaysBeforeYear(d.year + 1)
  {
    DaysBeforeNextYear(d.year);
    DaysBeforeYear(d.year) + DaysBeforeMonth(d.year, d.month) + d.day - 1
  }

  /** Walks the months of year y until the one that holds day r of the year. */
  function MonthFrom(y: int, m: int, r: int): (d: Date)
    requires 1 <= m <= 12 && DaysBeforeMonth(y, m) <= r < YearLength(y)
    ensures d.year == y && ValidDate(d) && DaysBeforeMonth(y, d.month) + d.day - 1 == r
    decreases 12 - m
  {
    DaysBeforeNextMonth(y, m);
    if r < DaysBeforeMonth(y, m + 1) then Date(y, m, r - DaysBeforeMonth(y, m) + 1)
    else MonthFrom(y, m + 1, r)
  }

  function DateOf(n: int): (d: Date)
    ensures ValidDate(d) && DayNumber(d) == n
  {
    var y := YearOf(n);
    DaysBeforeNextYear(y);
    MonthFrom(y, 1, n - DaysBeforeYear(y))
  }

  lemma {:induction false} MonthsAreOrdered(y: int, m: int, k: int)
    requires 1 <= m < k <= 12
    ensures DaysBeforeMonth(y, m) + MonthLength(y, m) <= DaysBeforeMonth(y, k)
    decreases k
  {
    DaysBeforeNextMonth(y, k - 1);
    if m < k - 1 {
      MonthsAreOrdered(y, m, k - 1);
    }
  }

  lemma DayNumberIs(d: Date)
    requires ValidDate(d)
    ensures 1 <= d.month <= 12 && 1 <= d.day <= MonthLength(d.year, d.month)
    ensures DayNumber(d) == DaysBeforeYear(d.year) + DaysBeforeMonth(d.year, d.month) + d.day - 1
  {
    hide DaysBeforeYear, DaysBeforeMonth, MonthLength;
  }

  /** A day number names one date, so DateOf is the only reading of it. */
  lemma DateIsUnique(d: Date, e: Date)
    requires ValidDate(d) && ValidDate(e) && DayNumber(d) == DayNumber(e)
    ensures d == e
  {
    hide *;
    DayNumberIs(d);
    DayNumberIs(e);
    if d.year < e.year {
      DaysBeforeYearMonotone(d.year + 1, e.year);
    } else if e.year < d.year {
      DaysBeforeYearMonotone(e.year + 1, d.year);
    } else if d.month < e.month {
      MonthsAreOrdered(d.year, d.month, e.month);
    } else if e.month < d.month {
      MonthsAreOrdered(d.year, e.month, d.month);
    }
  }

  /** Sunday is 0. */
  function Weekday(n: int): (w: int)
    ensures 0 <= w <= 6
  {
    (n + 1) % 7
  }

  // ----- The weekday of a date -----

  /**
   The weekday by year, month and day alone: years and their leap days move it on,
   January and February count with the year before, and the table holds what the
   months before move it by.
   */
  function CivilWeekday(d: Date): (w: int)
    requires 1 <= d.month <= 12
    ensures 0 <= w <= 6
  {
    var y := if d.month <= 2 then d.year - 1 else d.year;
    (y + y / 4 - y / 100 + y / 400 + [0, 3, 2, 5, 0, 3, 5, 1, 4, 6, 2, 4][d.month - 1] + d.day) % 7
  }

  lemma SameModulo7(a: int, k: int)
    ensures (a + 7 * k) % 7 == a % 7
  {
  }

  /** The days of a year before a month, and what the table says of them. */
  lemma MonthsMoveWeekday(y: int, m: int) returns (k: int)
    requires 1 <= m <= 12
    ensures DaysBeforeMonth(y, m)
         == [0, 3, 2, 5, 0, 3, 5, 1, 4, 6, 2, 4][m - 1] + 7 * k
            + if m <= 2 then 0 else 1 + LeapIndicator(y)
  {
    k := [0, 4, 8, 12, 17, 21, 25, 30, 34, 38, 43, 47][m - 1];
  }

  /** The leap days up to a year. */
  lemma LeapDaysOfYear(y: int)
    ensures y / 4 - y / 100 + y / 400
         == (y - 1) / 4 - (y - 1) / 100 + (y - 1) / 400 + (if IsLeap(y) then 1 else 0)
  {
    QuotientStep(y, 4);
    QuotientStep(y, 100);
    QuotientStep(y, 400);
    CenturiesNest(y);
  }

  function LeapIndicator(y: int): int {
    if IsLeap(y) then 1 else 0
  }

  lemma CivilWeekdayIs(d: Date, leaps: int)
    requires 1 <= d.month <= 12 && leaps == (d.year - 1) / 4 - (d.year - 1) / 100 + (d.year - 1) / 400
    ensures var shift := [0, 3, 2, 5, 0, 3, 5, 1, 4, 6, 2, 4][d.month - 1];
      CivilWeekday(d)
      == (if d.month <= 2 then d.year - 1 + leaps + shift + d.day
          else d.year + leaps + LeapIndicator(d.year) + shift + d.day) % 7
  {
    LeapDaysOfYear(d.year);
  }

  lemma WeekdayIs(d: Date, leaps: int)
    requires ValidDate(d) && leaps == (d.year - 1) / 4 - (d.year - 1) / 100 + (d.year - 1) / 400
    ensures Weekday(DayNumber(d)) == (365 * (d.year - 1) + leaps + DaysBeforeMonth(d.year, d.month) + d.day) % 7
  {
    DayNumberIs(d);
    hide DaysBeforeMonth, ValidDate, DayNumber;
  }

  /** Whole weeks make no difference. */
  lemma WeeksApart(a: int, b: int, k: int)
    requires a == b + 7 * k
    ensures a % 7 == b % 7
  {
  }

  /** Counted from the day number, the weekday of every date is that of the calendar. */
  lemma WeekdayOfDate(d: Date)
    requires ValidDate(d)
    ensures Weekday(DayNumber(d)) == CivilWeekday(d)
  {
    var (y, leap, leaps) := (d.year, LeapIndicator(d.year), (d.year - 1) / 4 - (d.year - 1) / 100 + (d.year - 1) / 400);
    var shift := [0, 3, 2, 5, 0, 3, 5, 1, 4, 6, 2, 4][d.month - 1];
    assert 1 <= d.month <= 12;
    hide *;
    var k := MonthsMoveWeekday(y, d.month);
    CivilWeekdayIs(d, leaps);
    WeekdayIs(d, leaps);
    var days := 365 * (y - 1) + leaps + DaysBeforeMonth(y, d.month) + d.day;
    if d.month <= 2 {
      WeeksApart(days, y - 1 + leaps + shift + d.day, 52 * (y - 1) + k);
    } else {
      WeeksApart(days, y + leaps + leap + shift + d.day, 52 * (y - 1) + k);
    }
  }

  lemma DateIs(n: int, d: Date)
    requires ValidDate(d) && DayNumber(d) == n
    ensures DateOf(n) == d
  {
    DateIsUnique(DateOf(n), d);
  }

  lemma EpochDay()
    ensures ValidDate(Date(1970, 1, 1)) && DayNumber(Date(1970, 1, 1)) == 719162
  {
    assert 1969 / 4 == 492 && 1969 / 100 == 19 && 1969 / 400 == 4;
    assert DaysBeforeYear(1970) == 719162;
  }

  lemma LeapDay2000()
    ensures ValidDate(Date(2000, 2, 29)) && DayNumber(Date(2000, 2, 29)) == 719162 + 11016
  {
    assert IsLeap(2000) && 1999 / 4 == 499 && 1999 / 100 == 19 && 1999 / 400 == 4;
    assert DaysBeforeYear(2000) == 730119 && DaysBeforeMonth(2000, 2) == 31;
  }

  /** Known days: the epoch of Unix was a Thursday, and 29 February 2000, 11 016 days later, a Tuesday. */
  lemma KnownDays()
    ensures DateOf(719162) == Date(1970, 1, 1) && Weekday(719162) == 4
    ensures DateOf(719162 + 11016) == Date(2000, 2, 29) && Weekday(719162 + 11016) == 2
  {
    assert Weekday(719162) == 4 && Weekday(719162 + 11016) == 2;
    hide *;
    EpochDay();
    LeapDay2000();
    DateIs(719162, Date(1970, 1, 1));
    DateIs(719162 + 11016, Date(2000, 2, 29));
  }

  lemma WholeQuotient(a: int)
    ensures (a + 400) / 4 == a / 4 + 100 && (a + 400) / 100 == a / 100 + 4 && (a + 400) / 400 == a / 400 + 1
  {
  }

  /** Four hundred years have the same number of days wherever they begin, a whole number of weeks. */
  lemma CalendarRepeats(y: int)
    ensures DaysBeforeYear(y + 400) == DaysBeforeYear(y) + 146097
    ensures forall n :: Weekday(n + 146097) == Weekday(n)
  {
    WholeQuotient(y - 1);
    forall n
      ensures Weekday(n + 146097) == Weekday(n)
    {
      SameModulo7(n + 1, 20871);
    }
  }

  /** Between the same date in two successive years lie at most 366 days, in a year that has it. */
  lemma SameDateNextYear(y: int, m: int, d: int)
    requires 1 <= m <= 12 && 1 <= d <= MonthLength(y, m) && d <= MonthLength(y + 1, m)
    ensures 365 <= DayNumber(Date(y + 1, m, d)) - DayNumber(Date(y, m, d)) <= 366
  {
    DaysBeforeNextYear(y);
    LeapYearsApart(y);
    hide IsLeap, DaysBeforeYear;
  }
}
