/**
 Matching and searching in cron_schedule.go.  A minute is counted from the start
 of year 1 in the zone of the schedule; an instant is counted in nanoseconds.
 */
module CronSchedule {
  import opened Results
  import opened Calendar
  import opened CronField

  const NANOS_PER_MINUTE := 60_000_000_000
  const SEARCH_CAP := 366 * 24 * 60

  datatype Schedule = Schedule(minute: Field, hour: Field, dom: Field, month: Field, dow: Field)

  predicate DayMatches(s: Schedule, day: int) {
    var domRestricted, dowRestricted := !s.dom.isAll, !s.dow.isAll;
    var domMatch, dowMatch := s.dom.Contains(DateOf(day).day), s.dow.Contains(Weekday(day));
    if domRestricted && dowRestricted then domMatch || dowMatch
    else if domRestricted then domMatch
    else if dowRestricted then dowMatch
    else true
  }

  /** The schedule fires at minute m. */
  predicate Matches(s: Schedule, m: int) {
    var (day, ofDay) := (m / MINUTES_PER_DAY, m % MINUTES_PER_DAY);
    && s.minute.Contains(ofDay % 60)
    && s.hour.Contains(ofDay / 60)
    && s.month.Contains(DateOf(day).month)
    && DayMatches(s, day)
  }

  function Truncate(instant: int): int {
    instant / NANOS_PER_MINUTE
  }

  ghost predicate SilentBetween(s: Schedule, lo: int, hi: int) {
    forall m :: lo <= m < hi ==> !Matches(s, m)
  }

  ghost predicate SilentFor(s: Schedule, from: int, minutes: int) {
    SilentBetween(s, from, from + minutes)
  }

  /** r is the least minute in the window after the instant at which the schedule fires. */
  ghost predicate IsNext(s: Schedule, after: int, r: Option<int>) {
    var from := Truncate(after) + 1;
    match r
    case Some(m) => from <= m < from + SEARCH_CAP && Matches(s, m) && SilentBetween(s, from, m)
    case None => SilentFor(s, from, SEARCH_CAP)
  }

  /** r is the greatest minute in the window before the truncated instant at which the schedule fires. */
  ghost predicate IsPrev(s: Schedule, before: int, r: Option<int>) {
    var to := Truncate(before);
    match r
    case Some(m) => to - SEARCH_CAP <= m < to && Matches(s, m) && SilentBetween(s, m + 1, to)
    case None => SilentFor(s, to - SEARCH_CAP, SEARCH_CAP)
  }

  method Next(s: Schedule, after: int) returns (r: Option<int>)
    ensures IsNext(s, after, r) && FirstNamedAfter(s, after, r)
    ensures RecursEveryYear(s) ==> r.Some?
    ensures r.Some? ==> r.value * NANOS_PER_MINUTE > after
  {
    hide Matches, FirstNamedAfter, LastNamedBefore, IsPrev;
    ghost var from := Truncate(after) + 1;
    if RecursEveryYear(s) {
      FiresInEveryWindow(s, from);
    }
    var t := Truncate(after) + 1;
    for i := 0 to SEARCH_CAP
      invariant t == from + i
      invariant SilentBetween(s, from, t)
    {
      if Matches(s, t) {
        SearchesAreCivil(s, after, Some(t));
        return Some(t);
      }
      t := t + 1;
    }
    SearchesAreCivil(s, after, None);
    return None;
  }

  method Prev(s: Schedule, before: int) returns (r: Option<int>)
    ensures IsPrev(s, before, r) && LastNamedBefore(s, before, r)
    ensures RecursEveryYear(s) ==> r.Some?
    ensures r.Some? ==> r.value * NANOS_PER_MINUTE < before
  {
    hide Matches, FirstNamedAfter, LastNamedBefore, IsNext;
    ghost var to := Truncate(before);
    if RecursEveryYear(s) {
      FiresInEveryWindow(s, to - SEARCH_CAP);
    }
    var t := Truncate(before) - 1;
    for i := 0 to SEARCH_CAP
      invariant t == to - 1 - i
      invariant SilentBetween(s, t + 1, to)
    {
      if Matches(s, t) {
        SearchesAreCivil(s, before, Some(t));
        return Some(t);
      }
      t := t - 1;
    }
    SearchesAreCivil(s, before, None);
    return None;
  }

  // ----- What the searches find, as dates and times of day -----

  /**
   The schedule names this date and time: with a restricted day field the date
   must be in one that is, by its day of the month or by its weekday.
   */
  predicate FiresAt(s: Schedule, date: Date, hour: int, minute: int)
    requires ProperTime(date, hour, minute)
  {
    && (s.minute.isAll || minute in s.minute.values)
    && (s.hour.isAll || hour in s.hour.values)
    && (s.month.isAll || date.month in s.month.values)
    && ((s.dom.isAll && s.dow.isAll)
        || (!s.dom.isAll && date.day in s.dom.values)
        || (!s.dow.isAll && CivilWeekday(date) in s.dow.values))
  }

  predicate ProperTime(date: Date, hour: int, minute: int) {
    ValidDate(date) && 0 <= hour <= 23 && 0 <= minute <= 59
  }

  function MinuteOf(date: Date, hour: int, minute: int): int
    requires ProperTime(date, hour, minute)
  {
    DayNumber(date) * 1440 + hour * 60 + minute
  }

  lemma DayMatchesDate(s: Schedule, date: Date)
    requires ValidDate(date)
    ensures DateOf(DayNumber(date)) == date
    ensures DayMatches(s, DayNumber(date))
       <==> (s.dom.isAll && s.dow.isAll)
            || (!s.dom.isAll && date.day in s.dom.values)
            || (!s.dow.isAll && CivilWeekday(date) in s.dow.values)
  {
    DateIsUnique(DateOf(DayNumber(date)), date);
    WeekdayOfDate(date);
    hide DateOf, Weekday, CivilWeekday, DayNumber, ValidDate;
  }

  /** A minute fires exactly if the schedule names its date and time on the calendar. */
  lemma MatchesIsCivil(s: Schedule, date: Date, hour: int, minute: int)
    requires ProperTime(date, hour, minute)
    ensures Matches(s, MinuteOf(date, hour, minute)) <==> FiresAt(s, date, hour, minute)
  {
    hide *;
    ProperIs(date, hour, minute);
    DayMatchesDate(s, date);
    MatchesAt(s, DayNumber(date), hour, minute);
    MinuteIsAt(date, hour, minute);
    FiresByFields(s, date, hour, minute);
  }

  lemma FiresByFields(s: Schedule, date: Date, hour: int, minute: int)
    requires ProperTime(date, hour, minute)
    ensures FiresAt(s, date, hour, minute)
       <==> s.minute.Contains(minute) && s.hour.Contains(hour) && s.month.Contains(date.month)
            && ((s.dom.isAll && s.dow.isAll)
                || (!s.dom.isAll && date.day in s.dom.values)
                || (!s.dow.isAll && CivilWeekday(date) in s.dow.values))
  {
    hide CivilWeekday, ProperTime;
  }

  lemma ProperIs(date: Date, hour: int, minute: int)
    requires ProperTime(date, hour, minute)
    ensures ValidDate(date) && 0 <= hour <= 23 && 0 <= minute <= 59
  {
  }

  lemma MinuteIsAt(date: Date, hour: int, minute: int)
    requires ProperTime(date, hour, minute)
    ensures MinuteOf(date, hour, minute) == DayNumber(date) * MINUTES_PER_DAY + hour * 60 + minute
  {
    hide DayNumber;
  }

  /** The date and time of day of a minute. */
  lemma MinuteIs(m: int) returns (date: Date, hour: int, minute: int)
    ensures ProperTime(date, hour, minute) && m == MinuteOf(date, hour, minute)
  {
    var (day, ofDay) := (m / 1440, m % 1440);
    date, hour, minute := DateOf(day), ofDay / 60, ofDay % 60;
    hide DateOf, DayNumber, ValidDate;
    assert m == day * 1440 + ofDay;
  }

  /** The schedule names no date and time from minute lo on and before minute hi. */
  ghost predicate NothingNamed(s: Schedule, lo: int, hi: int) {
    forall date, hour, minute :: ProperTime(date, hour, minute) && lo <= MinuteOf(date, hour, minute) < hi ==>
      !FiresAt(s, date, hour, minute)
  }

  ghost predicate Named(s: Schedule, m: int) {
    exists date, hour, minute :: ProperTime(date, hour, minute) && MinuteOf(date, hour, minute) == m
      && FiresAt(s, date, hour, minute)
  }

  lemma NothingNamedIsSilent(s: Schedule, lo: int, hi: int)
    ensures NothingNamed(s, lo, hi) <==> SilentBetween(s, lo, hi)
  {
    hide Matches, FiresAt, MinuteOf, ProperTime;
    if NothingNamed(s, lo, hi) {
      forall m | lo <= m < hi
        ensures !Matches(s, m)
      {
        var date, hour, minute := MinuteIs(m);
        MatchesIsCivil(s, date, hour, minute);
      }
    }
    if SilentBetween(s, lo, hi) {
      forall date, hour, minute | ProperTime(date, hour, minute) && lo <= MinuteOf(date, hour, minute) < hi
        ensures !FiresAt(s, date, hour, minute)
      {
        MatchesIsCivil(s, date, hour, minute);
      }
    }
  }

  lemma NamedMatches(s: Schedule, m: int)
    ensures Named(s, m) <==> Matches(s, m)
  {
    hide Matches, FiresAt, MinuteOf, ProperTime;
    if Named(s, m) {
      var date, hour, minute :| ProperTime(date, hour, minute) && MinuteOf(date, hour, minute) == m
        && FiresAt(s, date, hour, minute);
      MatchesIsCivil(s, date, hour, minute);
    }
    if Matches(s, m) {
      var date, hour, minute := MinuteIs(m);
      MatchesIsCivil(s, date, hour, minute);
    }
  }

  /** r is the first date and time that the schedule names in the 366 days after the instant's minute. */
  ghost predicate FirstNamedAfter(s: Schedule, after: int, r: Option<int>) {
    var from := after / 60_000_000_000 + 1;
    match r
    case Some(m) => from <= m < from + 366 * 1440 && Named(s, m) && NothingNamed(s, from, m)
    case None => NothingNamed(s, from, from + 366 * 1440)
  }

  /** r is the last date and time that the schedule names in the 366 days before the instant's minute. */
  ghost predicate LastNamedBefore(s: Schedule, before: int, r: Option<int>) {
    var to := before / 60_000_000_000;
    match r
    case Some(m) => to - 366 * 1440 <= m < to && Named(s, m) && NothingNamed(s, m + 1, to)
    case None => NothingNamed(s, to - 366 * 1440, to)
  }

  /** The searches answer for the calendar. */
  lemma SearchesAreCivil(s: Schedule, instant: int, r: Option<int>)
    ensures IsNext(s, instant, r) <==> FirstNamedAfter(s, instant, r)
    ensures IsPrev(s, instant, r) <==> LastNamedBefore(s, instant, r)
  {
    hide Matches, Named, NothingNamed, SilentBetween;
    var t := Truncate(instant);
    NothingNamedIsSilent(s, t + 1, t + 1 + SEARCH_CAP);
    NothingNamedIsSilent(s, t - SEARCH_CAP, t);
    if r.Some? {
      NamedMatches(s, r.value);
      NothingNamedIsSilent(s, t + 1, r.value);
      NothingNamedIsSilent(s, r.value + 1, t);
    }
  }

  /** A schedule that restricts the weekday alone fires on the listed weekdays of the calendar and no others. */
  lemma WeekdaysAreCivil(s: Schedule, instant: int, m: int)
    requires s.dom.isAll && !s.dow.isAll
    requires IsNext(s, instant, Some(m)) || IsPrev(s, instant, Some(m))
    ensures CivilWeekday(DateOf(m / 1440)) in s.dow.values
  {
    var day := m / 1440;
    assert Matches(s, m);
    WeekdayOfDate(DateOf(day));
    hide DateOf, Weekday, CivilWeekday, Field.Contains;
    assert DayNumber(DateOf(day)) == day;
  }

  // ----- The two searches invert each other -----

  /** Stepping forward from a minute that fires and back again returns to it. */
  lemma PrevUndoesNext(s: Schedule, t: int, n: int, p: Option<int>)
    requires Matches(s, t)
    requires IsNext(s, t * NANOS_PER_MINUTE, Some(n)) && IsPrev(s, n * NANOS_PER_MINUTE, p)
    ensures p == Some(t)
  {
    hide Matches;
  }

  lemma NextUndoesPrev(s: Schedule, t: int, p: int, n: Option<int>)
    requires Matches(s, t)
    requires IsPrev(s, t * NANOS_PER_MINUTE, Some(p)) && IsNext(s, p * NANOS_PER_MINUTE, n)
    ensures n == Some(t)
  {
    hide Matches;
  }

  /**
   What prev is documented to return: the last fire time strictly before the
   instant, or none if there is none back to the start of the search window.
   */
  ghost predicate IsLastStrictlyBefore(s: Schedule, before: int, r: Option<int>) {
    match r
    case Some(m) => m * NANOS_PER_MINUTE < before && Matches(s, m) && NoneBefore(s, m + 1, before)
    case None => NoneBefore(s, Truncate(before) - SEARCH_CAP, before)
  }

  /** No fire time from this minute on and strictly before the instant. */
  ghost predicate NoneBefore(s: Schedule, from: int, before: int) {
    forall k :: from <= k && k * NANOS_PER_MINUTE < before ==> !Matches(s, k)
  }

  /** The minutes before an instant: those before its own minute, and its own unless the instant is its start. */
  lemma MinutesBefore(k: int, before: int)
    ensures k * NANOS_PER_MINUTE < before
       <==> k < Truncate(before) || (k == Truncate(before) && before % NANOS_PER_MINUTE != 0)
  {
  }

  lemma NoneBeforeIsSilent(s: Schedule, from: int, before: int)
    requires from <= Truncate(before)
    ensures NoneBefore(s, from, before)
       <==> SilentBetween(s, from, Truncate(before))
            && (before % NANOS_PER_MINUTE == 0 || !Matches(s, Truncate(before)))
  {
    hide Matches, Truncate;
    forall k
      ensures k * NANOS_PER_MINUTE < before
         <==> k < Truncate(before) || (k == Truncate(before) && before % NANOS_PER_MINUTE != 0)
    {
      MinutesBefore(k, before);
    }
  }

  /**
   prev starts one minute before the truncated instant, so its answer, a time or
   none, is the documented one exactly when the instant lies on a minute or the
   minute it lies in does not fire.
   */
  lemma PrevIsLastStrictlyBefore(s: Schedule, before: int, r: Option<int>)
    requires IsPrev(s, before, r)
    ensures IsLastStrictlyBefore(s, before, r) <==> before % NANOS_PER_MINUTE == 0 || !Matches(s, Truncate(before))
  {
    hide Matches, NoneBefore, Truncate;
    match r
    case Some(m) =>
      MinutesBefore(m, before);
      NoneBeforeIsSilent(s, m + 1, before);
    case None =>
      NoneBeforeIsSilent(s, Truncate(before) - SEARCH_CAP, before);
  }

  // ----- The search cap is exactly enough -----

  /** The least number of days the month has in any year. */
  function CommonMonthLength(m: int): int
    requires 1 <= m <= 12
  {
    MonthLength(1, m)
  }

  /** Month m holds a matching day in every year. */
  ghost predicate DayRecursIn(s: Schedule, m: int)
    requires 1 <= m <= 12
  {
    || (s.dom.isAll && s.dow.isAll)
    || (!s.dow.isAll && exists w :: 0 <= w <= 6 && w in s.dow.values)
    || (!s.dom.isAll && exists d :: 1 <= d <= CommonMonthLength(m) && d in s.dom.values)
  }

  /** Some minute, hour, month and day of the schedule exist in every year. */
  ghost predicate RecursEveryYear(s: Schedule) {
    && (exists v :: 0 <= v <= 59 && s.minute.Contains(v))
    && (exists v :: 0 <= v <= 23 && s.hour.Contains(v))
    && (exists m :: 1 <= m <= 12 && s.month.Contains(m) && DayRecursIn(s, m))
  }

  /** A date that every year has falls within any 366 successive days. */
  lemma DateWithin366Days(first: int, m: int, d: int) returns (n: int)
    requires 1 <= m <= 12 && 1 <= d <= CommonMonthLength(m)
    ensures first <= n < first + 366 && DateOf(n).month == m && DateOf(n).day == d
  {
    var y := YearOf(first);
    n := DayNumber(Date(y, m, d));
    DaysBeforeNextYear(y);
    SameDateNextYear(y, m, d);
    if n < first {
      n := DayNumber(Date(y + 1, m, d));
      DateIsUnique(DateOf(n), Date(y + 1, m, d));
    } else {
      DateIsUnique(DateOf(n), Date(y, m, d));
    }
  }

  lemma NextWeekday(start: int, w: int) returns (n: int)
    requires 0 <= w <= 6
    ensures start <= n < start + 7 && Weekday(n) == w
  {
    var gap := w - Weekday(start);
    n := start + if gap < 0 then gap + 7 else gap;
  }

  /** The days of month m with weekday w: one in the last seven of the first 28 days, one in the first seven. */
  lemma WeekdayInWeek(y: int, m: int, from: int, w: int) returns (n: int)
    requires 1 <= m <= 12 && 1 <= from <= 22 && 0 <= w <= 6
    ensures var start := DayNumber(Date(y, m, from)); start <= n < start + 7
    ensures Weekday(n) == w && DateOf(n).month == m
  {
    var start := DayNumber(Date(y, m, from));
    n := NextWeekday(start, w);
    var date := Date(y, m, from + (n - start));
    hide DateOf, Weekday;
    assert DayNumber(date) == n;
    DateIsUnique(DateOf(n), date);
  }

  lemma WeekdayWithin366Days(first: int, m: int, w: int) returns (n: int)
    requires 1 <= m <= 12 && 0 <= w <= 6
    ensures first <= n < first + 366 && DateOf(n).month == m && Weekday(n) == w
  {
    hide *;
    var y := YearOf(first);
    DaysOfMonth(y, m);
    DaysOfMonth(y + 1, m);
    n := WeekdayInWeek(y, m, 22, w);
    if n < first {
      n := WeekdayInWeek(y + 1, m, 1, w);
      SameDateNextYear(y, m, 1);
    } else {
      LateDayIsInYear(y, m, n);
      YearIsShort(y);
    }
  }

  lemma DaysOfMonth(y: int, m: int)
    requires 1 <= m <= 12
    ensures 22 <= MonthLength(y, m) && ValidDate(Date(y, m, 1)) && ValidDate(Date(y, m, 22))
    ensures DaysBeforeYear(y) <= DayNumber(Date(y, m, 1)) && DayNumber(Date(y, m, 22)) == DayNumber(Date(y, m, 1)) + 21
  {
    hide DaysBeforeYear, DaysBeforeMonth;
  }

  lemma YearIsShort(y: int)
    ensures DaysBeforeYear(y + 1) <= DaysBeforeYear(y) + 366
  {
    DaysBeforeNextYear(y);
    hide DaysBeforeYear;
  }

  lemma LateDayIsInYear(y: int, m: int, n: int)
    requires 1 <= m <= 12 && n < DayNumber(Date(y, m, 22)) + 7
    ensures n < DaysBeforeYear(y + 1)
  {
    assert DayNumber(Date(y, m, 28)) == DayNumber(Date(y, m, 22)) + 6;
  }

  lemma DayWithin366Days(s: Schedule, first: int, m: int) returns (n: int)
    requires 1 <= m <= 12 && DayRecursIn(s, m)
    ensures first <= n < first + 366 && DateOf(n).month == m && DayMatches(s, n)
  {
    hide DateOf, Weekday;
    if s.dom.isAll && s.dow.isAll {
      n := DateWithin366Days(first, m, 1);
    } else if w :| !s.dow.isAll && 0 <= w <= 6 && w in s.dow.values {
      n := WeekdayWithin366Days(first, m, w);
    } else {
      var d :| 1 <= d <= CommonMonthLength(m) && d in s.dom.values;
      n := DateWithin366Days(first, m, d);
    }
  }

  lemma MatchesAt(s: Schedule, day: int, hour: int, minute: int)
    requires 0 <= hour <= 23 && 0 <= minute <= 59
    ensures Matches(s, day * MINUTES_PER_DAY + hour * 60 + minute)
       <==> s.minute.Contains(minute) && s.hour.Contains(hour)
            && s.month.Contains(DateOf(day).month) && DayMatches(s, day)
  {
    hide DateOf, DayMatches, Field.Contains;
    MinuteParts(day, hour * 60 + minute);
    HourParts(hour, minute);
    var m := day * MINUTES_PER_DAY + hour * 60 + minute;
    assert m == day * MINUTES_PER_DAY + (hour * 60 + minute);
  }

  lemma MinuteParts(day: int, ofDay: int)
    requires 0 <= ofDay < MINUTES_PER_DAY
    ensures (day * MINUTES_PER_DAY + ofDay) / MINUTES_PER_DAY == day
    ensures (day * MINUTES_PER_DAY + ofDay) % MINUTES_PER_DAY == ofDay
  {
  }

  lemma HourParts(hour: int, minute: int)
    requires 0 <= hour <= 23 && 0 <= minute <= 59
    ensures (hour * 60 + minute) / 60 == hour && (hour * 60 + minute) % 60 == minute
  {
  }

  lemma FiresInEveryWindow(s: Schedule, from: int)
    requires RecursEveryYear(s)
    ensures !SilentFor(s, from, SEARCH_CAP)
  {
    hide DateOf, DayMatches, Matches, DayRecursIn;
    var minute :| 0 <= minute <= 59 && s.minute.Contains(minute);
    var hour :| 0 <= hour <= 23 && s.hour.Contains(hour);
    var month :| 1 <= month <= 12 && s.month.Contains(month) && DayRecursIn(s, month);
    var ofDay := hour * 60 + minute;
    var first := (from - ofDay + MINUTES_PER_DAY - 1) / MINUTES_PER_DAY;
    var day := DayWithin366Days(s, first, month);
    MatchesAt(s, day, hour, minute);
    var m := day * MINUTES_PER_DAY + hour * 60 + minute;
    assert from <= m < from + SEARCH_CAP;
  }

  /** A schedule that does not recur every year fires, if at all, on 29 February. */
  lemma OnlyLeapDaysLeft(s: Schedule, m: int)
    requires !RecursEveryYear(s) && Matches(s, m)
    ensures var date := DateOf(m / MINUTES_PER_DAY); date.month == 2 && date.day == 29 && IsLeap(date.year)
  {
    var (day, ofDay) := (m / MINUTES_PER_DAY, m % MINUTES_PER_DAY);
    var date := DateOf(day);
    hide DateOf;
    assert 0 <= ofDay % 60 <= 59 && s.minute.Contains(ofDay % 60);
    assert 0 <= ofDay / 60 <= 23 && s.hour.Contains(ofDay / 60);
    assert 0 <= Weekday(day) <= 6;
    assert !DayRecursIn(s, date.month);
  }

  lemma DaysFrom2021(day: int)
    requires DaysBeforeYear(2021) <= day < DaysBeforeYear(2021) + 366
    ensures DateOf(day).year == 2021 || DateOf(day).year == 2022
  {
    var y := DateOf(day).year;
    assert DayNumber(DateOf(day)) == day;
    hide DateOf, DayNumber;
    DaysBeforeNextYear(2021);
    DaysBeforeNextYear(2022);
    hide DaysBeforeYear;
    if y < 2021 {
      DaysBeforeYearMonotone(y + 1, 2021);
    } else if 2023 <= y {
      DaysBeforeYearMonotone(2023, y);
    }
  }

  /** In the 366 days from 1 January 2021 on, no day of a leap year comes up. */
  lemma NoLeapDayFrom2021(day: int)
    requires DaysBeforeYear(2021) <= day < DaysBeforeYear(2021) + 366
    ensures !IsLeap(DateOf(day).year)
  {
    hide *;
    DaysFrom2021(day);
    CommonYears(DateOf(day).year);
  }

  lemma CommonYears(y: int)
    requires y == 2021 || y == 2022
    ensures !IsLeap(y)
  {
  }

  lemma DayOfMinute(first: int, m: int)
    requires first * MINUTES_PER_DAY <= m < first * MINUTES_PER_DAY + SEARCH_CAP
    ensures first <= m / MINUTES_PER_DAY < first + 366
  {
  }

  /** The search finds a fire time from every instant exactly for the schedules that recur every year. */
  lemma SearchCapSuffices(s: Schedule)
    ensures RecursEveryYear(s) <==> forall from :: !SilentFor(s, from, SEARCH_CAP)
  {
    hide Matches, RecursEveryYear;
    if RecursEveryYear(s) {
      forall from ensures !SilentFor(s, from, SEARCH_CAP) {
        FiresInEveryWindow(s, from);
      }
    } else {
      var from := DaysBeforeYear(2021) * MINUTES_PER_DAY;
      forall m | from <= m < from + SEARCH_CAP ensures !Matches(s, m) {
        if Matches(s, m) {
          OnlyLeapDaysLeft(s, m);
          DayOfMinute(DaysBeforeYear(2021), m);
          NoLeapDayFrom2021(m / MINUTES_PER_DAY);
        }
      }
      assert SilentFor(s, from, SEARCH_CAP);
    }
  }

  const NEW_YEAR :=
    Schedule(Field(false, {0}), Field(false, {0}), Field(false, {1}), Field(false, {1}), Field(true, {}))

  /** The cap cannot be one minute shorter: midnight of 1 January over a leap year needs all of it. */
  lemma SearchCapIsTight()
    ensures RecursEveryYear(NEW_YEAR)
    ensures SilentFor(NEW_YEAR, DaysBeforeYear(2024) * MINUTES_PER_DAY + 1, SEARCH_CAP - 1)
  {
    assert NEW_YEAR.minute.Contains(0) && NEW_YEAR.hour.Contains(0) && NEW_YEAR.month.Contains(1);
    assert 1 <= 1 <= CommonMonthLength(1) && 1 in NEW_YEAR.dom.values;
    var from := DaysBeforeYear(2024) * MINUTES_PER_DAY + 1;
    forall m | from <= m < from + SEARCH_CAP - 1 ensures !Matches(NEW_YEAR, m) {
      if Matches(NEW_YEAR, m) {
        NewYearIsFirstMinute(m);
        YearStartsFrom2024(DateOf(m / MINUTES_PER_DAY).year);
      }
    }
  }

  lemma NewYearIsFirstMinute(m: int)
    requires Matches(NEW_YEAR, m)
    ensures m == DaysBeforeYear(DateOf(m / MINUTES_PER_DAY).year) * MINUTES_PER_DAY
  {
    var ofDay := m % MINUTES_PER_DAY;
    assert ofDay % 60 == 0 && ofDay / 60 == 0;
    assert DayNumber(DateOf(m / MINUTES_PER_DAY)) == m / MINUTES_PER_DAY;
  }

  lemma YearStartsFrom2024(y: int)
    ensures DaysBeforeYear(y) <= DaysBeforeYear(2024) || DaysBeforeYear(2024) + 366 <= DaysBeforeYear(y)
  {
    if y <= 2024 {
      DaysBeforeYearMonotone(y, 2024);
    } else {
      DaysBeforeYearMonotone(2025, y);
    }
  }

  // ----- Restricting a day field to everything is not leaving it unrestricted -----

  /**
   Replacing the day-of-month field "*" by one that lists every day changes the
   day rule exactly on the days whose weekday a restricted weekday field leaves out.
   */
  lemma ListingEveryDayOfMonth(s: Schedule, listed: Field, day: int)
    requires s.dom.isAll && !listed.isAll && forall d :: 1 <= d <= 31 ==> listed.Contains(d)
    ensures DayMatches(s, day) != DayMatches(s.(dom := listed), day)
       <==> !s.dow.isAll && Weekday(day) !in s.dow.values
  {
    assert 1 <= DateOf(day).day <= 31;
  }

  lemma ListingEveryDayOfWeek(s: Schedule, listed: Field, day: int)
    requires s.dow.isAll && !listed.isAll && forall w :: 0 <= w <= 6 ==> listed.Contains(w)
    ensures DayMatches(s, day) != DayMatches(s.(dow := listed), day)
       <==> !s.dom.isAll && DateOf(day).day !in s.dom.values
  {
    assert 0 <= Weekday(day) <= 6;
  }

  /** On minutes, hours and months a list of every value is as good as "*". */
  lemma ListingEveryTime(s: Schedule, minutes: Field, hours: Field, months: Field, m: int)
    requires s.minute.isAll && s.hour.isAll && s.month.isAll
    requires forall v :: 0 <= v <= 59 ==> minutes.Contains(v)
    requires forall v :: 0 <= v <= 23 ==> hours.Contains(v)
    requires forall v :: 1 <= v <= 12 ==> months.Contains(v)
    ensures Matches(s, m) == Matches(s.(minute := minutes, hour := hours, month := months), m)
  {
    var (day, ofDay) := (m / MINUTES_PER_DAY, m % MINUTES_PER_DAY);
    assert 0 <= ofDay / 60 <= 23 && 0 <= ofDay % 60 <= 59 && 1 <= DateOf(day).month <= 12;
    hide DateOf, Field.Contains;
  }
}
