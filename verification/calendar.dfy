/**
 * Calendar timestamps as the dashboard uses them: `datetime(annee, mois, jour)`
 * for generated launches, `datetime.now() + timedelta(days=k)` for planned ones,
 * and comparisons against fixed dates for the COVID windows.
 */
module Calendar {
  const SecondsPerDay: int := 86400

  /** A proleptic Gregorian date with a time of day in whole seconds. */
  datatype DateTime = DateTime(year: int, month: int, day: int, second: int)

  predicate IsLeapYear(y: int) {
    (y % 4 == 0 && y % 100 != 0) || y % 400 == 0
  }

  function DaysInMonth(y: int, m: int): (n: int)
    requires 1 <= m <= 12
    ensures 28 <= n <= 31
    ensures n == 29 <==> m == 2 && IsLeapYear(y)
  {
    if m == 2 then (if IsLeapYear(y) then 29 else 28)
    else if m == 4 || m == 6 || m == 9 || m == 11 then 30
    else 31
  }

  predicate ValidDateTime(d: DateTime) {
    && 1 <= d.month <= 12
    && 1 <= d.day <= DaysInMonth(d.year, d.month)
    && 0 <= d.second < SecondsPerDay
  }

  /** Midnight at the start of the given day, as `datetime(y, m, d)` builds it. */
  function Midnight(y: int, m: int, d: int): DateTime {
    DateTime(y, m, d, 0)
  }

  /** Lexicographic order on (year, month, day, second): the calendar order. */
  predicate Earlier(a: DateTime, b: DateTime) {
    || a.year < b.year
    || (a.year == b.year && a.month < b.month)
    || (a.year == b.year && a.month == b.month && a.day < b.day)
    || (a.year == b.year && a.month == b.month && a.day == b.day && a.second < b.second)
  }

  /**
   * A monotone numbering of days: every month gets a slot of 31 day numbers.
   * It is not a count of elapsed days, only a key that orders days.
   */
  function DaySlot(d: DateTime): int {
    (d.year * 12 + d.month - 1) * 31 + d.day - 1
  }

  /** A single integer that orders timestamps the way the calendar does. */
  function Instant(d: DateTime): int {
    DaySlot(d) * SecondsPerDay + d.second
  }

  /** Comparing `Instant`s is comparing timestamps chronologically. */
  lemma InstantIsChronological(a: DateTime, b: DateTime)
    requires ValidDateTime(a) && ValidDateTime(b)
    ensures Instant(a) < Instant(b) <==> Earlier(a, b)
    ensures Instant(a) == Instant(b) <==> a == b
  {
    if a.year != b.year {
      assert DaySlot(a) < DaySlot(b) <==> a.year < b.year;
    } else if a.month != b.month {
      assert DaySlot(a) < DaySlot(b) <==> a.month < b.month;
    } else if a.day != b.day {
      assert DaySlot(a) < DaySlot(b) <==> a.day < b.day;
    }
  }

  /** Days from 0001-01-01 to 1 January of year y. */
  function DaysBeforeYear(y: int): int {
    365 * (y - 1) + (y - 1) / 4 - (y - 1) / 100 + (y - 1) / 400
  }

  /** Days from 1 January to the first day of month m of year y. */
  function DaysBeforeMonth(y: int, m: int): int
    requires 1 <= m <= 12
  {
    if m == 1 then 0 else DaysBeforeMonth(y, m - 1) + DaysInMonth(y, m - 1)
  }

  /** The number of days elapsed since 0001-01-01 (proleptic Gregorian), as `date.toordinal() - 1`. */
  function DayNumber(d: DateTime): int
    requires 1 <= d.month <= 12
  {
    DaysBeforeYear(d.year) + DaysBeforeMonth(d.year, d.month) + d.day - 1
  }

  /** A year has 366 days when it is a leap year and 365 otherwise. */
  lemma YearLength(y: int)
    ensures DaysBeforeYear(y + 1) - DaysBeforeYear(y) == if IsLeapYear(y) then 366 else 365
    ensures DaysBeforeMonth(y, 12) + 31 == if IsLeapYear(y) then 366 else 365
  {
    LeapDays(y);
    MonthOffsets(y);
  }

  /** The leap days counted before year y + 1 exceed those before year y by one exactly in a leap year. */
  lemma LeapDays(y: int)
    ensures DaysBeforeYear(y + 1) - DaysBeforeYear(y) == if IsLeapYear(y) then 366 else 365
  {
    assert y / 4 - (y - 1) / 4 == if y % 4 == 0 then 1 else 0;
    assert y / 100 - (y - 1) / 100 == if y % 100 == 0 then 1 else 0;
    assert y / 400 - (y - 1) / 400 == if y % 400 == 0 then 1 else 0;
  }

  /** The first day of December is day 334 of a common year and day 335 of a leap year. */
  lemma MonthOffsets(y: int)
    ensures DaysBeforeMonth(y, 12) + 31 == if IsLeapYear(y) then 366 else 365
  {
    var leap := if IsLeapYear(y) then 1 else 0;
    assert DaysBeforeMonth(y, 2) == 31;
    assert DaysBeforeMonth(y, 3) == 59 + leap;
    assert DaysBeforeMonth(y, 4) == 90 + leap;
    assert DaysBeforeMonth(y, 5) == 120 + leap;
    assert DaysBeforeMonth(y, 6) == 151 + leap;
    assert DaysBeforeMonth(y, 7) == 181 + leap;
    assert DaysBeforeMonth(y, 8) == 212 + leap;
    assert DaysBeforeMonth(y, 9) == 243 + leap;
    assert DaysBeforeMonth(y, 10) == 273 + leap;
    assert DaysBeforeMonth(y, 11) == 304 + leap;
    assert DaysBeforeMonth(y, 12) == 334 + leap;
  }

  /** The same time of day on the following calendar day. */
  function NextDay(d: DateTime): (r: DateTime)
    requires ValidDateTime(d)
    ensures ValidDateTime(r)
    ensures Instant(d) < Instant(r)
    ensures r.second == d.second
    ensures DayNumber(r) == DayNumber(d) + 1
    ensures forall e :: ValidDateTime(e) && e.second == d.second ==> !(Instant(d) < Instant(e) < Instant(r))
  {
    var r := if d.day < DaysInMonth(d.year, d.month) then d.(day := d.day + 1)
             else if d.month < 12 then DateTime(d.year, d.month + 1, 1, d.second)
             else DateTime(d.year + 1, 1, 1, d.second);
    NextDayFacts(d, r);
    r
  }

  /**
   * The date `NextDay` builds is valid, one day number later, and no valid
   * timestamp with the same time of day lies strictly between the two.
   */
  lemma NextDayFacts(d: DateTime, r: DateTime)
    requires ValidDateTime(d)
    requires r == if d.day < DaysInMonth(d.year, d.month) then d.(day := d.day + 1)
                  else if d.month < 12 then DateTime(d.year, d.month + 1, 1, d.second)
                  else DateTime(d.year + 1, 1, 1, d.second)
    ensures ValidDateTime(r) && Instant(d) < Instant(r) && r.second == d.second
    ensures DayNumber(r) == DayNumber(d) + 1
    ensures forall e :: ValidDateTime(e) && e.second == d.second ==> !(Instant(d) < Instant(e) < Instant(r))
  {
    if d.day < DaysInMonth(d.year, d.month) {
    } else if d.month < 12 {
      assert DaysBeforeMonth(d.year, d.month + 1) == DaysBeforeMonth(d.year, d.month) + DaysInMonth(d.year, d.month);
    } else {
      YearLength(d.year);
    }
    NothingBetween(d, r);
  }

  /** Between a timestamp and a later one of the next day, no valid timestamp of that time of day fits. */
  lemma NothingBetween(d: DateTime, r: DateTime)
    requires ValidDateTime(d) && ValidDateTime(r) && r.second == d.second
    requires r == if d.day < DaysInMonth(d.year, d.month) then d.(day := d.day + 1)
                  else if d.month < 12 then DateTime(d.year, d.month + 1, 1, d.second)
                  else DateTime(d.year + 1, 1, 1, d.second)
    ensures forall e :: ValidDateTime(e) && e.second == d.second ==> !(Instant(d) < Instant(e) < Instant(r))
  {
    forall e | ValidDateTime(e) && e.second == d.second
      ensures !(Instant(d) < Instant(e) < Instant(r))
    {
      InstantIsChronological(d, e);
      InstantIsChronological(e, r);
    }
  }

  /** `d + timedelta(days=n)`: n steps of one calendar day. */
  function AddDays(d: DateTime, n: nat): (r: DateTime)
    requires ValidDateTime(d)
    ensures ValidDateTime(r)
    ensures DayNumber(r) == DayNumber(d) + n
    ensures n > 0 ==> Instant(d) < Instant(r)
    ensures n == 0 ==> r == d
    ensures r.year >= d.year
    ensures r.second == d.second
  {
    if n == 0 then d
    else
      var p := AddDays(d, n - 1);
      assert p.year <= NextDay(p).year by { InstantIsChronological(p, NextDay(p)); }
      NextDay(p)
  }
}
