/**
 * Proleptic Gregorian dates and times of day, and the minute count that
 * orders them: the value the normalizer sorts on.
 */
module Calendar {

  datatype Date = Date(year: int, month: int, day: int)

  /** A time of day on the 24-hour clock. */
  datatype Time = Time(hour: int, minute: int)

  datatype DateTime = DateTime(date: Date, time: Time)

  predicate IsLeapYear(y: int) {
    y % 4 == 0 && (y % 100 != 0 || y % 400 == 0)
  }

  function DaysInYear(y: int): int {
    if IsLeapYear(y) then 366 else 365
  }

  function DaysInMonth(y: int, m: int): int {
    if m == 2 then (if IsLeapYear(y) then 29 else 28)
    else if m == 4 || m == 6 || m == 9 || m == 11 then 30
    else 31
  }

  /** A date a Python `datetime` can hold: years 1 to 9999. */
  predicate ValidDate(d: Date) {
    1 <= d.year <= 9999 && 1 <= d.month <= 12 && 1 <= d.day <= DaysInMonth(d.year, d.month)
  }

  predicate ValidTime(t: Time) {
    0 <= t.hour < 24 && 0 <= t.minute < 60
  }

  predicate ValidDateTime(dt: DateTime) {
    ValidDate(dt.date) && ValidTime(dt.time)
  }

  /** Days from 0001-01-01 to the first day of year `y`. */
  function DaysBeforeYear(y: int): int
    decreases y
  {
    if y <= 1 then 0 else DaysBeforeYear(y - 1) + DaysInYear(y - 1)
  }

  /** Days from the first of the year to the first of month `m`. */
  function DaysBeforeMonth(y: int, m: int): int {
    var cumulative := [0, 31, 59, 90, 120, 151, 181, 212, 243, 273, 304, 334];
    if 1 <= m <= 12 then cumulative[m - 1] + (if m > 2 && IsLeapYear(y) then 1 else 0) else 0
  }

  /** Days since 0001-01-01. */
  function DayNumber(d: Date): int {
    DaysBeforeYear(d.year) + DaysBeforeMonth(d.year, d.month) + d.day - 1
  }

  /** Minutes since 0001-01-01 00:00: the orderable value of a timestamp. */
  function Instant(dt: DateTime): int {
    DayNumber(dt.date) * 1440 + dt.time.hour * 60 + dt.time.minute
  }

  /** Calendar order on dates. */
  predicate DateBefore(a: Date, b: Date) {
    a.year < b.year
    || (a.year == b.year && (a.month < b.month || (a.month == b.month && a.day < b.day)))
  }

  /** Chronological order on timestamps, field by field. */
  predicate Before(a: DateTime, b: DateTime) {
    DateBefore(a.date, b.date)
    || (a.date == b.date
        && (a.time.hour < b.time.hour || (a.time.hour == b.time.hour && a.time.minute < b.time.minute)))
  }

  lemma MonthStep(y: int, m: int)
    requires 1 <= m < 12
    ensures DaysBeforeMonth(y, m + 1) == DaysBeforeMonth(y, m) + DaysInMonth(y, m)
  {
  }

  lemma {:induction false} MonthsAscend(y: int, m: int, n: int)
    requires 1 <= m < n <= 12
    ensures DaysBeforeMonth(y, m) + DaysInMonth(y, m) <= DaysBeforeMonth(y, n)
    decreases n - m
  {
    MonthStep(y, m);
    if m + 1 < n {
      MonthsAscend(y, m + 1, n);
    }
  }

  /** Every month ends inside its year. */
  lemma MonthFitsYear(y: int, m: int)
    requires 1 <= m <= 12
    ensures DaysBeforeMonth(y, m) + DaysInMonth(y, m) <= DaysInYear(y)
  {
    if m < 12 {
      MonthsAscend(y, m, 12);
    }
  }

  lemma YearsAscend(y: int, z: int)
    requires 1 <= y < z
    ensures DaysBeforeYear(y) + DaysInYear(y) <= DaysBeforeYear(z)
  {
    YearStep(y);
    YearsStepUp(y + 1, z);
  }

  lemma YearStep(y: int)
    requires 1 <= y
    ensures DaysBeforeYear(y + 1) == DaysBeforeYear(y) + DaysInYear(y)
  {
  }

  lemma {:induction false} YearsStepUp(y: int, z: int)
    requires 1 <= y <= z
    ensures DaysBeforeYear(y) <= DaysBeforeYear(z)
    decreases z - y
  {
    if y < z {
      YearsStepUp(y, z - 1);
    }
  }

  /** Day numbers respect calendar order. */
  lemma DayNumberAscends(a: Date, b: Date)
    requires ValidDate(a) && ValidDate(b) && DateBefore(a, b)
    ensures DayNumber(a) < DayNumber(b)
  {
    if a.year < b.year {
      MonthFitsYear(a.year, a.month);
      YearsAscend(a.year, b.year);
    } else if a.month < b.month {
      MonthsAscend(a.year, a.month, b.month);
    }
  }

  /** Instants order timestamps chronologically, and identify them. */
  lemma InstantOrder(a: DateTime, b: DateTime)
    requires ValidDateTime(a) && ValidDateTime(b)
    ensures Instant(a) < Instant(b) <==> Before(a, b)
    ensures Instant(a) == Instant(b) <==> a == b
  {
    if Before(a, b) {
      InstantAscends(a, b);
    } else if Before(b, a) {
      InstantAscends(b, a);
    } else {
      assert a == b;
    }
  }

  lemma InstantAscends(a: DateTime, b: DateTime)
    requires ValidDateTime(a) && ValidDateTime(b) && Before(a, b)
    ensures Instant(a) < Instant(b)
  {
    if DateBefore(a.date, b.date) {
      DayNumberAscends(a.date, b.date);
      var da, db := DayNumber(a.date), DayNumber(b.date);
      assert da * 1440 + 1440 <= db * 1440;
    }
  }

  /** A timestamp not later than another falls on the same day or an earlier one. */
  lemma DateOfEarlierInstant(a: DateTime, b: DateTime)
    requires ValidDateTime(a) && ValidDateTime(b) && Instant(a) <= Instant(b)
    ensures a.date == b.date || DateBefore(a.date, b.date)
  {
    InstantOrder(a, b);
  }
}
