/**
 JavaScript `Date` values in local time, without time zones.

 A `Date` record holds the arguments of `new Date(year, monthIndex, day)`
 (month counted from 0, as JavaScript does). JavaScript accepts any integers
 there and rolls an out-of-range month into the year and an out-of-range day
 into the following months; `DayNumber` is ECMAScript's MakeDay, which does
 exactly that, so two records denote the same day when their day numbers
 agree. A `DateTime` adds the milliseconds elapsed since local midnight.
 */
module Dates {

  datatype Date = Date(year: int, monthIndex: int, day: int)

  datatype DateTime = DateTime(date: Date, timeMs: int)

  const MsPerDay: int := 86400000

  predicate IsLeapYear(y: int) {
    y % 4 == 0 && (y % 100 != 0 || y % 400 == 0)
  }

  function DaysInYear(y: int): int {
    if IsLeapYear(y) then 366 else 365
  }

  function DaysInMonth(y: int, m: int): int
    requires 0 <= m < 12
  {
    if m == 1 then (if IsLeapYear(y) then 29 else 28)
    else if m == 3 || m == 5 || m == 8 || m == 10 then 30
    else 31
  }

  /** Days from the start of the year to the first of month `m` (0-based). */
  function MonthStart(m: int, leap: bool): int
    requires 0 <= m < 12
  {
    var l := if leap then 1 else 0;
    if m == 0 then 0
    else if m == 1 then 31
    else [59, 90, 120, 151, 181, 212, 243, 273, 304, 334][m - 2] + l
  }

  /** ECMAScript DayFromYear: the day number of January 1st of `y` (1970-01-01 is day 0). */
  function DayFromYear(y: int): int {
    365 * (y - 1970) + (y - 1969) / 4 - (y - 1901) / 100 + (y - 1601) / 400
  }

  /** ECMAScript MakeDay: the day `new Date(year, monthIndex, day)` falls on. */
  function DayNumber(d: Date): int {
    var ym := d.year + d.monthIndex / 12;
    var mn := d.monthIndex % 12;
    DayFromYear(ym) + MonthStart(mn, IsLeapYear(ym)) + d.day - 1
  }

  /** The ECMAScript time value (milliseconds since the epoch) of a local date and time. */
  function TimeValue(t: DateTime): int {
    DayNumber(t.date) * MsPerDay + t.timeMs
  }

  /** A date as JavaScript reports it back: month in 0..11 and a day that exists in that month. */
  predicate ValidDate(d: Date) {
    0 <= d.monthIndex < 12 && 1 <= d.day <= DaysInMonth(d.year, d.monthIndex)
  }

  predicate ValidDateTime(t: DateTime) {
    ValidDate(t.date) && 0 <= t.timeMs < MsPerDay
  }

  /** Every month has at least 28 days. */
  lemma MonthHasTwentyEightDays(y: int, m: int)
    requires 0 <= m < 12
    ensures DaysInMonth(y, m) >= 28
  {
  }

  /** Months since the start of year 0: the calendar month a record names. */
  function MonthCount(d: Date): int {
    12 * d.year + d.monthIndex
  }

  /**
   `new Date(y, m, d)`: JavaScript reads a year from 0 to 99 as 1900 to 1999;
   month and day are kept as given and rolled over by `DayNumber`.
   */
  function NewDate(y: int, m: int, d: int): Date {
    Date(if 0 <= y <= 99 then 1900 + y else y, m, d)
  }

  /**
   `t.setMonth(t.getMonth() + n)` on a JavaScript date: the same day of the
   month and time of day, `n` calendar months later, with the year carried.
   When that day does not exist in the target month the record keeps it and
   `DayNumber` rolls it into the next month, as JavaScript does.
   */
  function AddMonths(t: DateTime, n: int): (r: DateTime)
    requires ValidDateTime(t)
    ensures MonthCount(r.date) == MonthCount(t.date) + n
    ensures 0 <= r.date.monthIndex < 12
    ensures r.date.day == t.date.day && r.timeMs == t.timeMs
    ensures t.date.day <= DaysInMonth(r.date.year, r.date.monthIndex) ==> ValidDateTime(r)
  {
    var m := t.date.monthIndex + n;
    CarryMonth(t.date.year, m, t.date.day);
    DateTime(Date(t.date.year + m / 12, m % 12, t.date.day), t.timeMs)
  }

  /**
   The date `AddMonths` gives is the day JavaScript's `setMonth` lands on:
   `new Date(year, monthIndex + n, day)`, overflowing day included.
   */
  lemma AddMonthsDay(t: DateTime, n: int)
    requires ValidDateTime(t)
    ensures DayNumber(AddMonths(t, n).date) == DayNumber(Date(t.date.year, t.date.monthIndex + n, t.date.day))
  {
    hide DayNumber;
    CarryMonth(t.date.year, t.date.monthIndex + n, t.date.day);
  }

  /** Carrying whole years out of the month index names the same month and the same day. */
  lemma CarryMonth(y: int, m: int, d: int)
    ensures MonthCount(Date(y + m / 12, m % 12, d)) == 12 * y + m
    ensures DayNumber(Date(y + m / 12, m % 12, d)) == DayNumber(Date(y, m, d))
  {
    assert (m % 12) / 12 == 0 && (m % 12) % 12 == m % 12;
  }

  /** Floor division by a positive constant steps by one exactly at multiples. */
  lemma FloorStep(a: int, b: int)
    requires b == 4 || b == 100 || b == 400
    ensures (a + 1) / b - a / b == (if (a + 1) % b == 0 then 1 else 0)
  {
    var q, r := a / b, a % b;
    assert a == b * q + r;
    if r == b - 1 {
      assert a + 1 == b * (q + 1);
      assert (a + 1) / b == q + 1;
    } else {
      assert a + 1 == b * q + (r + 1) && 0 <= r + 1 < b;
      assert (a + 1) / b == q;
    }
  }

  /** Consecutive New Year's days are one year's length apart. */
  lemma {:induction false} DayFromYearStep(y: int)
    ensures DayFromYear(y + 1) == DayFromYear(y) + DaysInYear(y)
  {
    FloorStep(y - 1969, 4);
    FloorStep(y - 1901, 100);
    FloorStep(y - 1601, 400);
    assert (y - 1968) % 4 == 0 <==> y % 4 == 0;
    assert (y - 1900) % 100 == 0 <==> y % 100 == 0;
    assert (y - 1600) % 400 == 0 <==> y % 400 == 0;
    LeapDivisors(y);
    hide *;
    if y % 400 == 0 {
      assert IsLeapYear(y);
    } else if y % 100 == 0 {
      assert !IsLeapYear(y);
    } else if y % 4 == 0 {
      assert IsLeapYear(y);
    } else {
      assert !IsLeapYear(y);
    }
  }

  /** A multiple of 400 is a multiple of 100, and a multiple of 100 is a multiple of 4. */
  lemma LeapDivisors(y: int)
    ensures y % 400 == 0 ==> y % 100 == 0
    ensures y % 100 == 0 ==> y % 4 == 0
  {
    if y % 400 == 0 {
      var k := y / 400;
      assert y == 100 * (4 * k);
      MultipleMod(y, 100, 4 * k);
    }
    if y % 100 == 0 {
      var k := y / 100;
      assert y == 4 * (25 * k);
      MultipleMod(y, 4, 25 * k);
    }
  }

  /** `b * j` leaves no remainder on division by `b`. */
  lemma MultipleMod(y: int, b: int, j: int)
    requires b == 4 || b == 100
    requires y == b * j
    ensures y % b == 0
  {
    var q, r := y / b, y % b;
    assert y == b * q + r && 0 <= r < b;
    assert b * (j - q) == r;
  }

  /**
   Moving a date one month on moves its day number by the length of the
   month it started in, whatever the year boundary.
   */
  lemma {:induction false} DayNumberNextMonth(y: int, m: int, d: int)
    ensures DayNumber(Date(y, m + 1, d)) == DayNumber(Date(y, m, d)) + DaysInMonth(y + m / 12, m % 12)
  {
    var ym := y + m / 12;
    var mn := m % 12;
    if mn == 11 {
      assert (m + 1) / 12 == m / 12 + 1 && (m + 1) % 12 == 0;
      DayFromYearStep(ym);
    } else {
      assert (m + 1) / 12 == m / 12 && (m + 1) % 12 == mn + 1;
    }
  }
}
