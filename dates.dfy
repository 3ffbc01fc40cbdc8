// Calendar dates as the app uses them: a (year, month, day) triple with the
// month numbered 0..11 as JavaScript's Date.getMonth() does. A task's date key
// (`Date.toDateString()`) is determined by exactly this triple, so the triple
// itself serves as the key.

module Dates {

  datatype Date = Date(year: int, month: int, day: int) {
    /** A real day of the proleptic Gregorian calendar. */
    predicate Valid() {
      0 <= month < 12 && 1 <= day <= DaysInMonth(year, month)
    }
  }

  /** Gregorian leap-year rule. */
  predicate IsLeapYear(year: int) {
    year % 4 == 0 && (year % 100 != 0 || year % 400 == 0)
  }

  /** Number of days of month `month` (0 = January) of `year`; what
      `new Date(year, month + 1, 0).getDate()` yields. */
  function DaysInMonth(year: int, month: int): (n: int)
    requires 0 <= month < 12
    ensures 28 <= n <= 31
    ensures n == 29 <==> month == 1 && IsLeapYear(year)
    ensures n == 28 <==> month == 1 && !IsLeapYear(year)
  {
    if month == 1 then (if IsLeapYear(year) then 29 else 28)
    else if month == 3 || month == 5 || month == 8 || month == 10 then 30
    else 31
  }

  /** Days of `year` that come before the first of month `month`. */
  function DaysBeforeMonth(year: int, month: int): int
    requires 0 <= month <= 12
  {
    if month == 0 then 0 else DaysBeforeMonth(year, month - 1) + DaysInMonth(year, month - 1)
  }

  function YearLength(year: int): int {
    if IsLeapYear(year) then 366 else 365
  }

  /** Days from 1 January of year 1 to 1 January of `year` (negative before it). */
  function DaysBeforeYear(year: int): int {
    var y := year - 1;
    365 * y + y / 4 - y / 100 + y / 400
  }

  /** Days elapsed since 1 January of year 1 (proleptic Gregorian). The app
      orders tasks by subtracting two JavaScript dates, i.e. by this number. */
  function DayNumber(d: Date): int
    requires d.Valid()
  {
    DaysBeforeYear(d.year) + DaysBeforeMonth(d.year, d.month) + d.day - 1
  }

  /** Day of the week, 0 = Sunday .. 6 = Saturday, as `Date.getDay()`.
      1 January of year 1 was a Monday. */
  function Weekday(d: Date): (w: int)
    requires d.Valid()
    ensures 0 <= w < 7
  {
    (DayNumber(d) + 1) % 7
  }

  /** The calendar day after `d`. */
  function NextDay(d: Date): (r: Date)
    requires d.Valid()
    ensures r.Valid()
  {
    if d.day < DaysInMonth(d.year, d.month) then Date(d.year, d.month, d.day + 1)
    else if d.month < 11 then Date(d.year, d.month + 1, 1)
    else Date(d.year + 1, 0, 1)
  }

  /** Chronological order by the triple, as a person reads a calendar. */
  predicate Before(a: Date, b: Date) {
    a.year < b.year
    || (a.year == b.year && a.month < b.month)
    || (a.year == b.year && a.month == b.month && a.day < b.day)
  }

  // ---------------------------------------------------------------------------
  // Lemmas

  lemma {:induction false} YearIsTwelveMonths(year: int)
    ensures DaysBeforeMonth(year, 12) == YearLength(year)
  {
    assert DaysBeforeMonth(year, 1) == 31;
    assert DaysBeforeMonth(year, 2) == 31 + DaysInMonth(year, 1);
    assert DaysBeforeMonth(year, 3) == DaysBeforeMonth(year, 2) + 31;
    assert DaysBeforeMonth(year, 4) == DaysBeforeMonth(year, 3) + 30;
    assert DaysBeforeMonth(year, 5) == DaysBeforeMonth(year, 4) + 31;
    assert DaysBeforeMonth(year, 6) == DaysBeforeMonth(year, 5) + 30;
    assert DaysBeforeMonth(year, 7) == DaysBeforeMonth(year, 6) + 31;
    assert DaysBeforeMonth(year, 8) == DaysBeforeMonth(year, 7) + 31;
    assert DaysBeforeMonth(year, 9) == DaysBeforeMonth(year, 8) + 30;
    assert DaysBeforeMonth(year, 10) == DaysBeforeMonth(year, 9) + 31;
    assert DaysBeforeMonth(year, 11) == DaysBeforeMonth(year, 10) + 30;
  }

  /** `y / k` steps up by one exactly when `y` reaches a multiple of `k`
      (for the three divisors of the Gregorian rule). */
  lemma DivStep(y: int, k: int)
    requires k == 4 || k == 100 || k == 400
    ensures y / k - (y - 1) / k == if y % k == 0 then 1 else 0
  {
    if k == 4 {
      var q, r := y / 4, y % 4;
      assert (y - 1) / 4 == if r == 0 then q - 1 else q;
    } else if k == 100 {
      var q, r := y / 100, y % 100;
      assert (y - 1) / 100 == if r == 0 then q - 1 else q;
    } else {
      var q, r := y / 400, y % 400;
      assert (y - 1) / 400 == if r == 0 then q - 1 else q;
    }
  }

  /** The closed formula for DaysBeforeYear advances by the length of each year. */
  lemma DaysBeforeNextYear(year: int)
    ensures DaysBeforeYear(year + 1) == DaysBeforeYear(year) + YearLength(year)
  {
    DivStep(year, 4);
    DivStep(year, 100);
    DivStep(year, 400);
    DivisorsOfYear(year);
    var d4, d100, d400 := year / 4 - (year - 1) / 4, year / 100 - (year - 1) / 100, year / 400 - (year - 1) / 400;
    assert DaysBeforeYear(year + 1) - DaysBeforeYear(year) == 365 + d4 - d100 + d400;
  }

  /** A multiple of 400 is a multiple of 100, and a multiple of 100 of 4. */
  lemma DivisorsOfYear(year: int)
    ensures year % 400 == 0 ==> year % 100 == 0
    ensures year % 100 == 0 ==> year % 4 == 0
  {
    var q := year / 400;
    assert year == 400 * q + year % 400;
    if year % 400 == 0 {
      assert year == 100 * (4 * q) + 0;
    }
    var p := year / 100;
    assert year == 100 * p + year % 100;
    if year % 100 == 0 {
      assert year == 4 * (25 * p) + 0;
    }
  }

  lemma {:induction false} DaysBeforeMonthBound(year: int, month: int)
    requires 0 <= month < 12
    ensures DaysBeforeMonth(year, month) + DaysInMonth(year, month) <= YearLength(year)
  {
    YearIsTwelveMonths(year);
    var m := month + 1;
    while m < 12
      invariant month + 1 <= m <= 12
      invariant DaysBeforeMonth(year, month) + DaysInMonth(year, month) <= DaysBeforeMonth(year, m)
    {
      m := m + 1;
    }
  }

  /** Within a year, a date's offset lies in [0, YearLength). */
  lemma OffsetInYear(d: Date)
    requires d.Valid()
    ensures 0 <= DaysBeforeMonth(d.year, d.month) + d.day - 1 < YearLength(d.year)
  {
    DaysBeforeMonthBound(d.year, d.month);
    assert DaysBeforeMonth(d.year, d.month) >= 0 by {
      var m := 0;
      while m < d.month
        invariant 0 <= m <= d.month
        invariant DaysBeforeMonth(d.year, m) >= 0
      {
        m := m + 1;
      }
    }
  }

  /** The next day is numbered one higher: day numbers count days. */
  lemma DayNumberOfNextDay(d: Date)
    requires d.Valid()
    ensures DayNumber(NextDay(d)) == DayNumber(d) + 1
    ensures Weekday(NextDay(d)) == (Weekday(d) + 1) % 7
  {
    var n := NextDay(d);
    if d.day < DaysInMonth(d.year, d.month) {
      assert DayNumber(n) == DayNumber(d) + 1;
    } else if d.month < 11 {
      assert DaysBeforeMonth(d.year, d.month + 1) == DaysBeforeMonth(d.year, d.month) + DaysInMonth(d.year, d.month);
      assert DayNumber(n) == DayNumber(d) + 1;
    } else {
      YearIsTwelveMonths(d.year);
      DaysBeforeNextYear(d.year);
      assert DaysBeforeMonth(d.year, 12) == DaysBeforeMonth(d.year, 11) + 31;
      assert DayNumber(n) == DayNumber(d) + 1;
    }
    ModSuccessor(DayNumber(d) + 1);
  }

  lemma ModSuccessor(x: int)
    ensures (x + 1) % 7 == (x % 7 + 1) % 7
  {
    var q := x / 7;
    assert x == 7 * q + x % 7;
    if x % 7 == 6 {
      assert x + 1 == 7 * (q + 1);
    } else {
      assert x + 1 == 7 * q + (x % 7 + 1);
    }
  }

  lemma {:induction false} DaysBeforeYearMonotone(a: int, b: int)
    requires a < b
    ensures DaysBeforeYear(a) + YearLength(a) <= DaysBeforeYear(b)
    decreases b - a
  {
    DaysBeforeNextYear(a);
    if a + 1 < b {
      DaysBeforeYearMonotone(a + 1, b);
    }
  }

  lemma {:induction false} DaysBeforeMonthMonotone(year: int, a: int, b: int)
    requires 0 <= a < b < 12
    ensures DaysBeforeMonth(year, a) + DaysInMonth(year, a) <= DaysBeforeMonth(year, b)
    decreases b - a
  {
    if a + 1 < b {
      DaysBeforeMonthMonotone(year, a + 1, b);
    }
  }

  /** Day numbers order valid dates exactly as the calendar does; in
      particular two valid dates with equal day numbers are the same date. */
  lemma DayNumberOrder(a: Date, b: Date)
    requires a.Valid() && b.Valid()
    ensures DayNumber(a) < DayNumber(b) <==> Before(a, b)
    ensures DayNumber(a) == DayNumber(b) <==> a == b
  {
    OffsetInYear(a);
    OffsetInYear(b);
    if a.year < b.year {
      DaysBeforeYearMonotone(a.year, b.year);
    } else if b.year < a.year {
      DaysBeforeYearMonotone(b.year, a.year);
    } else if a.month < b.month {
      DaysBeforeMonthMonotone(a.year, a.month, b.month);
    } else if b.month < a.month {
      DaysBeforeMonthMonotone(a.year, b.month, a.month);
    }
  }

  /** Two fixed points of the weekday numbering: 1 January 1970 was a
      Thursday and 1 March 2024 a Friday. */
  lemma WeekdayExamples()
    ensures Weekday(Date(1970, 0, 1)) == 4
    ensures Weekday(Date(2024, 2, 1)) == 5
  {
    assert DaysBeforeMonth(2024, 2) == 60;
  }
}
