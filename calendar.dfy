// The calendar page: the grid of one month (blank cells up to the weekday of
// the 1st, then the days in order) and the month navigation buttons.

module Calendar {
  import opened Options
  import opened Dates

  /** The month a calendar page shows; `month` is 0-based. */
  datatype YearMonth = YearMonth(year: int, month: int)

  /** Months elapsed since January of year 0: consecutive months differ by one. */
  function MonthIndex(ym: YearMonth): int {
    ym.year * 12 + ym.month
  }

  /** Month navigation as intended: the page moves `direction` months, and the
      year carries when the month index leaves 0..11. The result is the only
      normalised month whose index is `direction` away. */
  function NavigateMonth(ym: YearMonth, direction: int): (r: YearMonth)
    ensures 0 <= r.month < 12
    ensures MonthIndex(r) == MonthIndex(ym) + direction
  {
    var k := MonthIndex(ym) + direction;
    YearMonth(k / 12, k % 12)
  }

  /** A normalised month is determined by its index. */
  lemma MonthIndexInjective(a: YearMonth, b: YearMonth)
    requires 0 <= a.month < 12 && 0 <= b.month < 12
    requires MonthIndex(a) == MonthIndex(b)
    ensures a == b
  {
    if a.year != b.year {
      assert false;
    }
  }

  /** December forward is January of the next year, January back is December
      of the previous year, and any other month steps within its year. */
  lemma NavigateMonthCarries(ym: YearMonth)
    requires 0 <= ym.month < 12
    ensures ym.month == 11 ==> NavigateMonth(ym, 1) == YearMonth(ym.year + 1, 0)
    ensures ym.month < 11 ==> NavigateMonth(ym, 1) == YearMonth(ym.year, ym.month + 1)
    ensures ym.month == 0 ==> NavigateMonth(ym, -1) == YearMonth(ym.year - 1, 11)
    ensures 0 < ym.month ==> NavigateMonth(ym, -1) == YearMonth(ym.year, ym.month - 1)
  {
    var f := NavigateMonth(ym, 1);
    var b := NavigateMonth(ym, -1);
    if ym.month == 11 {
      MonthIndexInjective(f, YearMonth(ym.year + 1, 0));
    } else {
      MonthIndexInjective(f, YearMonth(ym.year, ym.month + 1));
    }
    if ym.month == 0 {
      MonthIndexInjective(b, YearMonth(ym.year - 1, 11));
    } else {
      MonthIndexInjective(b, YearMonth(ym.year, ym.month - 1));
    }
  }

  /** Going forward and back by the same count returns to the month shown. */
  lemma NavigateMonthRoundTrip(ym: YearMonth, direction: int)
    requires 0 <= ym.month < 12
    ensures NavigateMonth(NavigateMonth(ym, direction), -direction) == ym
  {
    MonthIndexInjective(NavigateMonth(NavigateMonth(ym, direction), -direction), ym);
  }

  // ---------------------------------------------------------------------------
  // Month navigation as written: `Date.prototype.setMonth` on a full date

  /** `setMonth(month)` on a date: the month index is normalised with a year
      carry and the day of the month is kept; a day the target month lacks
      spills over into the month after it. */
  function SetMonth(d: Date, month: int): (r: Date)
    requires d.Valid()
    ensures r.Valid()
  {
    var target := NavigateMonth(YearMonth(d.year, 0), month);
    var n := DaysInMonth(target.year, target.month);
    if d.day <= n then Date(target.year, target.month, d.day)
    else
      var next := NavigateMonth(target, 1);
      Date(next.year, next.month, d.day - n)
  }

  /** The day `setMonth` lands on is the 1st of the target month plus the
      kept day of the month, less one: ECMAScript's MakeDay arithmetic. */
  lemma SetMonthCountsDays(d: Date, month: int)
    requires d.Valid()
    ensures var t := NavigateMonth(YearMonth(d.year, 0), month);
            DayNumber(SetMonth(d, month)) == DayNumber(Date(t.year, t.month, 1)) + d.day - 1
  {
    var t := NavigateMonth(YearMonth(d.year, 0), month);
    var n := DaysInMonth(t.year, t.month);
    if n < d.day {
      var last := Date(t.year, t.month, n);
      DayNumberOfNextDay(last);
      NavigateMonthCarries(t);
      assert NextDay(last) == Date(NavigateMonth(t, 1).year, NavigateMonth(t, 1).month, 1);
    }
  }

  /** `navigateMonth` as written: `setMonth(getMonth() + direction)` on the
      date the page holds, which carries today's day of the month. */
  function NavigateMonthAsWritten(current: Date, direction: int): (r: Date)
    requires current.Valid()
    ensures r.Valid()
  {
    SetMonth(current, current.month + direction)
  }

  /** The code as written shows the intended month, keeping the day, exactly
      when the target month has the page's day of the month; otherwise the
      day spills into the month after the target. */
  lemma NavigateMonthAsWrittenAgrees(current: Date, direction: int)
    requires current.Valid()
    ensures var r := NavigateMonthAsWritten(current, direction);
            var t := NavigateMonth(YearMonth(current.year, current.month), direction);
            (YearMonth(r.year, r.month) == t && r.day == current.day) <==> current.day <= DaysInMonth(t.year, t.month)
  {
    var t := NavigateMonth(YearMonth(current.year, 0), current.month + direction);
    MonthIndexInjective(t, NavigateMonth(YearMonth(current.year, current.month), direction));
  }

  /** When the target month lacks the page's day, the day spills into the
      month after the target, by the number of days it overshoots. Going
      back, that month is the one already shown: the page stays on it and
      lands on its 1st to 3rd. */
  lemma NavigateMonthAsWrittenSpills(current: Date, direction: int)
    requires current.Valid()
    ensures var r := NavigateMonthAsWritten(current, direction);
            var t := NavigateMonth(YearMonth(current.year, current.month), direction);
            var n := DaysInMonth(t.year, t.month);
            n < current.day ==>
              YearMonth(r.year, r.month) == NavigateMonth(t, 1) && r.day == current.day - n
    ensures var r := NavigateMonthAsWritten(current, -1);
            var t := NavigateMonth(YearMonth(current.year, current.month), -1);
            DaysInMonth(t.year, t.month) < current.day ==>
              r.year == current.year && r.month == current.month && 1 <= r.day <= 3
  {
    var ym := YearMonth(current.year, current.month);
    var t := NavigateMonth(ym, direction);
    MonthIndexInjective(NavigateMonth(YearMonth(current.year, 0), current.month + direction), t);
    var b := NavigateMonth(ym, -1);
    MonthIndexInjective(NavigateMonth(YearMonth(current.year, 0), current.month - 1), b);
    NavigateMonthRoundTrip(ym, -1);
  }

  /** From 31 March the back button shows 3 March, and from 31 May it shows
      1 May: the page stays on the month it shows. */
  lemma NavigateMonthBackStays()
    ensures NavigateMonthAsWritten(Date(2025, 2, 31), -1) == Date(2025, 2, 3)
    ensures NavigateMonthAsWritten(Date(2025, 4, 31), -1) == Date(2025, 4, 1)
  {
    NavigateMonthAsWrittenSpills(Date(2025, 2, 31), -1);
    NavigateMonthCarries(YearMonth(2025, 2));
    assert !IsLeapYear(2025);
    NavigateMonthAsWrittenSpills(Date(2025, 4, 31), -1);
    NavigateMonthCarries(YearMonth(2025, 4));
  }

  /** From 31 January the forward button shows March: February is skipped,
      where the intended navigation shows February. */
  lemma NavigateMonthSkipsFebruary()
    ensures NavigateMonthAsWritten(Date(2025, 0, 31), 1) == Date(2025, 2, 3)
    ensures NavigateMonth(YearMonth(2025, 0), 1) == YearMonth(2025, 1)
  {
    NavigateMonthCarries(YearMonth(2025, 0));
    NavigateMonthCarries(YearMonth(2025, 1));
    assert NavigateMonth(YearMonth(2025, 0), 1) == YearMonth(2025, 1);
    assert !IsLeapYear(2025);
  }

  // ---------------------------------------------------------------------------
  // The month grid

  /** Day `day` of a month falls `day - 1` weekdays after the 1st. */
  lemma WeekdayInMonth(year: int, month: int, day: int)
    requires Date(year, month, day).Valid()
    ensures Weekday(Date(year, month, day)) == (Weekday(Date(year, month, 1)) + day - 1) % 7
  {
    var x := DayNumber(Date(year, month, 1)) + 1;
    assert DayNumber(Date(year, month, day)) + 1 == x + (day - 1);
    ModShift(x, day - 1);
  }

  lemma ModShift(x: int, b: int)
    ensures (x + b) % 7 == (x % 7 + b) % 7
  {
    var q := x / 7;
    assert x == 7 * q + x % 7;
    assert x + b == 7 * q + (x % 7 + b);
    var u := x % 7 + b;
    assert u == 7 * (u / 7) + u % 7;
    assert x + b == 7 * (q + u / 7) + u % 7;
  }

  /** `getDaysInMonth`: one blank cell per weekday before the 1st (0 = Sunday),
      then every day of the month in order. Each day lands in the column of
      its own weekday, so consecutive days fill the week row by row. */
  method DaysInMonthGrid(date: Date) returns (days: seq<Option<Date>>)
    requires date.Valid()
    ensures var first := Date(date.year, date.month, 1);
            |days| == Weekday(first) + DaysInMonth(date.year, date.month)
            && (forall i :: 0 <= i < Weekday(first) ==> days[i] == None)
            && (forall i :: Weekday(first) <= i < |days| ==>
                  days[i] == Some(Date(date.year, date.month, i - Weekday(first) + 1)))
    ensures forall i :: 0 <= i < |days| && days[i].Some? ==>
              days[i].value.Valid() && Weekday(days[i].value) == i % 7
  {
    var year := date.year;
    var month := date.month;
    var first := Date(year, month, 1);
    var daysInMonth := DaysInMonth(year, month);
    var startingDayOfWeek := Weekday(first);
    days := [];
    var i := 0;
    while i < startingDayOfWeek
      invariant 0 <= i <= startingDayOfWeek
      invariant |days| == i
      invariant forall j :: 0 <= j < i ==> days[j] == None
    {
      days := days + [None];
      i := i + 1;
    }
    var day := 1;
    while day <= daysInMonth
      invariant 1 <= day <= daysInMonth + 1
      invariant |days| == startingDayOfWeek + day - 1
      invariant forall j :: 0 <= j < startingDayOfWeek ==> days[j] == None
      invariant forall j :: startingDayOfWeek <= j < |days| ==>
                  days[j] == Some(Date(year, month, j - startingDayOfWeek + 1))
      invariant forall j :: startingDayOfWeek <= j < |days| ==> Weekday(days[j].value) == j % 7
    {
      WeekdayInMonth(year, month, day);
      days := days + [Some(Date(year, month, day))];
      day := day + 1;
    }
  }
}
