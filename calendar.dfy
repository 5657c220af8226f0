/** Calendar dates as the dashboard reads them from a JavaScript `Date`:
    `getFullYear()`, `getMonth()` (zero-based) and `getDate()`. Dates are taken
    as already decoded; their time value is a day number, the count of days
    since 1 January of year 0 in the proleptic Gregorian calendar. */
module Calendar {

  type Month0 = m: nat | m < 12
  type Day = d: nat | 1 <= d <= 31 witness 1

  datatype Date = Date(year: nat, month0: Month0, day: Day)

  predicate IsLeapYear(y: nat) {
    y % 4 == 0 && (y % 100 != 0 || y % 400 == 0)
  }

  function DaysInMonth(y: nat, m: Month0): (n: nat)
    ensures 28 <= n <= 31
    ensures m == 1 ==> (n == 29 <==> IsLeapYear(y))
  {
    if m == 1 then (if IsLeapYear(y) then 29 else 28)
    else if m == 3 || m == 5 || m == 8 || m == 10 then 30
    else 31
  }

  /** A date that exists in the calendar (JavaScript never holds any other). */
  predicate ValidDate(d: Date) {
    d.day <= DaysInMonth(d.year, d.month0)
  }

  function DaysBeforeMonth(y: nat, m: nat): nat
    requires m <= 12
  {
    if m == 0 then 0 else DaysBeforeMonth(y, m - 1) + DaysInMonth(y, m - 1)
  }

  function DaysBeforeYear(y: nat): nat {
    if y == 0 then 0 else DaysBeforeYear(y - 1) + DaysBeforeMonth(y - 1, 12)
  }

  /** The time value of a date, in days; `a.date - b.date` in the source is
      this difference (scaled to milliseconds). */
  function DayNumber(d: Date): int {
    DaysBeforeYear(d.year) + DaysBeforeMonth(d.year, d.month0) + d.day - 1
  }

  /** Lexicographic order on (year, month, day): "a is strictly earlier". */
  predicate Before(a: Date, b: Date) {
    a.year < b.year
    || (a.year == b.year && a.month0 < b.month0)
    || (a.year == b.year && a.month0 == b.month0 && a.day < b.day)
  }

  /** The first day of the month a date falls in. */
  function FirstOfMonth(d: Date): (r: Date)
    ensures ValidDate(r) && r.day == 1
    ensures r.year == d.year && r.month0 == d.month0
  {
    Date(d.year, d.month0, 1)
  }

  lemma {:induction false} DaysBeforeMonthGrows(y: nat, m1: nat, m2: nat)
    requires m1 < m2 <= 12
    ensures DaysBeforeMonth(y, m1) + DaysInMonth(y, m1) <= DaysBeforeMonth(y, m2)
    decreases m2
  {
    if m1 + 1 < m2 {
      DaysBeforeMonthGrows(y, m1, m2 - 1);
    }
  }

  lemma {:induction false} DaysBeforeYearGrows(y1: nat, y2: nat)
    requires y1 < y2
    ensures DaysBeforeYear(y1) + DaysBeforeMonth(y1, 12) <= DaysBeforeYear(y2)
    decreases y2
  {
    if y1 + 1 < y2 {
      DaysBeforeYearGrows(y1, y2 - 1);
    }
  }

  /** The day of a valid date falls inside its own month and its own year. */
  lemma DayWithinYear(d: Date)
    requires ValidDate(d)
    ensures DaysBeforeMonth(d.year, d.month0) + d.day - 1
            < DaysBeforeMonth(d.year, d.month0) + DaysInMonth(d.year, d.month0)
            <= DaysBeforeMonth(d.year, 12)
  {
    if d.month0 + 1 < 12 {
      DaysBeforeMonthGrows(d.year, d.month0 + 1, 12);
    }
  }

  /** The day number orders valid dates exactly as the calendar does, and
      tells distinct valid dates apart. */
  lemma DayNumberOrder(a: Date, b: Date)
    requires ValidDate(a) && ValidDate(b)
    ensures Before(a, b) <==> DayNumber(a) < DayNumber(b)
    ensures a == b <==> DayNumber(a) == DayNumber(b)
  {
    if Before(a, b) {
      DayNumberStrict(a, b);
    } else if Before(b, a) {
      DayNumberStrict(b, a);
    }
  }

  lemma DayNumberStrict(a: Date, b: Date)
    requires ValidDate(a) && ValidDate(b)
    requires Before(a, b)
    ensures DayNumber(a) < DayNumber(b)
  {
    DayWithinYear(a);
    if a.year < b.year {
      DaysBeforeYearGrows(a.year, b.year);
    } else if a.month0 < b.month0 {
      DaysBeforeMonthGrows(a.year, a.month0, b.month0);
    }
  }

  /** Months counted from January of year 0. */
  function MonthIndex(d: Date): nat {
    d.year * 12 + d.month0
  }

  /** `d3.timeMonth.offset(d, k)`: JavaScript's `setMonth(getMonth() + k)`,
      which keeps the day and, when the target month is too short, carries
      the excess days into the month after it. The result is always a valid
      date: for days up to 28 the same day of the target month, otherwise a
      day in the target month or, earlier in it, in the month after. */
  function OffsetMonths(d: Date, k: int): (r: Date)
    requires MonthIndex(d) + k >= 0
    ensures ValidDate(r)
    ensures d.day <= 28 ==> MonthIndex(r) == MonthIndex(d) + k && r.day == d.day
    ensures MonthIndex(r) == MonthIndex(d) + k
            || (MonthIndex(r) == MonthIndex(d) + k + 1 && r.day < d.day)
  {
    var i := MonthIndex(d) + k;
    if d.day <= DaysInMonth(i / 12, i % 12) then
      Date(i / 12, i % 12, d.day)
    else
      Date((i + 1) / 12, (i + 1) % 12, d.day - DaysInMonth(i / 12, i % 12))
  }

  /** Month index y * 12 + m is month m of year y. */
  lemma DivMod12(y: nat, m: nat)
    requires m < 12
    ensures (y * 12 + m) / 12 == y && (y * 12 + m) % 12 == m
  {
  }

  /** A day of a month lies day - 1 days after the first of that month. */
  lemma DayOfMonth(y: nat, m: Month0, day: Day)
    ensures DayNumber(Date(y, m, day)) == DayNumber(Date(y, m, 1)) + day - 1
  {
  }

  /** The first day of the month after month m of year y follows the days
      of month m. */
  lemma NextMonthStart(y: nat, m: Month0)
    ensures DayNumber(if m == 11 then Date(y + 1, 0, 1) else Date(y, m + 1, 1))
            == DayNumber(Date(y, m, 1)) + DaysInMonth(y, m)
  {
    if m == 11 {
      assert DaysBeforeYear(y + 1) == DaysBeforeYear(y) + DaysBeforeMonth(y, 12);
    } else {
      assert DaysBeforeMonth(y, m + 1) == DaysBeforeMonth(y, m) + DaysInMonth(y, m);
    }
  }

  /** The first day of month index i + 1 follows the days of month i. */
  lemma FirstOfNextMonth(i: nat)
    ensures DayNumber(Date((i + 1) / 12, (i + 1) % 12, 1))
            == DayNumber(Date(i / 12, i % 12, 1)) + DaysInMonth(i / 12, i % 12)
  {
    var y, m := i / 12, i % 12;
    var j := i + 1;
    NextMonthStart(y, m);
    if m == 11 {
      assert j == (y + 1) * 12 + 0;
      DivMod12(y + 1, 0);
      assert Date(j / 12, j % 12, 1) == Date(y + 1, 0, 1);
    } else {
      assert j == y * 12 + (m + 1);
      DivMod12(y, m + 1);
      assert Date(j / 12, j % 12, 1) == Date(y, m + 1, 1);
    }
  }

  /** What `setMonth` does, in time values: the result lies d.day - 1 days
      after the first day of the target month, even when that runs past the
      target month's end. */
  lemma OffsetMonthsCarries(d: Date, k: int)
    requires MonthIndex(d) + k >= 0
    ensures var i := MonthIndex(d) + k;
            DayNumber(OffsetMonths(d, k)) == DayNumber(Date(i / 12, i % 12, 1)) + d.day - 1
  {
    var i := MonthIndex(d) + k;
    if d.day <= DaysInMonth(i / 12, i % 12) {
      OffsetWithinMonth(d, k);
    } else {
      OffsetPastMonth(d, k);
    }
  }

  lemma OffsetWithinMonth(d: Date, k: int)
    requires MonthIndex(d) + k >= 0
    requires var i := MonthIndex(d) + k; d.day <= DaysInMonth(i / 12, i % 12)
    ensures var i := MonthIndex(d) + k;
            DayNumber(OffsetMonths(d, k)) == DayNumber(Date(i / 12, i % 12, 1)) + d.day - 1
  {
    var i := MonthIndex(d) + k;
    var y, m := i / 12, i % 12;
    assert OffsetMonths(d, k) == Date(y, m, d.day);
    DayOfMonth(y, m, d.day);
  }

  lemma OffsetPastMonth(d: Date, k: int)
    requires MonthIndex(d) + k >= 0
    requires var i := MonthIndex(d) + k; d.day > DaysInMonth(i / 12, i % 12)
    ensures var i := MonthIndex(d) + k;
            DayNumber(OffsetMonths(d, k)) == DayNumber(Date(i / 12, i % 12, 1)) + d.day - 1
  {
    var i := MonthIndex(d) + k;
    var y, m := i / 12, i % 12;
    var y1, m1 := (i + 1) / 12, (i + 1) % 12;
    assert OffsetMonths(d, k) == Date(y1, m1, d.day - DaysInMonth(y, m));
    FirstOfNextMonth(i);
    CarryInto(y, m, y1, m1, d.day);
  }

  /** A day past the end of month m of year y, counted on into the month
      that follows it, lies day - 1 days after the first of month m. */
  lemma CarryInto(y: nat, m: Month0, y1: nat, m1: Month0, day: Day)
    requires day > DaysInMonth(y, m)
    requires DayNumber(Date(y1, m1, 1)) == DayNumber(Date(y, m, 1)) + DaysInMonth(y, m)
    ensures DayNumber(Date(y1, m1, day - DaysInMonth(y, m))) == DayNumber(Date(y, m, 1)) + day - 1
  {
    DayOfMonth(y1, m1, day - DaysInMonth(y, m));
  }

  /** The month offset wraps the year: January minus one month is December
      of the year before, December plus one month is January of the next. */
  lemma OffsetMonthsWrapsYear(y: nat, day: Day)
    requires day <= 28
    ensures y >= 1 ==> OffsetMonths(Date(y, 0, day), -1) == Date(y - 1, 11, day)
    ensures OffsetMonths(Date(y, 11, day), 1) == Date(y + 1, 0, day)
    ensures forall m: Month0 :: 1 <= m ==> OffsetMonths(Date(y, m, day), -1) == Date(y, m - 1, day)
    ensures forall m: Month0 :: m < 11 ==> OffsetMonths(Date(y, m, day), 1) == Date(y, m + 1, day)
  {
    forall m: Month0 | 1 <= m ensures OffsetMonths(Date(y, m, day), -1) == Date(y, m - 1, day) {
      assert MonthIndex(Date(y, m, day)) - 1 == y * 12 + (m - 1);
      DivMod12(y, m - 1);
    }
    forall m: Month0 | m < 11 ensures OffsetMonths(Date(y, m, day), 1) == Date(y, m + 1, day) {
      assert MonthIndex(Date(y, m, day)) + 1 == y * 12 + (m + 1);
      DivMod12(y, m + 1);
    }
    if y >= 1 {
      assert MonthIndex(Date(y, 0, day)) - 1 == (y - 1) * 12 + 11;
      DivMod12(y - 1, 11);
    }
    assert MonthIndex(Date(y, 11, day)) + 1 == (y + 1) * 12 + 0;
    DivMod12(y + 1, 0);
  }

  /** One month back is strictly earlier, one month on strictly later. */
  lemma OffsetOneMonth(d: Date)
    requires ValidDate(d)
    ensures MonthIndex(d) >= 1 ==> Before(OffsetMonths(d, -1), d)
    ensures Before(d, OffsetMonths(d, 1))
  {
  }
}
