/** The proleptic Gregorian calendar from 1970 on: what `gmtime` and `timegm` compute for dates. */
module Calendar {

  datatype Date = Date(year: int, month: int, day: int)

  predicate Leap(y: int) { y % 4 == 0 && (y % 100 != 0 || y % 400 == 0) }

  function YearDays(y: int): (n: nat)
    ensures n == 365 || n == 366
  {
    if Leap(y) then 366 else 365
  }

  function MonthDays(y: int, m: int): (n: nat)
    ensures 28 <= n <= 31
  {
    if m == 2 then (if Leap(y) then 29 else 28)
    else if m == 4 || m == 6 || m == 9 || m == 11 then 30 else 31
  }

  predicate Valid(d: Date) { d.year >= 1970 && 1 <= d.month <= 12 && 1 <= d.day <= MonthDays(d.year, d.month) }

  /** The day after, by the rules of the calendar alone. */
  function NextDay(d: Date): Date {
    if d.day < MonthDays(d.year, d.month) then d.(day := d.day + 1)
    else if d.month < 12 then Date(d.year, d.month + 1, 1)
    else Date(d.year + 1, 1, 1)
  }

  // ---- timegm: counting the days up to a date ----

  function DaysBeforeYear(y: int): nat
    decreases y
  {
    if y <= 1970 then 0 else DaysBeforeYear(y - 1) + YearDays(y - 1)
  }

  function DaysBeforeMonth(y: int, m: int): nat
    decreases m
  {
    if m <= 1 then 0 else DaysBeforeMonth(y, m - 1) + MonthDays(y, m - 1)
  }

  function DaysFromDate(d: Date): int { DaysBeforeYear(d.year) + DaysBeforeMonth(d.year, d.month) + d.day - 1 }

  // ---- gmtime: going through the years and months until the days are used up ----

  function DateInMonth(y: int, m: int, days: nat): Date
    decreases 12 - m
  {
    if m >= 12 || days < MonthDays(y, m) then Date(y, m, days + 1)
    else DateInMonth(y, m + 1, days - MonthDays(y, m))
  }

  function DateInYear(y: int, days: nat): Date
    decreases days
  {
    if days < YearDays(y) then DateInMonth(y, 1, days) else DateInYear(y + 1, days - YearDays(y))
  }

  function DateFromDays(days: nat): Date { DateInYear(1970, days) }

  // ---- They are inverse, and days follow each other by the rules ----

  lemma MonthsFillYear(y: int)
    ensures DaysBeforeMonth(y, 12) + MonthDays(y, 12) == YearDays(y)
  {
    assert DaysBeforeMonth(y, 3) == 31 + MonthDays(y, 2);
    assert DaysBeforeMonth(y, 6) == DaysBeforeMonth(y, 3) + 92;
    assert DaysBeforeMonth(y, 9) == DaysBeforeMonth(y, 6) + 92;
    assert DaysBeforeMonth(y, 12) == DaysBeforeMonth(y, 9) + 91;
  }

  lemma {:induction false} MonthSearch(y: int, m: int, days: nat)
    requires 1 <= m <= 12 && DaysBeforeMonth(y, m) + days < DaysBeforeMonth(y, 12) + MonthDays(y, 12)
    ensures var d := DateInMonth(y, m, days);
      d.year == y && m <= d.month <= 12 && 1 <= d.day <= MonthDays(y, d.month)
      && DaysBeforeMonth(y, d.month) + d.day - 1 == DaysBeforeMonth(y, m) + days
    decreases 12 - m
  {
    if m < 12 && days >= MonthDays(y, m) {
      MonthSearch(y, m + 1, days - MonthDays(y, m));
    }
  }

  lemma {:induction false} YearSearch(y: int, days: nat)
    requires y >= 1970
    ensures var d := DateInYear(y, days); Valid(d) && d.year >= y && DaysFromDate(d) == DaysBeforeYear(y) + days
    decreases days
  {
    hide Valid;
    hide DaysFromDate;
    hide DateInMonth;
    hide YearDays;
    if days < YearDays(y) {
      FoundInYear(y, days);
    } else {
      YearSearch(y + 1, days - YearDays(y));
      assert DaysBeforeYear(y + 1) == DaysBeforeYear(y) + YearDays(y);
    }
  }

  lemma FoundInYear(y: int, days: nat)
    requires y >= 1970 && days < YearDays(y)
    ensures var d := DateInMonth(y, 1, days);
      Valid(d) && d.year == y && DaysFromDate(d) == DaysBeforeYear(y) + days
  {
    MonthsFillYear(y);
    MonthSearch(y, 1, days);
    hide DateInMonth;
  }

  /** Counting up to the date that was found gives the days back. */
  lemma DaysRoundTrip(days: nat)
    ensures Valid(DateFromDays(days)) && DaysFromDate(DateFromDays(days)) == days
  {
    YearSearch(1970, days);
  }

  /** Counting goes up by one from each date to the next. */
  lemma NextDayCounts(d: Date)
    requires Valid(d)
    ensures Valid(NextDay(d)) && DaysFromDate(NextDay(d)) == DaysFromDate(d) + 1
  {
    if d.day == MonthDays(d.year, d.month) && d.month == 12 {
      MonthsFillYear(d.year);
    }
  }

  lemma {:induction false} LaterMonth(y: int, m: int, n: int)
    requires 1 <= m < n <= 13
    ensures DaysBeforeMonth(y, m) + MonthDays(y, m) <= DaysBeforeMonth(y, n)
    decreases n
  {
    if m + 1 < n {
      LaterMonth(y, m, n - 1);
    }
  }

  lemma {:induction false} LaterYear(y: int, z: int)
    requires 1970 <= y < z
    ensures DaysBeforeYear(y) + YearDays(y) <= DaysBeforeYear(z)
    decreases z
  {
    if y + 1 < z {
      LaterYear(y, z - 1);
    }
  }

  lemma WithinYear(d: Date)
    requires Valid(d)
    ensures 0 <= DaysFromDate(d) - DaysBeforeYear(d.year) < YearDays(d.year)
  {
    MonthsFillYear(d.year);
    if d.month < 12 {
      LaterMonth(d.year, d.month, 12);
    }
  }

  /** The days before a year are those of the dates in earlier years. */
  lemma DaysBeforeYearIff(d: Date, y: int)
    requires Valid(d) && y >= 1970
    ensures DaysFromDate(d) < DaysBeforeYear(y) <==> d.year < y
  {
    WithinYear(d);
    hide DaysFromDate;
    if d.year < y {
      LaterYear(d.year, y);
    } else if d.year > y {
      LaterYear(y, d.year);
    }
  }

  /** Different dates have different counts. */
  lemma DaysInjective(a: Date, b: Date)
    requires Valid(a) && Valid(b) && DaysFromDate(a) == DaysFromDate(b)
    ensures a == b
  {
    WithinYear(a);
    WithinYear(b);
    if a.year < b.year {
      LaterYear(a.year, b.year);
    } else if b.year < a.year {
      LaterYear(b.year, a.year);
    } else if a.month < b.month {
      LaterMonth(a.year, a.month, b.month);
    } else if b.month < a.month {
      LaterMonth(a.year, b.month, a.month);
    }
  }

  /** `gmtime` after `timegm` gives every date back. */
  lemma DateRoundTrip(d: Date)
    requires Valid(d)
    ensures DaysFromDate(d) >= 0 && DateFromDays(DaysFromDate(d)) == d
  {
    DaysRoundTrip(DaysFromDate(d));
    DaysInjective(DateFromDays(DaysFromDate(d)), d);
  }

  /** The dates found for consecutive days follow each other by the rules of the calendar. */
  lemma CalendarAdvances(days: nat)
    ensures DateFromDays(0) == Date(1970, 1, 1)
    ensures DateFromDays(days + 1) == NextDay(DateFromDays(days))
  {
    DaysRoundTrip(days);
    DaysRoundTrip(days + 1);
    NextDayCounts(DateFromDays(days));
    DaysInjective(DateFromDays(days + 1), NextDay(DateFromDays(days)));
  }

  // ---- Closed forms ----

  lemma {:induction false} YearFormula(y: int)
    requires y >= 1970
    ensures DaysBeforeYear(y) == 365 * (y - 1970) + (y - 1) / 4 - (y - 1) / 100 + (y - 1) / 400 - 477
    decreases y
  {
    if y > 1970 {
      YearFormula(y - 1);
      LeapSteps(y - 2);
    }
  }

  /** One more leap day exactly when a fourth year is passed, unless a hundredth but no four
      hundredth is. */
  lemma LeapSteps(z: int)
    requires z >= 0
    ensures (z + 1) / 4 - (z + 1) / 100 + (z + 1) / 400 == z / 4 - z / 100 + z / 400 + if Leap(z + 1) then 1 else 0
  {
    Quotient(z, 4);
    Quotient(z, 100);
    Quotient(z, 400);
  }

  lemma Quotient(z: int, n: int)
    requires z >= 0 && (n == 4 || n == 100 || n == 400)
    ensures (z + 1) / n == z / n + if (z + 1) % n == 0 then 1 else 0
  {
  }

  lemma MonthFormula(y: int, m: int)
    requires 3 <= m <= 12
    ensures DaysBeforeMonth(y, m) == 59 + (if Leap(y) then 1 else 0) + (153 * (m - 3) + 2) / 5
    decreases m
  {
    if m > 3 {
      MonthFormula(y, m - 1);
    } else {
      assert DaysBeforeMonth(y, 2) == 31;
    }
  }

  /** The count of days by the usual arithmetic of the Gregorian calendar, without any loop. */
  lemma DaysFormula(d: Date)
    requires Valid(d)
    ensures var y := d.year;
      DaysFromDate(d) == 365 * (y - 1970) + (y - 1) / 4 - (y - 1) / 100 + (y - 1) / 400 - 477
        + (if d.month == 1 then 0 else if d.month == 2 then 31
           else 59 + (if Leap(y) then 1 else 0) + (153 * (d.month - 3) + 2) / 5)
        + d.day - 1
  {
    YearFormula(d.year);
    if d.month >= 3 {
      MonthFormula(d.year, d.month);
    }
  }
}
