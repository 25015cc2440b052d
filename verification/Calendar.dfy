/** The proleptic Gregorian calendar, as Go's time package documents it. */
module Calendar {

  /** A date with no zone and no time of day. */
  datatype Date = Date(year: int, month: int, day: int)

  predicate LeapYear(y: int) {
    y % 4 == 0 && (y % 100 != 0 || y % 400 == 0)
  }

  function DaysIn(y: int, m: int): int {
    if m == 2 then (if LeapYear(y) then 29 else 28)
    else if m == 4 || m == 6 || m == 9 || m == 11 then 30
    else 31
  }

  predicate Valid(d: Date) {
    1 <= d.month <= 12 && 1 <= d.day <= DaysIn(d.year, d.month)
  }

  function DaysBeforeYear(y: int): int {
    365 * (y - 1) + (y - 1) / 4 - (y - 1) / 100 + (y - 1) / 400
  }

  function DaysBeforeMonth(y: int, m: int): int {
    (if m <= 1 then 0
     else if m == 2 then 31
     else if m == 3 then 59
     else if m == 4 then 90
     else if m == 5 then 120
     else if m == 6 then 151
     else if m == 7 then 181
     else if m == 8 then 212
     else if m == 9 then 243
     else if m == 10 then 273
     else if m == 11 then 304
     else 334) + (if m > 2 && LeapYear(y) then 1 else 0)
  }

  /** Days since 1 January 1970. */
  function DayNumber(d: Date): int {
    DaysBeforeYear(d.year) + DaysBeforeMonth(d.year, d.month) + d.day - 1 - 719162
  }

  /** The following calendar date. */
  function Next(d: Date): Date {
    if d.day < DaysIn(d.year, d.month) then Date(d.year, d.month, d.day + 1)
    else if d.month < 12 then Date(d.year, d.month + 1, 1)
    else Date(d.year + 1, 1, 1)
  }

  function Previous(d: Date): Date {
    if d.day > 1 then Date(d.year, d.month, d.day - 1)
    else if d.month > 1 then Date(d.year, d.month - 1, DaysIn(d.year, d.month - 1))
    else Date(d.year - 1, 12, 31)
  }

  predicate After(d: Date, o: Date) {
    if d.year != o.year then d.year > o.year
    else if d.month != o.month then d.month > o.month
    else d.day > o.day
  }

  lemma FourYearStep(y: int)
    ensures y / 4 == (y - 1) / 4 + (if y % 4 == 0 then 1 else 0)
  {
  }

  lemma CenturyStep(y: int)
    ensures y / 100 == (y - 1) / 100 + (if y % 100 == 0 then 1 else 0)
    ensures y % 100 == 0 ==> y % 4 == 0
  {
  }

  lemma FourCenturyStep(y: int)
    ensures y / 400 == (y - 1) / 400 + (if y % 400 == 0 then 1 else 0)
    ensures y % 400 == 0 ==> y % 100 == 0
  {
  }

  lemma YearLength(y: int)
    ensures DaysBeforeYear(y + 1) == DaysBeforeYear(y) + 365 + (if LeapYear(y) then 1 else 0)
  {
    FourYearStep(y);
    CenturyStep(y);
    FourCenturyStep(y);
  }

  lemma NextIsNextDay(d: Date)
    requires Valid(d)
    ensures Valid(Next(d)) && DayNumber(Next(d)) == DayNumber(d) + 1
  {
    hide LeapYear, DaysBeforeYear;
    YearLength(d.year);
  }

  lemma PreviousIsPreviousDay(d: Date)
    requires Valid(d)
    ensures Valid(Previous(d)) && DayNumber(Previous(d)) == DayNumber(d) - 1
  {
    hide LeapYear, DaysBeforeYear;
    YearLength(d.year - 1);
  }

  lemma {:induction false} YearsAscend(y: int, y': int)
    requires y < y'
    ensures DaysBeforeYear(y) + 365 * (y' - y) <= DaysBeforeYear(y')
    decreases y' - y
  {
    hide LeapYear, DaysBeforeYear;
    YearLength(y' - 1);
    if y + 1 < y' {
      YearsAscend(y, y' - 1);
    }
  }

  /** A valid date lies inside its own year. */
  lemma WithinYear(d: Date)
    requires Valid(d)
    ensures DaysBeforeYear(d.year) <= DayNumber(d) + 719162 < DaysBeforeYear(d.year + 1)
  {
    hide LeapYear, DaysBeforeYear;
    YearLength(d.year);
  }

  lemma WithinMonth(y: int, m: int, m': int)
    requires 1 <= m < m' <= 12
    ensures DaysBeforeMonth(y, m) + DaysIn(y, m) <= DaysBeforeMonth(y, m')
  {
    hide LeapYear;
  }

  /** The field-by-field comparison agrees with counting days. */
  lemma AfterIsLater(d: Date, o: Date)
    requires Valid(d) && Valid(o)
    ensures After(d, o) <==> DayNumber(d) > DayNumber(o)
    ensures DayNumber(d) == DayNumber(o) ==> d == o
  {
    hide LeapYear, DaysBeforeYear, DaysBeforeMonth, DaysIn;
    WithinYear(d);
    WithinYear(o);
    if d.year + 1 < o.year {
      YearsAscend(d.year + 1, o.year);
    } else if o.year + 1 < d.year {
      YearsAscend(o.year + 1, d.year);
    } else if d.year == o.year && d.month < o.month {
      WithinMonth(d.year, d.month, o.month);
    } else if d.year == o.year && o.month < d.month {
      WithinMonth(d.year, o.month, d.month);
    }
  }

  const EPOCH := Date(1970, 1, 1)

  /** The date a day number falls on, counted from the epoch. */
  function DateOf(n: int): Date
    decreases if n < 0 then -n else n
  {
    if n == 0 then EPOCH
    else if n > 0 then Next(DateOf(n - 1))
    else Previous(DateOf(n + 1))
  }

  lemma EpochIsDayZero()
    ensures Valid(EPOCH) && DayNumber(EPOCH) == 0
  {
  }

  lemma {:induction false} DateOfMeaning(n: int)
    ensures Valid(DateOf(n)) && DayNumber(DateOf(n)) == n
    decreases if n < 0 then -n else n
  {
    hide Valid, DayNumber, Next, Previous;
    if n == 0 {
      EpochIsDayZero();
    } else if n > 0 {
      DateOfMeaning(n - 1);
      NextIsNextDay(DateOf(n - 1));
    } else {
      DateOfMeaning(n + 1);
      PreviousIsPreviousDay(DateOf(n + 1));
    }
  }

  lemma DateOfDayNumber(d: Date)
    requires Valid(d)
    ensures DateOf(DayNumber(d)) == d
  {
    hide Valid, DayNumber, After;
    DateOfMeaning(DayNumber(d));
    AfterIsLater(DateOf(DayNumber(d)), d);
  }

  // ---------- months ----------

  /** Months since January of year 0. */
  function MonthIndex(d: Date): int {
    12 * d.year + d.month - 1
  }

  /** The day number of the first day of a month. */
  function MonthStart(i: int): int {
    DayNumber(Date(i / 12, i % 12 + 1, 1))
  }

  /** AddDate: move whole months, then days, letting a day past the month's end roll over. */
  function AddDate(d: Date, months: int, days: int): Date {
    DateOf(MonthStart(MonthIndex(d) + months) + d.day - 1 + days)
  }

  lemma DayWithinMonth(d: Date)
    requires 1 <= d.month <= 12
    ensures DayNumber(d) == MonthStart(MonthIndex(d)) + d.day - 1
  {
    assert MonthIndex(d) / 12 == d.year && MonthIndex(d) % 12 + 1 == d.month;
  }

  lemma MonthLength(i: int)
    ensures MonthStart(i + 1) == MonthStart(i) + DaysIn(i / 12, i % 12 + 1)
    ensures 28 <= DaysIn(i / 12, i % 12 + 1) <= 31
  {
    hide LeapYear, DaysBeforeYear;
    var y, m := i / 12, i % 12 + 1;
    YearLength(y);
    if m == 12 {
      assert (i + 1) / 12 == y + 1 && (i + 1) % 12 == 0;
    } else {
      assert (i + 1) / 12 == y && (i + 1) % 12 + 1 == m + 1;
    }
  }

  lemma {:induction false} MonthsAtLeast(i: int, n: nat)
    ensures MonthStart(i + n) >= MonthStart(i) + 28 * n
  {
    hide MonthStart;
    if n > 0 {
      MonthsAtLeast(i, n - 1);
      MonthLength(i + n - 1);
    }
  }

  /** Any four years are at most 1461 days, any one at most 366. */
  lemma YearsAtMost(i: int)
    ensures MonthStart(i + 12) <= MonthStart(i) + 366
    ensures MonthStart(i + 48) <= MonthStart(i) + 1461
  {
    hide LeapYear, DaysBeforeYear;
    var y, m := i / 12, i % 12 + 1;
    assert (i + 12) / 12 == y + 1 && (i + 12) % 12 == i % 12;
    assert (i + 48) / 12 == y + 4 && (i + 48) % 12 == i % 12;
    YearLength(y);
    YearLength(y + 1);
    YearLength(y + 2);
    YearLength(y + 3);
    LeapEveryFourth(y);
    LeapEveryFourth(y + 1);
    LeapEveryFourth(y + 2);
    LeapEveryFourth(y + 3);
    LeapEveryFourth(y + 4);
  }

  lemma LeapEveryFourth(y: int)
    ensures LeapYear(y) ==> y % 4 == 0
  {
  }

  /** Fewer than twelve months exceed 30 days each by at most 7 in all, and ten or fewer by at most 6. */
  lemma FewMonthsAtMost(i: int, n: nat)
    requires n < 12
    ensures MonthStart(i + n) <= MonthStart(i) + 30 * n + 7
    ensures n <= 10 ==> MonthStart(i + n) <= MonthStart(i) + 30 * n + 6
  {
    hide DayNumber;
    var y, m := i / 12, i % 12 + 1;
    if m + n <= 12 {
      assert (i + n) / 12 == y && (i + n) % 12 + 1 == m + n;
      MonthsWithinYear(y, m, n);
    } else {
      assert (i + n) / 12 == y + 1 && (i + n) % 12 + 1 == m + n - 12;
      MonthsIntoNextYear(y, m, n);
    }
  }

  lemma MonthsWithinYear(y: int, m: int, n: nat)
    requires 1 <= m && n < 12 && m + n <= 12
    ensures DayNumber(Date(y, m + n, 1)) <= DayNumber(Date(y, m, 1)) + 30 * n + 6
  {
    hide LeapYear, DaysBeforeYear;
  }

  lemma MonthsIntoNextYear(y: int, m: int, n: nat)
    requires m <= 12 && n < 12 && m + n > 12
    ensures DayNumber(Date(y + 1, m + n - 12, 1)) <= DayNumber(Date(y, m, 1)) + 30 * n + (if n <= 10 then 6 else 7)
  {
    hide LeapYear, DaysBeforeYear;
    YearLength(y);
  }

  lemma {:induction false} BlocksAtMost(i: int, fours: nat, years: nat)
    ensures MonthStart(i + 48 * fours + 12 * years) <= MonthStart(i) + 1461 * fours + 366 * years
  {
    hide MonthStart;
    if years > 0 {
      BlocksAtMost(i, fours, years - 1);
      YearsAtMost(i + 48 * fours + 12 * (years - 1));
    } else if fours > 0 {
      BlocksAtMost(i, fours - 1, 0);
      YearsAtMost(i + 48 * (fours - 1));
    }
  }

  lemma PartsAtMost(i: int, fours: nat, years: nat, rest: nat)
    requires rest < 12
    ensures MonthStart(i + 48 * fours + 12 * years + rest)
            <= MonthStart(i) + 1461 * fours + 366 * years + 30 * rest + (if rest <= 10 then 6 else 7)
  {
    hide MonthStart;
    BlocksAtMost(i, fours, years);
    FewMonthsAtMost(i + 48 * fours + 12 * years, rest);
  }

  /** For up to 202 months, 30 days a month falls short by at most 90 days. */
  lemma MonthsAtMost(i: int, n: nat)
    requires n <= 202
    ensures MonthStart(i + n) <= MonthStart(i) + 30 * n + 90
  {
    hide MonthStart;
    SplitMonths(n);
    PartsAtMost(i, n / 48, n % 48 / 12, n % 12);
  }

  lemma SplitMonths(n: nat)
    requires n <= 202
    ensures n == 48 * (n / 48) + 12 * (n % 48 / 12) + n % 12
    ensures 1461 * (n / 48) + 366 * (n % 48 / 12) + 30 * (n % 12) + (if n % 12 <= 10 then 6 else 7) <= 30 * n + 90
  {
  }

  /** Up to fifteen months from the twelfth on exceed 30 days each by at most 8 in all. */
  lemma YearAndSpring(i: int, n: nat)
    requires 12 <= n <= 15
    ensures MonthStart(i + n) <= MonthStart(i) + 30 * n + 8
  {
    hide MonthStart, DaysIn;
    YearsAtMost(i);
    ThreeMonthsAtMost(i + 12, n - 12);
  }

  lemma ThreeMonthsAtMost(i: int, n: nat)
    requires n <= 3
    ensures MonthStart(i + n) <= MonthStart(i) + 30 * n + 2
  {
    hide MonthStart, DayNumber;
    MonthLength(i);
    MonthLength(i + 1);
    MonthLength(i + 2);
    NotThreeLong(i);
  }

  /** Of three months in a row at most two have 31 days. */
  lemma NotThreeLong(i: int)
    ensures DaysIn(i / 12, i % 12 + 1) + DaysIn((i + 1) / 12, (i + 1) % 12 + 1)
              + DaysIn((i + 2) / 12, (i + 2) % 12 + 1) <= 92
  {
    hide LeapYear;
    assert (i + 1) % 12 == (if i % 12 == 11 then 0 else i % 12 + 1);
    assert (i + 2) % 12 == (if i % 12 >= 10 then i % 12 - 10 else i % 12 + 2);
  }

  /** For up to 207 months, 30 days a month falls short by at most 92 days. */
  lemma MonthsAtMostFurther(i: int, n: nat)
    requires n <= 207
    ensures MonthStart(i + n) <= MonthStart(i) + 30 * n + 92
  {
    hide MonthStart;
    if n <= 202 {
      MonthsAtMost(i, n);
    } else {
      BlocksAtMost(i, 4, 0);
      if n == 203 {
        FewMonthsAtMost(i + 192, 11);
      } else {
        YearAndSpring(i + 192, n - 192);
      }
    }
  }

  lemma FirstOfMay2003()
    ensures MonthIndex(Date(2003, 5, 1)) == 24040 && MonthStart(24040) == DayNumber(Date(2003, 5, 1)) == 12173
  {
  }

  lemma FirstOfSeptember2020()
    ensures MonthStart(24248) == 18506
  {
    assert MonthStart(24248) == DayNumber(Date(2020, 9, 1));
  }

  /** 208 months can fall short by 93 days. */
  lemma MonthsFallFurther()
    ensures MonthIndex(Date(2003, 5, 1)) == 24040 && DayNumber(Date(2003, 5, 1)) == 12173
    ensures MonthStart(24040 + 208) == MonthStart(24040) + 30 * 208 + 93
  {
    hide MonthStart, DayNumber;
    FirstOfMay2003();
    FirstOfSeptember2020();
  }

  /** 202 is the most: 203 months can fall short by 91 days. */
  lemma MonthsFallShort()
    ensures MonthIndex(Date(2000, 3, 1)) == 24002 && DayNumber(Date(2000, 3, 1)) == 11017
    ensures MonthStart(MonthIndex(Date(2000, 3, 1)) + 203) == MonthStart(MonthIndex(Date(2000, 3, 1))) + 30 * 203 + 91
  {
    assert MonthIndex(Date(2000, 3, 1)) == 24002;
    assert MonthStart(24002) == DayNumber(Date(2000, 3, 1)) == 11017;
    assert MonthStart(24205) == DayNumber(Date(2017, 2, 1)) == 17198;
  }

  lemma AddDateNumber(d: Date, months: int, days: int)
    requires 1 <= d.month <= 12
    ensures DayNumber(AddDate(d, months, days))
            == DayNumber(d) + MonthStart(MonthIndex(d) + months) - MonthStart(MonthIndex(d)) + days
  {
    hide DayNumber, MonthStart;
    DayWithinMonth(d);
    DateOfMeaning(MonthStart(MonthIndex(d) + months) + d.day - 1 + days);
  }

  /** Whole months on from a day every month has, the same day of the month. */
  lemma AddMonthsKeepsDay(d: Date, n: int)
    requires Valid(d) && d.day <= 28
    ensures AddDate(d, n, 0) == Date((MonthIndex(d) + n) / 12, (MonthIndex(d) + n) % 12 + 1, d.day)
    ensures MonthIndex(AddDate(d, n, 0)) == MonthIndex(d) + n
  {
    hide DayNumber;
    var target := Date((MonthIndex(d) + n) / 12, (MonthIndex(d) + n) % 12 + 1, d.day);
    assert Valid(target) && MonthIndex(target) == MonthIndex(d) + n;
    DayWithinMonth(target);
    DateOfDayNumber(target);
  }
}
