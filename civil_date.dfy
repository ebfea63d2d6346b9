/**
 * Calendar dates of the proleptic Gregorian calendar, years 1 to 9999, and
 * their day numbers ("ordinals": 0001-01-01 is day 1), computed the way
 * Python's `datetime.date.toordinal` computes them.  Both the date-range
 * validator and the bucket-date derivation work on these day numbers.
 */
module CivilDate {

  datatype Date = Date(year: int, month: int, day: int)

  const MinYear := 1
  const MaxYear := 9999

  /** The last representable date; the day after it does not exist. */
  const MaxDate := Date(9999, 12, 31)

  /** Ordinal of MaxDate (Python's `date.max.toordinal()`). */
  const MaxOrdinal := 3652059

  predicate IsLeapYear(y: int) {
    y % 4 == 0 && (y % 100 != 0 || y % 400 == 0)
  }

  function DaysInYear(y: int): int {
    if IsLeapYear(y) then 366 else 365
  }

  function DaysInMonth(y: int, m: int): (n: int)
    requires 1 <= m <= 12
    ensures 28 <= n <= 31
  {
    if m == 2 then (if IsLeapYear(y) then 29 else 28)
    else if m == 4 || m == 6 || m == 9 || m == 11 then 30
    else 31
  }

  predicate Valid(d: Date) {
    && MinYear <= d.year <= MaxYear
    && 1 <= d.month <= 12
    && 1 <= d.day <= DaysInMonth(d.year, d.month)
  }

  /** Days in the years before `y`, by the closed formula of the Gregorian cycle. */
  function DaysBeforeYear(y: int): int
    requires y >= 1
  {
    var p := y - 1;
    p * 365 + p / 4 - p / 100 + p / 400
  }

  /** Days in the months of year `y` before month `m`. */
  function DaysBeforeMonth(y: int, m: int): int
    requires 1 <= m <= 12
  {
    var common :=
      if m == 1 then 0 else if m == 2 then 31 else if m == 3 then 59
      else if m == 4 then 90 else if m == 5 then 120 else if m == 6 then 151
      else if m == 7 then 181 else if m == 8 then 212 else if m == 9 then 243
      else if m == 10 then 273 else if m == 11 then 304 else 334;
    common + (if m > 2 && IsLeapYear(y) then 1 else 0)
  }

  /**
   * The day number of `d`: between 1 and the day number of 9999-12-31.
   */
  function Ordinal(d: Date): (n: int)
    requires Valid(d)
    ensures 1 <= n <= MaxOrdinal
  {
    DayOfYearBounds(d.year, d.month, d.day);
    DaysBeforeYearIncreasing(d.year + 1, MaxYear + 1);
    DaysBeforeYear(d.year) + DaysBeforeMonth(d.year, d.month) + d.day
  }

  /** From year y - 1 to year y, the count of years divisible by 4 grows exactly when 4 divides y. */
  lemma FourthYearsStep(y: int)
    ensures y / 4 == (y - 1) / 4 + (if y % 4 == 0 then 1 else 0)
  {
    var p := y - 1;
    if p % 4 == 3 {
      assert y == 4 * (p / 4 + 1);
    } else {
      assert y == 4 * (p / 4) + (p % 4 + 1);
    }
  }

  /** The same for years divisible by 100. */
  lemma CenturyYearsStep(y: int)
    ensures y / 100 == (y - 1) / 100 + (if y % 100 == 0 then 1 else 0)
  {
    var p := y - 1;
    if p % 100 == 99 {
      assert y == 100 * (p / 100 + 1);
    } else {
      assert y == 100 * (p / 100) + (p % 100 + 1);
    }
  }

  /** The same for years divisible by 400. */
  lemma QuadricentennialYearsStep(y: int)
    ensures y / 400 == (y - 1) / 400 + (if y % 400 == 0 then 1 else 0)
  {
    var p := y - 1;
    if p % 400 == 399 {
      assert y == 400 * (p / 400 + 1);
    } else {
      assert y == 400 * (p / 400) + (p % 400 + 1);
    }
  }

  /** The closed formula agrees with counting year by year. */
  lemma YearLength(y: int)
    requires y >= 1
    ensures DaysBeforeYear(y + 1) == DaysBeforeYear(y) + DaysInYear(y)
  {
    var p := y - 1;
    assert DaysBeforeYear(y) == p * 365 + p / 4 - p / 100 + p / 400;
    assert DaysBeforeYear(y + 1) == y * 365 + y / 4 - y / 100 + y / 400;
    FourthYearsStep(y);
    CenturyYearsStep(y);
    QuadricentennialYearsStep(y);
  }

  lemma MonthLength(y: int, m: int)
    requires 1 <= m <= 12
    ensures m < 12 ==> DaysBeforeMonth(y, m + 1) == DaysBeforeMonth(y, m) + DaysInMonth(y, m)
    ensures m == 12 ==> DaysBeforeMonth(y, m) + DaysInMonth(y, m) == DaysInYear(y)
  {
  }

  lemma {:induction false} DaysBeforeYearIncreasing(a: int, b: int)
    requires 1 <= a <= b
    ensures DaysBeforeYear(a) + 365 * (b - a) <= DaysBeforeYear(b)
    decreases b - a
  {
    if a < b {
      DaysBeforeYearIncreasing(a, b - 1);
      YearLength(b - 1);
    }
  }

  /** A day of a valid month falls after the earlier years and within its own year. */
  lemma DayOfYearBounds(y: int, m: int, day: int)
    requires MinYear <= y <= MaxYear && 1 <= m <= 12 && 1 <= day <= DaysInMonth(y, m)
    ensures DaysBeforeYear(y) < DaysBeforeYear(y) + DaysBeforeMonth(y, m) + day <= DaysBeforeYear(y + 1)
  {
    MonthLength(y, m);
    YearLength(y);
    if m < 12 {
      MonthsBefore(y, m + 1, 12);
      MonthLength(y, 12);
    }
  }

  lemma {:induction false} MonthsBefore(y: int, m: int, n: int)
    requires 1 <= m <= n <= 12
    ensures DaysBeforeMonth(y, m) <= DaysBeforeMonth(y, n)
    ensures m < n ==> DaysBeforeMonth(y, m) + DaysInMonth(y, m) <= DaysBeforeMonth(y, n)
    decreases n - m
  {
    if m < n {
      MonthLength(y, m);
      MonthsBefore(y, m + 1, n);
    }
  }

  /** Ordinals order dates lexicographically by (year, month, day). */
  lemma OrdinalOrder(a: Date, b: Date)
    requires Valid(a) && Valid(b)
    ensures (a.year, a.month, a.day) == (b.year, b.month, b.day) ==> Ordinal(a) == Ordinal(b)
    ensures (a.year < b.year || (a.year == b.year && a.month < b.month)
             || (a.year == b.year && a.month == b.month && a.day < b.day))
            ==> Ordinal(a) < Ordinal(b)
  {
    if a.year < b.year {
      DayOfYearBounds(a.year, a.month, a.day);
      DayOfYearBounds(b.year, b.month, b.day);
      DaysBeforeYearIncreasing(a.year + 1, b.year);
    } else if a.year == b.year && a.month < b.month {
      MonthsBefore(a.year, a.month, b.month);
    }
  }

  /** Distinct valid dates have distinct ordinals. */
  lemma OrdinalInjective(a: Date, b: Date)
    requires Valid(a) && Valid(b) && Ordinal(a) == Ordinal(b)
    ensures a == b
  {
    OrdinalOrder(a, b);
    OrdinalOrder(b, a);
  }

  /** The day after `d`, as `d + timedelta(days=1)` gives it. */
  function NextDay(d: Date): (n: Date)
    requires Valid(d) && d != MaxDate
    ensures Valid(n) && Ordinal(n) == Ordinal(d) + 1
  {
    MonthLength(d.year, d.month);
    if d.day < DaysInMonth(d.year, d.month) then Date(d.year, d.month, d.day + 1)
    else if d.month < 12 then Date(d.year, d.month + 1, 1)
    else YearLength(d.year); Date(d.year + 1, 1, 1)
  }

  /** The date `n` days into the run of years that starts with year `y`. */
  function LocateYear(y: int, n: int): Date
    requires 1 <= y && 1 <= n
    decreases n
  {
    if n > DaysInYear(y) then LocateYear(y + 1, n - DaysInYear(y))
    else LocateMonth(y, 1, n)
  }

  /** The date `n` days into year `y` counted from the start of month `m`. */
  function LocateMonth(y: int, m: int, n: int): Date
    requires 1 <= m <= 12 && 1 <= n <= DaysInYear(y) - DaysBeforeMonth(y, m)
    decreases 12 - m
  {
    MonthLength(y, m);
    if n <= DaysInMonth(y, m) then Date(y, m, n)
    else LocateMonth(y, m + 1, n - DaysInMonth(y, m))
  }

  /** The date with day number `n` (Python's `date.fromordinal`). */
  function FromOrdinal(n: int): Date
    requires 1 <= n
  {
    LocateYear(1, n)
  }

  lemma {:induction false} LocateMonthCorrect(y: int, m: int, n: int)
    requires MinYear <= y <= MaxYear && 1 <= m <= 12
    requires 1 <= n <= DaysInYear(y) - DaysBeforeMonth(y, m)
    ensures var d := LocateMonth(y, m, n);
            Valid(d) && Ordinal(d) == DaysBeforeYear(y) + DaysBeforeMonth(y, m) + n
    decreases 12 - m
  {
    MonthLength(y, m);
    if n > DaysInMonth(y, m) {
      LocateMonthCorrect(y, m + 1, n - DaysInMonth(y, m));
    }
  }

  lemma {:induction false} LocateYearCorrect(y: int, n: int)
    requires 1 <= y && 1 <= n && DaysBeforeYear(y) + n <= MaxOrdinal
    ensures var d := LocateYear(y, n);
            Valid(d) && Ordinal(d) == DaysBeforeYear(y) + n
    decreases n
  {
    if n > DaysInYear(y) {
      YearLength(y);
      LocateYearCorrect(y + 1, n - DaysInYear(y));
    } else {
      if y > MaxYear {
        DaysBeforeYearIncreasing(MaxYear + 1, y);
        assert false;
      }
      LocateMonthCorrect(y, 1, n);
    }
  }

  /** Every day number from 1 to MaxOrdinal names a valid date, and that date has that number. */
  lemma FromOrdinalCorrect(n: int)
    requires 1 <= n <= MaxOrdinal
    ensures Valid(FromOrdinal(n)) && Ordinal(FromOrdinal(n)) == n
  {
    LocateYearCorrect(1, n);
  }

  lemma FromOrdinalOfOrdinal(d: Date)
    requires Valid(d)
    ensures FromOrdinal(Ordinal(d)) == d
  {
    FromOrdinalCorrect(Ordinal(d));
    OrdinalInjective(FromOrdinal(Ordinal(d)), d);
  }

  lemma MaxDateIsLast(d: Date)
    requires Valid(d)
    ensures Ordinal(d) <= Ordinal(MaxDate) == MaxOrdinal
    ensures Ordinal(d) == MaxOrdinal <==> d == MaxDate
  {
    if Ordinal(d) == MaxOrdinal {
      OrdinalInjective(d, MaxDate);
    }
  }
}
