/**
 * The proleptic Gregorian calendar that JavaScript's `Date` uses for local
 * dates: days in a month, a day number for every valid date (0 is 0001-01-01),
 * the weekday `getDay()` reports (0 = Sunday) and the constructor
 * `new Date(y, m, d)`, which accepts out-of-range months and days and rolls
 * them over into neighbouring months and years.
 */
module Calendar {

  /** A local calendar date as `getFullYear()`, `getMonth()` (0 = January) and `getDate()` report it. */
  datatype Date = Date(year: int, month: int, day: int)

  predicate IsLeapYear(y: int)
  {
    y % 4 == 0 && (y % 100 != 0 || y % 400 == 0)
  }

  function DaysInMonth(y: int, m: int): (n: int)
    requires 0 <= m < 12
    ensures 28 <= n <= 31
  {
    if m == 1 then (if IsLeapYear(y) then 29 else 28)
    else if m == 3 || m == 5 || m == 8 || m == 10 then 30
    else 31
  }

  predicate Valid(d: Date)
  {
    0 <= d.month < 12 && 1 <= d.day <= DaysInMonth(d.year, d.month)
  }

  /** Days of year `y` before the first of month `m`. */
  function DaysBeforeMonth(y: int, m: int): (n: int)
    requires 0 <= m <= 12
    ensures 28 * m <= n <= 31 * m
  {
    if m == 0 then 0 else DaysBeforeMonth(y, m - 1) + DaysInMonth(y, m - 1)
  }

  /** Days from 0001-01-01 to the first of January of year `y` (negative before year 1). */
  function DaysBeforeYear(y: int): int
  {
    var p := y - 1;
    365 * p + p / 4 - p / 100 + p / 400
  }

  /** Days from 0001-01-01 to `d`. */
  function DayNumber(d: Date): int
    requires Valid(d)
  {
    DaysBeforeYear(d.year) + DaysBeforeMonth(d.year, d.month) + d.day - 1
  }

  /** `getDay()`: 0 is Sunday, 6 is Saturday (0001-01-01 was a Monday). */
  function DayOfWeek(d: Date): (w: int)
    requires Valid(d)
    ensures 0 <= w < 7
  {
    (DayNumber(d) + 1) % 7
  }

  lemma DivStep(p: int, k: int)
    requires k > 0
    ensures (p + 1) / k == p / k + (if (p + 1) % k == 0 then 1 else 0)
  {
    var q := p / k;
    var r := p % k;
    assert p == q * k + r && 0 <= r < k;
    if r == k - 1 {
      assert p + 1 == (q + 1) * k;
      DivUnique(p + 1, k, q + 1, 0);
    } else {
      assert p + 1 == q * k + (r + 1);
      DivUnique(p + 1, k, q, r + 1);
    }
  }

  lemma DivUnique(a: int, k: int, q: int, r: int)
    requires k > 0 && a == q * k + r && 0 <= r < k
    ensures a / k == q && a % k == r
  {
    var q' := a / k;
    var r' := a % k;
    assert a == q' * k + r';
    if q' > q {
      MulAtLeast(q' - q, k);
    } else if q' < q {
      MulAtLeast(q - q', k);
    }
  }

  lemma {:induction false} MulAtLeast(x: int, k: nat)
    requires x >= 1
    ensures x * k >= k
    decreases x
  {
    if x > 1 {
      MulAtLeast(x - 1, k);
      assert x * k == (x - 1) * k + k;
    }
  }

  lemma DivisibleBy400(y: int)
    ensures y % 400 == 0 ==> y % 100 == 0
    ensures y % 100 == 0 ==> y % 4 == 0
  {
    if y % 400 == 0 {
      DivUnique(y, 100, (y / 400) * 4, 0);
    }
    if y % 100 == 0 {
      DivUnique(y, 4, (y / 100) * 25, 0);
    }
  }

  /** A year is as long as its twelve months together: 366 days in a leap year, 365 otherwise. */
  lemma YearLength(y: int)
    ensures DaysBeforeMonth(y, 12) == (if IsLeapYear(y) then 366 else 365)
    ensures DaysBeforeYear(y + 1) == DaysBeforeYear(y) + DaysBeforeMonth(y, 12)
  {
    var feb := DaysInMonth(y, 1);
    assert DaysBeforeMonth(y, 2) == 31 + feb;
    assert DaysBeforeMonth(y, 4) == 92 + feb;
    assert DaysBeforeMonth(y, 6) == 153 + feb;
    assert DaysBeforeMonth(y, 8) == 215 + feb;
    assert DaysBeforeMonth(y, 10) == 276 + feb;
    assert DaysBeforeMonth(y, 12) == 337 + feb;
    var p := y - 1;
    DivStep(p, 4);
    DivStep(p, 100);
    DivStep(p, 400);
    DivisibleBy400(y);
  }

  lemma {:induction false} DaysBeforeMonthMonotone(y: int, m: int, n: int)
    requires 0 <= m <= n <= 12
    ensures DaysBeforeMonth(y, m) <= DaysBeforeMonth(y, n)
    decreases n - m
  {
    if m < n {
      DaysBeforeMonthMonotone(y, m, n - 1);
    }
  }

  lemma {:induction false} DaysBeforeYearMonotone(y: int, z: int)
    requires y <= z
    ensures DaysBeforeYear(y) <= DaysBeforeYear(z)
    decreases z - y
  {
    if y < z {
      DaysBeforeYearMonotone(y, z - 1);
      YearLength(z - 1);
    }
  }

  /** Every valid date of year `y` falls between the first of `y` and the first of `y + 1`. */
  lemma DayNumberWithinYear(d: Date)
    requires Valid(d)
    ensures DaysBeforeYear(d.year) <= DayNumber(d) < DaysBeforeYear(d.year + 1)
  {
    YearLength(d.year);
    DaysBeforeMonthMonotone(d.year, d.month + 1, 12);
  }

  /** Distinct valid dates have distinct day numbers. */
  lemma DayNumberInjective(a: Date, b: Date)
    requires Valid(a) && Valid(b) && DayNumber(a) == DayNumber(b)
    ensures a == b
  {
    if a.year < b.year {
      YearOrder(a, b);
    } else if b.year < a.year {
      YearOrder(b, a);
    } else if a.month < b.month {
      MonthOrder(a, b);
    } else if b.month < a.month {
      MonthOrder(b, a);
    }
  }

  /** A date of an earlier year comes earlier. */
  lemma YearOrder(a: Date, b: Date)
    requires Valid(a) && Valid(b) && a.year < b.year
    ensures DayNumber(a) < DayNumber(b)
  {
    DayNumberWithinYear(a);
    DayNumberWithinYear(b);
    DaysBeforeYearMonotone(a.year + 1, b.year);
  }

  /** Within a year, a date of an earlier month comes earlier. */
  lemma MonthOrder(a: Date, b: Date)
    requires Valid(a) && Valid(b) && a.year == b.year && a.month < b.month
    ensures DayNumber(a) < DayNumber(b)
  {
    DaysBeforeMonthMonotone(a.year, a.month + 1, b.month);
  }

  function NextDay(d: Date): (r: Date)
    requires Valid(d)
    ensures Valid(r) && DayNumber(r) == DayNumber(d) + 1
  {
    if d.day < DaysInMonth(d.year, d.month) then Date(d.year, d.month, d.day + 1)
    else if d.month < 11 then Date(d.year, d.month + 1, 1)
    else
      YearLength(d.year);
      Date(d.year + 1, 0, 1)
  }

  function PrevDay(d: Date): (r: Date)
    requires Valid(d)
    ensures Valid(r) && DayNumber(r) == DayNumber(d) - 1
  {
    if d.day > 1 then Date(d.year, d.month, d.day - 1)
    else if d.month > 0 then Date(d.year, d.month - 1, DaysInMonth(d.year, d.month - 1))
    else
      LastDayBefore(d.year);
      Date(d.year - 1, 11, 31)
  }

  /** 31 December of the year before `y` is the day before 1 January of `y`. */
  lemma LastDayBefore(y: int)
    ensures Valid(Date(y - 1, 11, 31)) && DayNumber(Date(y - 1, 11, 31)) == DaysBeforeYear(y) - 1
  {
    var p := y - 1;
    YearLength(p);
    assert p + 1 == y;
    assert DaysBeforeMonth(p, 12) == DaysBeforeMonth(p, 11) + 31;
  }

  /** The date `k` days after `d` (before it when `k` is negative). */
  function AddDays(d: Date, k: int): (r: Date)
    requires Valid(d)
    ensures Valid(r) && DayNumber(r) == DayNumber(d) + k
  {
    StepDays(d, k)
  }

  /** `AddDays` one day at a time. */
  function StepDays(d: Date, k: int): (r: Date)
    requires Valid(d)
    ensures Valid(r) && DayNumber(r) == DayNumber(d) + k
    decreases if k < 0 then -k else k
  {
    if k == 0 then d
    else if k > 0 then StepDays(NextDay(d), k - 1)
    else StepDays(PrevDay(d), k + 1)
  }

  /** The year `new Date(y, …)` means: two-digit years 0 to 99 are read as 1900 to 1999. */
  function FullYear(y: int): (r: int)
    ensures 0 <= y <= 99 ==> r == 1900 + y
    ensures !(0 <= y <= 99) ==> r == y
  {
    if 0 <= y <= 99 then 1900 + y else y
  }

  /** The first day of the month `new Date(y, m, 1)` falls in, after rolling `m` over into years. */
  function MonthStart(y: int, m: int): (r: Date)
    ensures Valid(r) && r.day == 1
  {
    Date(FullYear(y) + m / 12, m % 12, 1)
  }

  /**
   * The local date of `new Date(y, m, d)`: day `d` counted from the first of the
   * (rolled-over) month, so day 0 is the last day of the month before.
   */
  function MakeDate(y: int, m: int, d: int): (r: Date)
    ensures Valid(r) && DayNumber(r) == DayNumber(MonthStart(y, m)) + d - 1
  {
    AddDays(MonthStart(y, m), d - 1)
  }

  /** A valid date outside the two-digit years is rebuilt unchanged by the constructor. */
  lemma MakeDateOfValid(d: Date)
    requires Valid(d) && !(0 <= d.year <= 99)
    ensures MakeDate(d.year, d.month, d.day) == d
  {
    DivUnique(d.month, 12, 0, d.month);
    DayNumberInjective(MakeDate(d.year, d.month, d.day), d);
  }

  /** Within the days of the month, `new Date(y, m, d)` is day `d` of that month. */
  lemma MakeDateInMonth(y: int, m: int, d: int)
    requires 1 <= d <= DaysInMonth(MonthStart(y, m).year, MonthStart(y, m).month)
    ensures MakeDate(y, m, d) == Date(MonthStart(y, m).year, MonthStart(y, m).month, d)
  {
    var s := MonthStart(y, m);
    DayNumberInjective(MakeDate(y, m, d), Date(s.year, s.month, d));
  }

  /** `new Date(y, m + 1, 0)` is the last day of month `m`: its day of the month is the month's length. */
  lemma LastDayOfMonth(y: int, m: int)
    ensures var s := MonthStart(y, m);
      MakeDate(y, m + 1, 0) == Date(s.year, s.month, DaysInMonth(s.year, s.month))
  {
    var s := MonthStart(y, m);
    var n := MonthStart(y, m + 1);
    var last := Date(s.year, s.month, DaysInMonth(s.year, s.month));
    DivStep(m, 12);
    assert DayNumber(n) == DayNumber(last) + 1 by {
      if s.month == 11 {
        assert n == Date(s.year + 1, 0, 1);
        YearLength(s.year);
      } else {
        assert n == Date(s.year, s.month + 1, 1);
      }
    }
    DayNumberInjective(MakeDate(y, m + 1, 0), last);
  }

  /** Outside the two-digit years, `new Date(y, m, d + k)` for a valid date is the date `k` days later. */
  lemma MakeDateShift(d: Date, k: int)
    requires Valid(d) && !(0 <= d.year <= 99)
    ensures MakeDate(d.year, d.month, d.day + k) == AddDays(d, k)
  {
    DivUnique(d.month, 12, 0, d.month);
    assert MonthStart(d.year, d.month) == Date(d.year, d.month, 1);
    DayNumberInjective(MakeDate(d.year, d.month, d.day + k), AddDays(d, k));
  }

  /** `k` days later the weekday has moved on by `k`, modulo 7. */
  lemma DayOfWeekShift(d: Date, k: int)
    requires Valid(d)
    ensures DayOfWeek(AddDays(d, k)) == (DayOfWeek(d) + k) % 7
  {
    var a := DayNumber(d) + 1;
    var r := a % 7;
    DivUnique(a + k, 7, a / 7 + (r + k) / 7, (r + k) % 7);
  }
}
