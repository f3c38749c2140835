/** The proleptic Gregorian calendar as Python's `datetime.date` sees it.

    A date is numbered by its ordinal: 0001-01-01 is day 1 and every later day
    adds one, exactly as `date.toordinal()` and `date.fromordinal()` number them.
    `ToOrdinal` (days-from-civil) and `FromOrdinal` (civil-from-days) are
    proved to be inverse bijections between valid dates and positive ordinals,
    and `AddDays` is defined through them. */
module Calendar {

  datatype Date = Date(year: int, month: int, day: int)

  /** Gregorian leap years: divisible by 4, except centuries not divisible by 400. */
  predicate IsLeapYear(y: int) {
    y % 4 == 0 && (y % 100 != 0 || y % 400 == 0)
  }

  function DaysInYear(y: int): int {
    if IsLeapYear(y) then 366 else 365
  }

  function DaysInMonth(y: int, m: int): int
    requires 1 <= m <= 12
  {
    if m == 2 then (if IsLeapYear(y) then 29 else 28)
    else if m == 4 || m == 6 || m == 9 || m == 11 then 30
    else 31
  }

  /** A calendar date from year 1 onwards (no upper bound on the year here). */
  predicate Valid(d: Date) {
    1 <= d.year && 1 <= d.month <= 12 && 1 <= d.day <= DaysInMonth(d.year, d.month)
  }

  /** Days of a common year that precede the first of month `m`. */
  function CommonDaysBeforeMonth(m: int): int
    requires 1 <= m <= 12
  {
    if m == 1 then 0 else if m == 2 then 31 else if m == 3 then 59
    else if m == 4 then 90 else if m == 5 then 120 else if m == 6 then 151
    else if m == 7 then 181 else if m == 8 then 212 else if m == 9 then 243
    else if m == 10 then 273 else if m == 11 then 304 else 334
  }

  /** Days of year `y` that precede the first of month `m`. */
  function DaysBeforeMonth(y: int, m: int): int
    requires 1 <= m <= 12
  {
    CommonDaysBeforeMonth(m) + (if m > 2 && IsLeapYear(y) then 1 else 0)
  }

  /** Days of all the years before year `y`, counted from 0001-01-01. */
  function DaysBeforeYear(y: int): int
    requires 1 <= y
  {
    var p := y - 1;
    365 * p + p / 4 - p / 100 + p / 400
  }

  /** Days in one 400-year Gregorian cycle. */
  const DaysIn400Years := 146097

  /** Days-from-civil: the ordinal of a valid date; 0001-01-01 is 1. */
  function ToOrdinal(d: Date): int
    requires Valid(d)
  {
    DaysBeforeYear(d.year) + DaysBeforeMonth(d.year, d.month) + d.day
  }

  // ---------------------------------------------------------------------------
  // Facts about the year and month tables

  lemma MonthStep(y: int, m: int)
    requires 1 <= m < 12
    ensures DaysBeforeMonth(y, m + 1) == DaysBeforeMonth(y, m) + DaysInMonth(y, m)
  {
  }

  lemma LastMonthEndsYear(y: int)
    ensures DaysBeforeMonth(y, 12) + DaysInMonth(y, 12) == DaysInYear(y)
  {
  }

  /** The months before `m` and month `m` itself never run past the end of the year
      nor past the start of a later month. */
  lemma {:induction false} MonthEndBound(y: int, m: int, m': int)
    requires 1 <= m < m' <= 12
    ensures DaysBeforeMonth(y, m) + DaysInMonth(y, m) <= DaysBeforeMonth(y, m')
    decreases m' - m
  {
    MonthStep(y, m);
    if m + 1 < m' {
      MonthEndBound(y, m + 1, m');
    }
  }

  lemma DayOfYearBound(d: Date)
    requires Valid(d)
    ensures DaysBeforeMonth(d.year, d.month) + d.day <= DaysInYear(d.year)
  {
    LastMonthEndsYear(d.year);
    if d.month < 12 {
      MonthEndBound(d.year, d.month, 12);
    }
  }

  /** Counting one more year moves each quotient on exactly when the new count is a
      multiple of its divisor. */
  lemma DivisionStep(p: int)
    requires 0 <= p
    ensures (p + 1) / 4 == p / 4 + (if (p + 1) % 4 == 0 then 1 else 0)
    ensures (p + 1) / 100 == p / 100 + (if (p + 1) % 100 == 0 then 1 else 0)
    ensures (p + 1) / 400 == p / 400 + (if (p + 1) % 400 == 0 then 1 else 0)
  {
  }

  lemma YearStep(y: int)
    requires 1 <= y
    ensures DaysBeforeYear(y + 1) == DaysBeforeYear(y) + DaysInYear(y)
  {
    var p := y - 1;
    DivisionStep(p);
  }

  lemma {:induction false} YearsMonotone(y: int, z: int)
    requires 1 <= y <= z
    ensures DaysBeforeYear(y) + 365 * (z - y) <= DaysBeforeYear(z)
    decreases z - y
  {
    if y < z {
      YearStep(y);
      YearsMonotone(y + 1, z);
    }
  }

  /** Whole 400-year blocks pass through division by 4, 100 and 400 unchanged. */
  lemma BlockDivision(q: int, p: int)
    requires 0 <= q
    ensures (400 * q + p) / 4 == 100 * q + p / 4 && (400 * q + p) % 4 == p % 4
    ensures (400 * q + p) / 100 == 4 * q + p / 100 && (400 * q + p) % 100 == p % 100
    ensures (400 * q + p) / 400 == q + p / 400 && (400 * q + p) % 400 == p % 400
  {
    assert 400 * q + p == 4 * (100 * q + p / 4) + p % 4;
    assert 400 * q + p == 100 * (4 * q + p / 100) + p % 100;
    assert 400 * q + p == 400 * (q + p / 400) + p % 400;
  }

  /** Leap years, and with them the tables, repeat every 400 years. */
  lemma LeapPeriodic(q: int, j: int)
    requires 0 <= q
    ensures IsLeapYear(400 * q + j) == IsLeapYear(j)
    ensures DaysInYear(400 * q + j) == DaysInYear(j)
  {
    BlockDivision(q, j);
  }

  lemma CyclePeriodic(q: int, j: int)
    requires 0 <= q && 1 <= j
    ensures DaysBeforeYear(400 * q + j) == DaysIn400Years * q + DaysBeforeYear(j)
  {
    BlockDivision(q, j - 1);
  }

  /** Day `r` of a cycle lies in year `k` of the cycle; in absolute terms, in year
      `400 * q + k + 1`, as its day `doy`. */
  lemma CycleYear(q: int, r: int, k: int)
    requires 0 <= q && 0 <= k < 400 && DaysBeforeYear(k + 1) <= r < DaysBeforeYear(k + 2)
    ensures DaysBeforeYear(400 * q + k + 1) <= DaysIn400Years * q + r
    ensures DaysIn400Years * q + r < DaysBeforeYear(400 * q + k + 1) + DaysInYear(400 * q + k + 1)
  {
    YearStep(k + 1);
    LeapPeriodic(q, k + 1);
    CyclePeriodic(q, k + 1);
  }

  // ---------------------------------------------------------------------------
  // Civil-from-days

  /** The year `k` (0-based) of a 400-year cycle holding day `r` (0-based) of the cycle. */
  function YearInCycle(r: int, k: int): (res: int)
    requires 0 <= k < 400 && DaysBeforeYear(k + 1) <= r < DaysIn400Years
    ensures k <= res < 400
    ensures DaysBeforeYear(res + 1) <= r < DaysBeforeYear(res + 2)
    decreases 400 - k
  {
    if r < DaysBeforeYear(k + 2) then k else YearInCycle(r, k + 1)
  }

  /** The month of year `y` holding day `doy` (0-based) of that year. */
  function MonthOf(y: int, doy: int, m: int): (res: int)
    requires 1 <= m <= 12 && DaysBeforeMonth(y, m) <= doy < DaysInYear(y)
    ensures m <= res <= 12
    ensures DaysBeforeMonth(y, res) <= doy < DaysBeforeMonth(y, res) + DaysInMonth(y, res)
    decreases 12 - m
  {
    LastMonthEndsYear(y);
    if doy < DaysBeforeMonth(y, m) + DaysInMonth(y, m) then m
    else
      MonthStep(y, m);
      MonthOf(y, doy, m + 1)
  }

  /** The year holding the day with ordinal `n`. */
  function YearOfOrdinal(n: int): (y: int)
    requires 1 <= n
    ensures 1 <= y && DaysBeforeYear(y) < n <= DaysBeforeYear(y) + DaysInYear(y)
  {
    var q := (n - 1) / DaysIn400Years;
    var r := (n - 1) % DaysIn400Years;
    assert DaysBeforeYear(1) == 0 && DaysBeforeYear(401) == DaysIn400Years;
    assert n - 1 == DaysIn400Years * q + r;
    var k := YearInCycle(r, 0);
    CycleYear(q, r, k);
    400 * q + k + 1
  }

  /** Civil-from-days: the date with ordinal `n`; `ToOrdinal` undoes it. */
  function FromOrdinal(n: int): (d: Date)
    requires 1 <= n
    ensures Valid(d) && ToOrdinal(d) == n
  {
    var y := YearOfOrdinal(n);
    var doy := n - 1 - DaysBeforeYear(y);
    var m := MonthOf(y, doy, 1);
    Date(y, m, doy - DaysBeforeMonth(y, m) + 1)
  }

  // ---------------------------------------------------------------------------
  // Order and the inverse property

  /** Python's date comparison: lexicographic on (year, month, day). */
  predicate Before(a: Date, b: Date) {
    a.year < b.year
    || (a.year == b.year && (a.month < b.month || (a.month == b.month && a.day < b.day)))
  }

  /** Days-from-civil is strictly increasing along the calendar. */
  lemma OrdinalMonotone(a: Date, b: Date)
    requires Valid(a) && Valid(b) && Before(a, b)
    ensures ToOrdinal(a) < ToOrdinal(b)
  {
    if a.year < b.year {
      DayOfYearBound(a);
      YearStep(a.year);
      YearsMonotone(a.year + 1, b.year);
    } else if a.month < b.month {
      MonthEndBound(a.year, a.month, b.month);
    }
  }

  /** Dates and ordinals are in the same order, in both directions. */
  lemma OrdinalOrder(a: Date, b: Date)
    requires Valid(a) && Valid(b)
    ensures Before(a, b) <==> ToOrdinal(a) < ToOrdinal(b)
    ensures a == b <==> ToOrdinal(a) == ToOrdinal(b)
  {
    if Before(a, b) {
      OrdinalMonotone(a, b);
    } else if Before(b, a) {
      OrdinalMonotone(b, a);
    }
  }

  /** Civil-from-days undoes days-from-civil. */
  lemma FromToOrdinal(d: Date)
    requires Valid(d)
    ensures FromOrdinal(ToOrdinal(d)) == d
  {
    OrdinalOrder(FromOrdinal(ToOrdinal(d)), d);
  }

  // ---------------------------------------------------------------------------
  // Day arithmetic

  /** The date `k` days after `d` (before it when `k` is negative). */
  function AddDays(d: Date, k: int): (r: Date)
    requires Valid(d) && 1 <= ToOrdinal(d) + k
    ensures Valid(r) && ToOrdinal(r) == ToOrdinal(d) + k
  {
    FromOrdinal(ToOrdinal(d) + k)
  }

  lemma AddZeroDays(d: Date)
    requires Valid(d)
    ensures AddDays(d, 0) == d
  {
    OrdinalOrder(AddDays(d, 0), d);
  }

  /** Adding more days never gives an earlier date, and adding strictly more gives a later one. */
  lemma AddDaysMonotone(d: Date, k1: int, k2: int)
    requires Valid(d) && 1 <= ToOrdinal(d) + k1 && k1 <= k2
    ensures !Before(AddDays(d, k2), AddDays(d, k1))
    ensures k1 < k2 ==> Before(AddDays(d, k1), AddDays(d, k2))
  {
    OrdinalOrder(AddDays(d, k1), AddDays(d, k2));
    OrdinalOrder(AddDays(d, k2), AddDays(d, k1));
  }

  /** Day arithmetic composes: two steps equal one step of the summed length. */
  lemma AddDaysAdditive(d: Date, j: int, k: int)
    requires Valid(d) && 1 <= ToOrdinal(d) + j && 1 <= ToOrdinal(d) + j + k
    ensures AddDays(AddDays(d, j), k) == AddDays(d, j + k)
  {
    OrdinalOrder(AddDays(AddDays(d, j), k), AddDays(d, j + k));
  }

  /** One day on: the next day of the month, else the first of the next month, else New Year's Day. */
  lemma AddOneDay(d: Date)
    requires Valid(d)
    ensures AddDays(d, 1) ==
      if d.day < DaysInMonth(d.year, d.month) then Date(d.year, d.month, d.day + 1)
      else if d.month < 12 then Date(d.year, d.month + 1, 1)
      else Date(d.year + 1, 1, 1)
  {
    var next :=
      if d.day < DaysInMonth(d.year, d.month) then Date(d.year, d.month, d.day + 1)
      else if d.month < 12 then Date(d.year, d.month + 1, 1)
      else Date(d.year + 1, 1, 1);
    if d.day == DaysInMonth(d.year, d.month) {
      if d.month < 12 {
        MonthStep(d.year, d.month);
      } else {
        LastMonthEndsYear(d.year);
        YearStep(d.year);
      }
    }
    assert ToOrdinal(next) == ToOrdinal(d) + 1;
    OrdinalOrder(next, AddDays(d, 1));
  }
}
