/**
 * Proleptic Gregorian dates as (year, month, day) triples, with the pieces of
 * Python's `date` the bot uses: ordering, `date + timedelta(days=1)`,
 * `(a - b).days` and `replace(year=...)`.
 */
module Calendar {
  import opened Basics

  datatype Date = Date(year: int, month: int, day: int)

  predicate IsLeap(y: int) {
    y % 4 == 0 && (y % 100 != 0 || y % 400 == 0)
  }

  function DaysInMonth(y: int, m: int): int
    requires 1 <= m <= 12
  {
    if m == 2 then (if IsLeap(y) then 29 else 28)
    else if m == 4 || m == 6 || m == 9 || m == 11 then 30
    else 31
  }

  /** A date Python's `date` constructor accepts (the upper year bound aside). */
  predicate Valid(d: Date) {
    1 <= d.year && 1 <= d.month <= 12 && 1 <= d.day <= DaysInMonth(d.year, d.month)
  }

  /** Strict chronological order: `a < b`. */
  predicate Before(a: Date, b: Date) {
    a.year < b.year
    || (a.year == b.year && a.month < b.month)
    || (a.year == b.year && a.month == b.month && a.day < b.day)
  }

  function YearLength(y: int): int {
    if IsLeap(y) then 366 else 365
  }

  /** Days in the years before `y` (Python's `_days_before_year`). */
  function DaysBeforeYear(y: int): int {
    var p := y - 1;
    365 * p + p / 4 - p / 100 + p / 400
  }

  /** Days in the months of year `y` before month `m`. */
  function DaysBeforeMonth(y: int, m: int): int
    requires 1 <= m <= 12
  {
    var common := [0, 31, 59, 90, 120, 151, 181, 212, 243, 273, 304, 334][m - 1];
    if m > 2 && IsLeap(y) then common + 1 else common
  }

  /** Ordinal of a date: day 1 is 0001-01-01 (Python's `toordinal`). */
  function DayNumber(d: Date): int
    requires 1 <= d.month <= 12
  {
    DaysBeforeYear(d.year) + DaysBeforeMonth(d.year, d.month) + d.day
  }

  /** `d + timedelta(days=1)`. */
  function Tomorrow(d: Date): (t: Date)
    requires Valid(d)
    ensures Valid(t)
    ensures Before(d, t)
  {
    if d.day < DaysInMonth(d.year, d.month) then Date(d.year, d.month, d.day + 1)
    else if d.month < 12 then Date(d.year, d.month + 1, 1)
    else Date(d.year + 1, 1, 1)
  }

  /** `d.replace(year=y)`: fails (ValueError) for 29 February in a common year. */
  function WithYear(d: Date, y: int): (r: Option<Date>)
    requires Valid(d) && 1 <= y
    ensures r.Some? <==> !(d.month == 2 && d.day == 29 && !IsLeap(y))
    ensures r.Some? ==> Valid(r.value) && r.value == Date(y, d.month, d.day)
  {
    if d.month == 2 && d.day == 29 && !IsLeap(y) then None else Some(Date(y, d.month, d.day))
  }

  /** Division by a positive constant steps up by one exactly at multiples. */
  lemma DivStep(y: int, k: int)
    requires k == 4 || k == 100 || k == 400
    ensures y / k == (y - 1) / k + (if y % k == 0 then 1 else 0)
  {
    var q := (y - 1) / k;
    var r := (y - 1) % k;
    assert y - 1 == k * q + r && 0 <= r < k;
    if r == k - 1 {
      assert y == k * (q + 1);
    } else {
      assert y == k * q + (r + 1);
    }
  }

  /** A multiple of 400 is a multiple of 100, and a multiple of 100 is a multiple of 4. */
  lemma MultipleChain(y: int)
    ensures y % 400 == 0 ==> y % 100 == 0
    ensures y % 100 == 0 ==> y % 4 == 0
  {
    if y % 400 == 0 {
      var q := y / 400;
      assert y == 100 * (4 * q);
    }
    if y % 100 == 0 {
      var q := y / 100;
      assert y == 4 * (25 * q);
    }
  }

  lemma DaysBeforeYearStep(y: int)
    ensures DaysBeforeYear(y + 1) == DaysBeforeYear(y) + YearLength(y)
  {
    DivStep(y, 4);
    DivStep(y, 100);
    DivStep(y, 400);
    MultipleChain(y);
    var leap := (if y % 4 == 0 then 1 else 0) - (if y % 100 == 0 then 1 else 0) + (if y % 400 == 0 then 1 else 0);
    assert YearLength(y) == 365 + leap;
    assert DaysBeforeYear(y + 1) == 365 * y + y / 4 - y / 100 + y / 400;
    assert DaysBeforeYear(y) == 365 * (y - 1) + (y - 1) / 4 - (y - 1) / 100 + (y - 1) / 400;
  }

  lemma {:induction false} DaysBeforeYearMonotone(a: int, b: int)
    requires a < b
    ensures DaysBeforeYear(a) + YearLength(a) <= DaysBeforeYear(b)
    decreases b - a
  {
    DaysBeforeYearStep(a);
    if a + 1 < b {
      DaysBeforeYearMonotone(a + 1, b);
    }
  }

  lemma DayOfYearBounds(d: Date)
    requires Valid(d)
    ensures 1 <= DaysBeforeMonth(d.year, d.month) + d.day <= YearLength(d.year)
  {
  }

  lemma MonthOrder(y: int, m1: int, d1: int, m2: int, d2: int)
    requires 1 <= m1 < m2 <= 12
    requires 1 <= d1 <= DaysInMonth(y, m1) && 1 <= d2
    ensures DaysBeforeMonth(y, m1) + d1 < DaysBeforeMonth(y, m2) + d2
  {
  }

  /** The ordinal is strictly increasing in chronological order. */
  lemma DayNumberMonotone(a: Date, b: Date)
    requires Valid(a) && Valid(b) && Before(a, b)
    ensures DayNumber(a) < DayNumber(b)
  {
    if a.year < b.year {
      DayOfYearBounds(a);
      DayOfYearBounds(b);
      DaysBeforeYearMonotone(a.year, b.year);
    } else if a.month < b.month {
      MonthOrder(a.year, a.month, a.day, b.month, b.day);
    }
  }

  /** A date not before another has an ordinal at least as large. */
  lemma DayNumberNotBefore(a: Date, b: Date)
    requires Valid(a) && Valid(b) && !Before(b, a)
    ensures DayNumber(a) <= DayNumber(b)
  {
    if a != b {
      DayNumberMonotone(a, b);
    }
  }

  /** Distinct valid dates have distinct ordinals. */
  lemma DayNumberInjective(a: Date, b: Date)
    requires Valid(a) && Valid(b) && DayNumber(a) == DayNumber(b)
    ensures a == b
  {
    if Before(a, b) {
      DayNumberMonotone(a, b);
    } else if Before(b, a) {
      DayNumberMonotone(b, a);
    }
  }

  /** Tomorrow is exactly one day later. */
  lemma TomorrowIsNextDay(d: Date)
    requires Valid(d)
    ensures DayNumber(Tomorrow(d)) == DayNumber(d) + 1
  {
    if d.day == DaysInMonth(d.year, d.month) && d.month == 12 {
      DaysBeforeYearStep(d.year);
    }
  }
}
