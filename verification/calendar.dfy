/**
 * Proleptic Gregorian dates as Python's `date` numbers them: day ordinals with
 * 0001-01-01 as day 1 (a Monday), and years 1 through 9999.
 */
module Calendar {

  const MinYear := 1
  const MaxYear := 9999

  predicate IsLeap(y: int) {
    y % 4 == 0 && (y % 100 != 0 || y % 400 == 0)
  }

  function DaysInYear(y: int): int {
    if IsLeap(y) then 366 else 365
  }

  function DaysInMonth(y: int, m: int): int
    requires 1 <= m <= 12
  {
    if m == 2 then (if IsLeap(y) then 29 else 28)
    else if m == 4 || m == 6 || m == 9 || m == 11 then 30
    else 31
  }

  /** Days in the year before the first of month `m` (Python's `_days_before_month`). */
  function DaysBeforeMonth(y: int, m: int): int
    requires 1 <= m <= 12
  {
    var table := [0, 31, 59, 90, 120, 151, 181, 212, 243, 273, 304, 334];
    table[m - 1] + (if m > 2 && IsLeap(y) then 1 else 0)
  }

  /** Days before January 1 of year `y` (Python's `_days_before_year`). */
  function DaysBeforeYear(y: int): int
    requires y >= 1
  {
    var p := y - 1;
    p * 365 + p / 4 - p / 100 + p / 400
  }

  datatype Date = Date(year: int, month: int, day: int)

  predicate Valid(d: Date) {
    && MinYear <= d.year <= MaxYear
    && 1 <= d.month <= 12
    && 1 <= d.day <= DaysInMonth(d.year, d.month)
  }

  /** Python `date.toordinal()`. */
  function Ordinal(d: Date): (o: int)
    requires Valid(d)
    ensures o >= 1
  {
    DaysBeforeYear(d.year) + DaysBeforeMonth(d.year, d.month) + d.day
  }

  /** The ordinal of 9999-12-31, the last day Python's `date` can represent. */
  const MaxOrdinal: int := DaysBeforeYear(MaxYear) + 365

  /** Python `date.weekday()` on an ordinal: Monday is 0, Sunday is 6. */
  function Weekday(o: int): (w: int)
    ensures 0 <= w < 7
  {
    (o + 6) % 7
  }

  lemma DaysBeforeNextMonth(y: int, m: int)
    requires 1 <= m < 12
    ensures DaysBeforeMonth(y, m + 1) == DaysBeforeMonth(y, m) + DaysInMonth(y, m)
  {
  }

  lemma DaysBeforeMonthEndOfYear(y: int)
    ensures DaysBeforeMonth(y, 12) + DaysInMonth(y, 12) == DaysInYear(y)
  {
  }

  lemma {:induction false} MulAtLeast(d: int, k: int)
    requires d >= 1 && k > 0
    ensures d * k >= k
    decreases d
  {
    if d > 1 {
      MulAtLeast(d - 1, k);
      assert d * k == (d - 1) * k + k;
    }
  }

  /** Division by a positive divisor has one quotient and one remainder. */
  lemma DivUnique(x: int, k: int, a: int, b: int)
    requires k > 0 && 0 <= b < k && x == a * k + b
    ensures x / k == a && x % k == b
  {
    var q, r := x / k, x % k;
    assert x == q * k + r && 0 <= r < k;
    assert (a - q) * k == r - b by {
      assert a * k - q * k == (a - q) * k;
    }
    if a > q {
      MulAtLeast(a - q, k);
    } else if a < q {
      MulAtLeast(q - a, k);
    }
  }

  /** Stepping one year, `p / k` grows by one exactly when `k` divides the new year. */
  lemma DivStep(p: int, k: int)
    requires p >= 0 && k > 0
    ensures (p + 1) / k - p / k == (if (p + 1) % k == 0 then 1 else 0)
  {
    var q, r := p / k, p % k;
    if r + 1 < k {
      DivUnique(p + 1, k, q, r + 1);
    } else {
      DivUnique(p + 1, k, q + 1, 0);
    }
  }

  lemma DivisibilityChain(y: int)
    ensures y % 400 == 0 ==> y % 100 == 0
    ensures y % 100 == 0 ==> y % 4 == 0
  {
    if y % 400 == 0 {
      var q := y / 400;
      assert y == q * 400;
      DivUnique(y, 100, 4 * q, 0);
    }
    if y % 100 == 0 {
      var q := y / 100;
      assert y == q * 100;
      DivUnique(y, 4, 25 * q, 0);
    }
  }

  lemma {:induction false} DaysBeforeNextYear(y: int)
    requires y >= 1
    ensures DaysBeforeYear(y + 1) == DaysBeforeYear(y) + DaysInYear(y)
  {
    var p := y - 1;
    DivStep(p, 4);
    DivStep(p, 100);
    DivStep(p, 400);
    DivisibilityChain(y);
  }

  /** A date lies between the first and the last day of its month. */
  lemma WithinMonth(d: Date)
    requires Valid(d)
    ensures Ordinal(Date(d.year, d.month, 1)) <= Ordinal(d) <= Ordinal(Date(d.year, d.month, DaysInMonth(d.year, d.month)))
  {
  }

  /** The first and last day of a month are `DaysInMonth - 1` days apart. */
  lemma MonthSpan(y: int, m: int)
    requires MinYear <= y <= MaxYear && 1 <= m <= 12
    ensures Ordinal(Date(y, m, DaysInMonth(y, m))) - Ordinal(Date(y, m, 1)) == DaysInMonth(y, m) - 1
  {
  }

  /** The day before the first of the next month is the last day of this month. */
  lemma {:induction false} NextMonthStart(y: int, m: int)
    requires MinYear <= y <= MaxYear && 1 <= m <= 12
    requires m == 12 ==> y < MaxYear
    ensures m < 12 ==> Ordinal(Date(y, m + 1, 1)) - 1 == Ordinal(Date(y, m, DaysInMonth(y, m)))
    ensures m == 12 ==> Ordinal(Date(y + 1, 1, 1)) - 1 == Ordinal(Date(y, 12, 31))
  {
    if m < 12 {
      DaysBeforeNextMonth(y, m);
    } else {
      DaysBeforeNextYear(y);
      DaysBeforeMonthEndOfYear(y);
    }
  }

  lemma {:induction false} OrdinalAtMost(d: Date)
    requires Valid(d)
    ensures Ordinal(d) <= MaxOrdinal
  {
    // Years before MaxYear end before it begins.
    var y := d.year;
    assert DaysBeforeMonth(y, d.month) + d.day <= DaysInYear(y) by {
      if d.month < 12 {
        DaysBeforeNextMonth(y, d.month);
        assert DaysBeforeMonth(y, d.month + 1) <= DaysBeforeMonth(y, 12);
      }
      DaysBeforeMonthEndOfYear(y);
    }
    DaysBeforeYearMonotone(y, MaxYear);
    if y < MaxYear {
      DaysBeforeYearMonotone(y + 1, MaxYear);
      DaysBeforeNextYear(y);
    }
  }

  lemma {:induction false} DaysBeforeYearMonotone(a: int, b: int)
    requires 1 <= a <= b
    ensures DaysBeforeYear(a) <= DaysBeforeYear(b)
    decreases b - a
  {
    if a < b {
      DaysBeforeNextYear(a);
      DaysBeforeYearMonotone(a + 1, b);
    }
  }

  /** Every ordinal's week begins on a Monday that is still a valid date. */
  lemma MondayOnOrBefore(o: int)
    requires o >= 1
    ensures o - Weekday(o) >= 1
    ensures Weekday(o - Weekday(o)) == 0
  {
  }
}
