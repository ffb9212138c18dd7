/** The proleptic Gregorian calendar, for the date arithmetic Python's `datetime.date` performs.
    A date is its day number as given by `date.toordinal()`: 0001-01-01 is day 1, a Monday.
    Day numbers are unbounded here; Python confines them to the years 1 through 9999. */
module Calendar {

  /** A calendar day, as its ordinal day number. */
  type Date = int

  /** A (year, month, day) triple, as `date(year, month, day)` takes it. */
  datatype CivilDate = CivilDate(year: int, month: int, day: int) {
    /** The triple names a real day: a month 1..12 and a day within that month. */
    predicate Valid() {
      1 <= month <= 12 && 1 <= day <= DaysInMonth(year, month)
    }
  }

  /** The Gregorian leap rule: every fourth year, except centuries not divisible by 400. */
  predicate IsLeapYear(y: int) {
    y % 4 == 0 && (y % 100 != 0 || y % 400 == 0)
  }

  function DaysInYear(y: int): int {
    if IsLeapYear(y) then 366 else 365
  }

  function DaysInMonth(y: int, m: int): int
    requires 1 <= m <= 12
  {
    if m == 2 then (if IsLeapYear(y) then 29 else 28)
    else if m == 4 || m == 6 || m == 9 || m == 11 then 30
    else 31
  }

  /** Days in the year `y` before the first of month `m`. */
  function DaysBeforeMonth(y: int, m: int): int
    requires 1 <= m <= 12
  {
    var common :=
      if m == 1 then 0 else if m == 2 then 31 else if m == 3 then 59 else if m == 4 then 90
      else if m == 5 then 120 else if m == 6 then 151 else if m == 7 then 181 else if m == 8 then 212
      else if m == 9 then 243 else if m == 10 then 273 else if m == 11 then 304 else 334;
    common + (if m > 2 && IsLeapYear(y) then 1 else 0)
  }

  /** Days before January 1 of year `y`, counted from 0001-01-01. */
  function DaysBeforeYear(y: int): int {
    var p := y - 1;
    p * 365 + p / 4 - p / 100 + p / 400
  }

  /** `date(y, m, d).toordinal()`. */
  function ToOrdinal(c: CivilDate): Date
    requires c.Valid()
  {
    DaysBeforeYear(c.year) + DaysBeforeMonth(c.year, c.month) + c.day
  }

  /** `date.weekday()`: Monday is 0 and Sunday is 6. */
  function Weekday(d: Date): (w: int)
    ensures 0 <= w < 7
  {
    (d + 6) % 7
  }

  /** Month `m` ends where month `m + 1` begins, and December ends where the year does. */
  lemma MonthStep(y: int, m: int)
    requires 1 <= m <= 12
    ensures m < 12 ==> DaysBeforeMonth(y, m + 1) == DaysBeforeMonth(y, m) + DaysInMonth(y, m)
    ensures m == 12 ==> DaysBeforeMonth(y, m) + DaysInMonth(y, m) == DaysInYear(y)
  {
  }

  /** `(p + 1) / k` exceeds `p / k` by one exactly when `k` divides `p + 1`. */
  lemma DivStep(p: int, k: int)
    requires k == 4 || k == 100 || k == 400
    ensures (p + 1) / k == p / k + (if (p + 1) % k == 0 then 1 else 0)
  {
    var q, r := p / k, p % k;
    assert p == k * q + r && 0 <= r < k;
    if r + 1 == k {
      assert p + 1 == k * (q + 1);
    } else {
      assert p + 1 == k * q + (r + 1);
    }
  }

  /** Divisibility by 400 implies divisibility by 100, which implies divisibility by 4. */
  lemma DivisibilityChain(y: int)
    ensures y % 400 == 0 ==> y % 100 == 0
    ensures y % 100 == 0 ==> y % 4 == 0
  {
    if y % 100 == 0 {
      var k := y / 100;
      assert y == 4 * (25 * k);
    }
    if y % 400 == 0 {
      var k := y / 400;
      assert y == 100 * (4 * k);
    }
  }

  /** Year `y` ends where year `y + 1` begins. */
  lemma YearStep(y: int)
    ensures DaysBeforeYear(y + 1) == DaysBeforeYear(y) + DaysInYear(y)
  {
    var p := y - 1;
    DivStep(p, 4);
    DivStep(p, 100);
    DivStep(p, 400);
    DivisibilityChain(y);
  }

  /** Day numbers grow with the year. */
  lemma {:induction false} DaysBeforeYearMonotone(a: int, b: int)
    requires a <= b
    ensures DaysBeforeYear(a) <= DaysBeforeYear(b)
    ensures a < b ==> DaysBeforeYear(a + 1) <= DaysBeforeYear(b)
    decreases b - a
  {
    if a < b {
      YearStep(a);
      DaysBeforeYearMonotone(a + 1, b);
    }
  }

  /** Every 400 years hold exactly 146097 days. */
  lemma FourCenturies(q: int)
    ensures DaysBeforeYear(400 * q + 1) == 146097 * q
  {
    var p := 400 * q;
    assert p / 4 == 100 * q;
    assert p / 100 == 4 * q;
    assert p / 400 == q;
  }

  /** The year holding day `n`, found by walking forward from year `y`. */
  function FindYear(n: Date, y: int): (r: int)
    requires DaysBeforeYear(y) < n
    ensures DaysBeforeYear(r) < n <= DaysBeforeYear(r + 1)
    decreases n - DaysBeforeYear(y)
  {
    YearStep(y);
    if n <= DaysBeforeYear(y + 1) then y else FindYear(n, y + 1)
  }

  /** The month holding day `r` of year `y`, found by walking forward from month `m`. */
  function FindMonth(y: int, r: int, m: int): (k: int)
    requires 1 <= m <= 12
    requires DaysBeforeMonth(y, m) < r <= DaysInYear(y)
    ensures m <= k <= 12
    ensures DaysBeforeMonth(y, k) < r <= DaysBeforeMonth(y, k) + DaysInMonth(y, k)
    decreases 12 - m
  {
    MonthStep(y, m);
    if m == 12 || r <= DaysBeforeMonth(y, m + 1) then m else FindMonth(y, r, m + 1)
  }

  /** `date.fromordinal(n)`: the calendar date of day number `n`. */
  function FromOrdinal(n: Date): (c: CivilDate)
    ensures c.Valid() && ToOrdinal(c) == n
  {
    var q := (n - 1) / 146097;
    FourCenturies(q);
    var y := FindYear(n, 400 * q + 1);
    YearStep(y);
    var m := FindMonth(y, n - DaysBeforeYear(y), 1);
    CivilDate(y, m, n - DaysBeforeYear(y) - DaysBeforeMonth(y, m))
  }

  /** The day number of a valid date lies within its year. */
  lemma OrdinalWithinYear(c: CivilDate)
    requires c.Valid()
    ensures DaysBeforeYear(c.year) < ToOrdinal(c) <= DaysBeforeYear(c.year + 1)
  {
    YearStep(c.year);
    MonthStep(c.year, 12);
  }

  /** Distinct valid dates have distinct day numbers. */
  lemma ToOrdinalInjective(a: CivilDate, b: CivilDate)
    requires a.Valid() && b.Valid()
    requires ToOrdinal(a) == ToOrdinal(b)
    ensures a == b
  {
    OrdinalWithinYear(a);
    OrdinalWithinYear(b);
    if a.year < b.year {
      DaysBeforeYearMonotone(a.year, b.year);
    } else if b.year < a.year {
      DaysBeforeYearMonotone(b.year, a.year);
    }
    assert a.year == b.year;
    var y := a.year;
    MonthStep(y, a.month);
    MonthStep(y, b.month);
  }

  /** `date.fromordinal(d.toordinal()) == d` for every valid date. */
  lemma ToFromOrdinal(c: CivilDate)
    requires c.Valid()
    ensures FromOrdinal(ToOrdinal(c)) == c
  {
    ToOrdinalInjective(FromOrdinal(ToOrdinal(c)), c);
  }

  /** Moving `k` days forward moves the weekday `k` steps round the week. */
  lemma WeekdayShift(d: Date, k: int)
    ensures Weekday(d + k) == (Weekday(d) + k) % 7
  {
  }
}
