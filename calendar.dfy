/**
 * The proleptic Gregorian calendar as Python's `datetime` module sees it.
 * A day is named by its ordinal: day 1 is 0001-01-01, a Monday, and
 * 9999-12-31 (the last day a Python `date` can hold) is `MaxOrdinal`.
 * `ToOrdinal` and `FromOrdinal` are the two directions of the bijection
 * between valid civil dates and ordinals.
 */
module Calendar {

  import opened Wrappers

  datatype Date = Date(year: int, month: int, day: int)

  /** The ordinal of 9999-12-31. */
  const MaxOrdinal: int := 3652059


  predicate IsLeap(y: int) {
    y % 4 == 0 && (y % 100 != 0 || y % 400 == 0)
  }

  function DaysInYear(y: int): int {
    if IsLeap(y) then 366 else 365
  }

  function DaysInMonth(y: int, m: int): int
    requires 1 <= m <= 12
  {
    if m == 2 then (if IsLeap(y) then 29 else 28)
    else if m == 4 || m == 6 || m == 9 || m == 11 then 30
    else 31
  }

  predicate ValidDate(d: Date) {
    1 <= d.month <= 12 && 1 <= d.day <= DaysInMonth(d.year, d.month)
  }

  /** Number of days in the years before `y` (counted from year 1). */
  function DaysBeforeYear(y: int): int {
    var k := y - 1;
    365 * k + k / 4 - k / 100 + k / 400
  }

  /** Number of days in year `y` before the first of month `m`; month 13 stands for the next year. */
  function DaysBeforeMonth(y: int, m: int): int
    requires 1 <= m <= 13
  {
    (if m > 2 && IsLeap(y) then 1 else 0) +
    (if m == 1 then 0 else if m == 2 then 31 else if m == 3 then 59
     else if m == 4 then 90 else if m == 5 then 120 else if m == 6 then 151
     else if m == 7 then 181 else if m == 8 then 212 else if m == 9 then 243
     else if m == 10 then 273 else if m == 11 then 304 else if m == 12 then 334
     else 365)
  }

  function ToOrdinal(d: Date): int
    requires 1 <= d.month <= 12
  {
    DaysBeforeYear(d.year) + DaysBeforeMonth(d.year, d.month) + d.day
  }

  /** Python's `date.weekday()`: 0 is Monday, 4 is Friday, 5 is Saturday, 6 is Sunday. */
  function Weekday(n: int): (w: int)
    ensures 0 <= w < 7
    ensures n == 1 ==> w == 0
  {
    (n + 6) % 7
  }

  lemma MonthTable(y: int, m: int)
    requires 1 <= m <= 12
    ensures DaysBeforeMonth(y, m + 1) == DaysBeforeMonth(y, m) + DaysInMonth(y, m)
    ensures DaysBeforeMonth(y, 13) == DaysInYear(y)
  {
  }

  lemma DivStep4(k: int)
    ensures (k + 1) / 4 == k / 4 + (if (k + 1) % 4 == 0 then 1 else 0)
  {
  }

  lemma DivStep100(k: int)
    ensures (k + 1) / 100 == k / 100 + (if (k + 1) % 100 == 0 then 1 else 0)
  {
  }

  lemma DivStep400(k: int)
    ensures (k + 1) / 400 == k / 400 + (if (k + 1) % 400 == 0 then 1 else 0)
  {
  }

  lemma Century4(x: int)
    requires x % 100 == 0
    ensures x % 4 == 0
  {
    assert x == 4 * (25 * (x / 100));
  }

  lemma Quadricentury100(x: int)
    requires x % 400 == 0
    ensures x % 100 == 0
  {
    assert x == 100 * (4 * (x / 400));
  }

  lemma {:induction false} YearLength(y: int)
    ensures DaysBeforeYear(y + 1) == DaysBeforeYear(y) + DaysInYear(y)
  {
    var k := y - 1;
    DivStep4(k);
    DivStep100(k);
    DivStep400(k);
    if y % 100 == 0 {
      Century4(y);
    }
    if y % 400 == 0 {
      Quadricentury100(y);
    }
    assert DaysBeforeYear(y + 1) == 365 * (k + 1) + (k + 1) / 4 - (k + 1) / 100 + (k + 1) / 400;
    assert DaysBeforeYear(y) == 365 * k + k / 4 - k / 100 + k / 400;
  }

  /** Days before year 1 + 400q + 100a + 4b + c, for a year inside the q-th 400-year cycle. */
  lemma {:induction false} CycleDays(q: int, a: int, b: int, c: int)
    requires 0 <= a <= 3 && 0 <= b <= 24 && 0 <= c <= 3
    ensures DaysBeforeYear(400 * q + 100 * a + 4 * b + c + 1)
         == 146097 * q + 36524 * a + 1461 * b + 365 * c
  {
    var k := 400 * q + 100 * a + 4 * b + c;
    assert k == 4 * (100 * q + 25 * a + b) + c;
    assert k / 4 == 100 * q + 25 * a + b;
    assert k == 100 * (4 * q + a) + (4 * b + c);
    assert k / 100 == 4 * q + a;
    assert k == 400 * q + (100 * a + 4 * b + c);
    assert k / 400 == q;
  }

  /** The remainder of y = 4q + r, with 1 <= r <= 4, is zero exactly when r is 4. */
  lemma Mod4Zero(y: int, q: int, r: int)
    requires y == 4 * q + r && 1 <= r <= 4
    ensures y % 4 == 0 <==> r == 4
  {
  }

  lemma Mod100Zero(y: int, q: int, r: int)
    requires y == 100 * q + r && 1 <= r <= 100
    ensures y % 100 == 0 <==> r == 100
  {
  }

  lemma Mod400Zero(y: int, q: int, r: int)
    requires y == 400 * q + r && 1 <= r <= 400
    ensures y % 400 == 0 <==> r == 400
  {
  }

  /** Year `y` is leap iff its position in the cycles makes it so. */
  lemma {:induction false} CycleLeap(q: int, a: int, b: int, c: int)
    requires 0 <= a <= 3 && 0 <= b <= 24 && 0 <= c <= 3
    ensures IsLeap(400 * q + 100 * a + 4 * b + c + 1) <==> (c == 3 && (b != 24 || a == 3))
  {
    var y := 400 * q + 100 * a + 4 * b + c + 1;
    Mod4Zero(y, 100 * q + 25 * a + b, c + 1);
    Mod100Zero(y, 4 * q + a, 4 * b + c + 1);
    Mod400Zero(y, q, 100 * a + 4 * b + c + 1);
  }

  /**
   * Splits an ordinal into its year and 0-based day of that year, by counting whole
   * 400-, 100-, 4- and 1-year spans (146097, 36524, 1461 and 365 days) from 0001-01-01.
   */
  function YearAndDay(n: int): (r: (int, int))
    ensures 0 <= r.1 < DaysInYear(r.0)
    ensures DaysBeforeYear(r.0) + r.1 + 1 == n
  {
    var m := n - 1;
    var q400, r400 := m / 146097, m % 146097;
    var q100, r100 := r400 / 36524, r400 % 36524;
    var q4, r4 := r100 / 1461, r100 % 1461;
    var q1, r1 := r4 / 365, r4 % 365;
    if q100 == 4 then
      // the last day of a 400-year cycle: December 31 of a year divisible by 400
      assert r400 == 146096 && r1 == 0;
      CycleDays(q400, 3, 24, 3);
      CycleLeap(q400, 3, 24, 3);
      YearLength(400 * q400 + 400);
      (400 * q400 + 400, 365)
    else if q1 == 4 then
      // the last day of a leap year inside a 4-year span
      assert r4 == 1460 && q4 <= 23;
      CycleDays(q400, q100, q4, 3);
      CycleLeap(q400, q100, q4, 3);
      (400 * q400 + 100 * q100 + 4 * q4 + 4, 365)
    else
      CycleDays(q400, q100, q4, q1);
      CycleLeap(q400, q100, q4, q1);
      (400 * q400 + 100 * q100 + 4 * q4 + q1 + 1, r1)
  }

  /** The month of year `y` holding the 0-based day of the year `doy`, searching from month `m`. */
  function MonthOfDay(y: int, doy: int, m: int): (r: int)
    requires 1 <= m <= 12
    requires DaysBeforeMonth(y, m) <= doy < DaysInYear(y)
    ensures m <= r <= 12
    ensures DaysBeforeMonth(y, r) <= doy < DaysBeforeMonth(y, r + 1)
    decreases 12 - m
  {
    MonthTable(y, m);
    if doy < DaysBeforeMonth(y, m + 1) || m == 12 then m
    else MonthOfDay(y, doy, m + 1)
  }

  /** Python's `date.fromordinal`. */
  function FromOrdinal(n: int): (d: Date)
    ensures ValidDate(d)
    ensures ToOrdinal(d) == n
  {
    var (y, doy) := YearAndDay(n);
    MonthTable(y, 1);
    var m := MonthOfDay(y, doy, 1);
    MonthTable(y, m);
    Date(y, m, doy - DaysBeforeMonth(y, m) + 1)
  }

  lemma {:induction false} DaysBeforeYearMonotone(y1: int, y2: int)
    requires y1 < y2
    ensures DaysBeforeYear(y1 + 1) <= DaysBeforeYear(y2)
    decreases y2 - y1
  {
    if y1 + 1 < y2 {
      DaysBeforeYearMonotone(y1, y2 - 1);
      YearLength(y2 - 1);
    }
  }

  /** A valid date lies strictly after the days of the years before it and within its own year. */
  lemma OrdinalWithinYear(d: Date)
    requires ValidDate(d)
    ensures DaysBeforeYear(d.year) < ToOrdinal(d) <= DaysBeforeYear(d.year + 1)
  {
    MonthTable(d.year, d.month);
    YearLength(d.year);
  }

  /** Every date of years 1 to 9999 has an ordinal between 1 and MaxOrdinal. */
  lemma {:induction false} OrdinalInRange(d: Date)
    requires ValidDate(d) && 1 <= d.year <= 9999
    ensures 1 <= ToOrdinal(d) <= MaxOrdinal
  {
    OrdinalWithinYear(d);
    if d.year > 1 {
      DaysBeforeYearMonotone(0, d.year);
    }
    if d.year < 9999 {
      DaysBeforeYearMonotone(d.year, 9999);
    }
  }

  lemma {:induction false} ToOrdinalInjective(d1: Date, d2: Date)
    requires ValidDate(d1) && ValidDate(d2)
    requires ToOrdinal(d1) == ToOrdinal(d2)
    ensures d1 == d2
  {
    OrdinalWithinYear(d1);
    OrdinalWithinYear(d2);
    if d1.year < d2.year {
      DaysBeforeYearMonotone(d1.year, d2.year);
      assert false;
    } else if d2.year < d1.year {
      DaysBeforeYearMonotone(d2.year, d1.year);
      assert false;
    }
    MonthTable(d1.year, d1.month);
    MonthTable(d1.year, d2.month);
  }

  /** The other direction of the bijection: every valid date is recovered from its ordinal. */
  lemma {:induction false} FromToOrdinal(d: Date)
    requires ValidDate(d)
    ensures FromOrdinal(ToOrdinal(d)) == d
  {
    ToOrdinalInjective(FromOrdinal(ToOrdinal(d)), d);
  }

  /** Every ordinal a Python `date` can hold names a date of the years 1 to 9999. */
  lemma {:induction false} OrdinalYearRange(n: int)
    requires 1 <= n <= MaxOrdinal
    ensures 1 <= FromOrdinal(n).year <= 9999
  {
    var d := FromOrdinal(n);
    OrdinalWithinYear(d);
    if d.year < 1 {
      DaysBeforeYearMonotone(d.year, 1);
      assert false;
    }
    if d.year > 9999 {
      DaysBeforeYearMonotone(9999, d.year);
      assert false;
    }
  }

  /** The calendar day before `d`, by the rules of months and years. */
  function PreviousDate(d: Date): Date
    requires ValidDate(d)
  {
    if d.day > 1 then Date(d.year, d.month, d.day - 1)
    else if d.month > 1 then Date(d.year, d.month - 1, DaysInMonth(d.year, d.month - 1))
    else Date(d.year - 1, 12, 31)
  }

  /** The previous date is a date, and its ordinal is one less. */
  lemma {:induction false} PreviousDateOrdinal(d: Date)
    requires ValidDate(d)
    ensures ValidDate(PreviousDate(d)) && ToOrdinal(PreviousDate(d)) == ToOrdinal(d) - 1
  {
    if d.day == 1 && d.month > 1 {
      MonthTable(d.year, d.month - 1);
    } else if d.day == 1 {
      YearLength(d.year - 1);
      MonthTable(d.year - 1, 12);
    }
  }

  /** Stepping one ordinal back is stepping one calendar day back. */
  lemma {:induction false} OrdinalPredecessor(n: int)
    ensures FromOrdinal(n - 1) == PreviousDate(FromOrdinal(n))
  {
    PreviousOfOrdinal(FromOrdinal(n), n);
  }

  lemma {:induction false} PreviousOfOrdinal(d: Date, n: int)
    requires ValidDate(d) && ToOrdinal(d) == n
    ensures FromOrdinal(n - 1) == PreviousDate(d)
  {
    PreviousDateOrdinal(d);
    OrdinalNames(PreviousDate(d), n - 1);
  }

  /** The date whose ordinal is m is the one FromOrdinal(m) yields. */
  lemma {:induction false} OrdinalNames(d: Date, m: int)
    requires ValidDate(d) && ToOrdinal(d) == m
    ensures FromOrdinal(m) == d
  {
    FromToOrdinal(d);
  }

  /** Python's '%b' in the C locale. */
  function MonthAbbreviation(m: int): (s: string)
    requires 1 <= m <= 12
    ensures |s| == 3
  {
    ["Jan", "Feb", "Mar", "Apr", "May", "Jun", "Jul", "Aug", "Sep", "Oct", "Nov", "Dec"][m - 1]
  }

  /** The month whose abbreviation is `s`, if any. */
  function MonthNamed(s: string): (r: Option<int>)
    ensures r.Some? ==> 1 <= r.value <= 12 && MonthAbbreviation(r.value) == s
  {
    if s == "Jan" then Some(1) else if s == "Feb" then Some(2) else if s == "Mar" then Some(3)
    else if s == "Apr" then Some(4) else if s == "May" then Some(5) else if s == "Jun" then Some(6)
    else if s == "Jul" then Some(7) else if s == "Aug" then Some(8) else if s == "Sep" then Some(9)
    else if s == "Oct" then Some(10) else if s == "Nov" then Some(11) else if s == "Dec" then Some(12)
    else None
  }

  lemma MonthAbbreviationsDistinct(m: int)
    requires 1 <= m <= 12
    ensures MonthNamed(MonthAbbreviation(m)) == Some(m)
  {
  }
}
