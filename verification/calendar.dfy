/** Proleptic Gregorian calendar arithmetic on day ordinals, as Python's
    `date.toordinal` numbers days: day 1 is 0001-01-01. Months are numbered
    `12 * year + (month - 1)`, so that consecutive months have consecutive
    numbers and the `"%Y-%m"` keys of app/portfolio.py map to them in order. */
module Calendar {

  predicate IsLeap(y: int) {
    y % 4 == 0 && (y % 100 != 0 || y % 400 == 0)
  }

  function DaysInYear(y: int): int {
    if IsLeap(y) then 366 else 365
  }

  /** Days in the years before `y`, for `y >= 1`. */
  function DaysBeforeYear(y: int): int
    requires y >= 1
  {
    var p := y - 1;
    365 * p + p / 4 - p / 100 + p / 400
  }

  /** Passing a year adds that year's days. */
  lemma DaysBeforeYearStep(y: int)
    requires y >= 1
    ensures DaysBeforeYear(y + 1) == DaysBeforeYear(y) + DaysInYear(y)
  {
    StepBy4(y);
    StepBy100(y);
    StepBy400(y);
    if y % 400 == 0 {
      MultipleOf400(y);
    } else if y % 100 == 0 {
      MultipleOf100(y);
    }
  }

  /** Each leap-year counter goes up by one exactly at a multiple. */
  lemma StepBy4(y: int)
    ensures y / 4 - (y - 1) / 4 == (if y % 4 == 0 then 1 else 0)
  {
  }

  lemma StepBy100(y: int)
    ensures y / 100 - (y - 1) / 100 == (if y % 100 == 0 then 1 else 0)
  {
  }

  lemma StepBy400(y: int)
    ensures y / 400 - (y - 1) / 400 == (if y % 400 == 0 then 1 else 0)
  {
  }

  lemma MultipleOf400(y: int)
    requires y % 400 == 0
    ensures y % 100 == 0 && y % 4 == 0
  {
    var q := y / 400;
    assert y == 100 * (4 * q);
    assert y == 4 * (100 * q);
  }

  lemma MultipleOf100(y: int)
    requires y % 100 == 0
    ensures y % 4 == 0
  {
    var q := y / 100;
    assert y == 4 * (25 * q);
  }

  function DaysInMonth(y: int, m: int): int
    requires 1 <= m <= 12
  {
    if m == 2 then (if IsLeap(y) then 29 else 28)
    else if m == 4 || m == 6 || m == 9 || m == 11 then 30
    else 31
  }

  /** Days in the months of year `y` before month `m`. */
  function DaysBeforeMonth(y: int, m: int): int
    requires 1 <= m <= 12
  {
    var leap := if IsLeap(y) && m > 2 then 1 else 0;
    leap + (if m == 1 then 0 else if m == 2 then 31 else if m == 3 then 59
            else if m == 4 then 90 else if m == 5 then 120 else if m == 6 then 151
            else if m == 7 then 181 else if m == 8 then 212 else if m == 9 then 243
            else if m == 10 then 273 else if m == 11 then 304 else 334)
  }

  /** The month table agrees with the month lengths, and the year's months
      add up to the year. */
  lemma DaysBeforeMonthStep(y: int, m: int)
    requires 1 <= m <= 12
    ensures m < 12 ==> DaysBeforeMonth(y, m + 1) == DaysBeforeMonth(y, m) + DaysInMonth(y, m)
    ensures m == 12 ==> DaysBeforeMonth(y, m) + DaysInMonth(y, m) == DaysInYear(y)
  {
  }

  function YearOf(k: int): int { k / 12 }
  function MonthNumber(k: int): int { k % 12 + 1 }

  /** The month numbered `k` covers year `k / 12` and month `k % 12 + 1`. */
  function MonthIndex(y: int, m: int): (k: int)
    requires 1 <= m <= 12
    ensures YearOf(k) == y && MonthNumber(k) == m
  {
    12 * y + (m - 1)
  }

  /** The ordinal of the first day of month `k`. */
  function MonthStart(k: int): int
    requires k >= 12
  {
    DaysBeforeYear(YearOf(k)) + DaysBeforeMonth(YearOf(k), MonthNumber(k)) + 1
  }

  /** The ordinal of the last day of month `k`: the day before the next
      month starts. */
  function MonthEnd(k: int): int
    requires k >= 12
  {
    MonthStart(k + 1) - 1
  }

  /** Consecutive months are exactly one month's days apart, across a year
      end too. */
  lemma MonthStartStep(k: int)
    requires k >= 12
    ensures MonthStart(k + 1) == MonthStart(k) + DaysInMonth(YearOf(k), MonthNumber(k))
  {
    var y := YearOf(k);
    if MonthNumber(k) == 12 {
      assert YearOf(k + 1) == y + 1 && MonthNumber(k + 1) == 1;
      DaysBeforeYearStep(y);
      DaysBeforeMonthStep(y, 12);
    } else {
      assert YearOf(k + 1) == y && MonthNumber(k + 1) == MonthNumber(k) + 1;
      DaysBeforeMonthStep(y, MonthNumber(k));
    }
  }

  /** Later months start later. */
  lemma {:induction false} MonthStartMonotone(j: int, k: int)
    requires 12 <= j <= k
    ensures MonthStart(j) <= MonthStart(k)
    decreases k - j
  {
    if j < k {
      MonthStartMonotone(j, k - 1);
      MonthStartStep(k - 1);
      assert DaysInMonth(YearOf(k - 1), MonthNumber(k - 1)) >= 28;
    }
  }

  /** Searches forward from month `k` for the month containing day `d`. */
  function FindMonth(d: int, k: int): (r: int)
    requires k >= 12 && MonthStart(k) <= d
    ensures r >= k && MonthStart(r) <= d <= MonthEnd(r)
    decreases d - MonthStart(k)
  {
    MonthStartStep(k);
    if d < MonthStart(k + 1) then k else FindMonth(d, k + 1)
  }

  /** The month containing day `d` (`d.strftime("%Y-%m")`). */
  function MonthOf(d: int): (k: int)
    requires d >= 1
    ensures k >= 12 && MonthStart(k) <= d <= MonthEnd(k)
  {
    assert MonthStart(12) == 1;
    FindMonth(d, 12)
  }

  /** A later month starts after an earlier one ends. */
  lemma MonthsDisjoint(j: int, k: int)
    requires 12 <= j < k
    ensures MonthEnd(j) < MonthStart(k)
  {
    MonthStartMonotone(j + 1, k);
  }

  /** A day lies in exactly one month. */
  lemma MonthOfUnique(d: int, k: int)
    requires d >= 1 && k >= 12 && MonthStart(k) <= d <= MonthEnd(k)
    ensures MonthOf(d) == k
  {
    var j := MonthOf(d);
    if j < k {
      MonthsDisjoint(j, k);
    }
    if k < j {
      MonthsDisjoint(k, j);
    }
  }

  /** Months are ordered as their days are. */
  lemma MonthOfMonotone(d: int, e: int)
    requires 1 <= d <= e
    ensures MonthOf(d) <= MonthOf(e)
  {
    var j := MonthOf(d);
    var k := MonthOf(e);
    if k + 1 <= j {
      MonthStartMonotone(k + 1, j);
    }
  }
}
