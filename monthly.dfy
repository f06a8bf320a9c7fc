/**
 * The optimizer dashboard's monthly returns: the portfolio returns grouped by
 * calendar month and compounded, then laid out as a year-by-month grid with
 * one row per year and twelve cells, January to December.
 */
module MonthlyReturns {
  import opened Wrappers
  import opened Orders
  import opened Dates
  import opened OptDash

  /** A calendar month: the `year` and `month` columns of the grouping. */
  datatype YearMonth = YearMonth(year: int, month: int)

  /** `sort("year", "month")`: by year, then by month. */
  predicate YearMonthLe(a: YearMonth, b: YearMonth) {
    a.year < b.year || (a.year == b.year && a.month <= b.month)
  }

  lemma YearMonthLeTotalOrder()
    ensures TotalOrder(YearMonthLe)
  {
  }

  function MonthOf(r: ReturnRow): YearMonth {
    YearMonth(r.date.year, r.date.month)
  }

  /** The growth factor of month `ym`: the product of `1 + return` over its rows. */
  function Growth(rows: seq<ReturnRow>, ym: YearMonth): real {
    if rows == [] then 1.0
    else
      var last := rows[|rows| - 1];
      Growth(rows[..|rows| - 1], ym) * (if MonthOf(last) == ym then 1.0 + last.ret else 1.0)
  }

  /** The growth over a concatenation is the product of the growths of the parts. */
  lemma {:induction false} GrowthConcat(a: seq<ReturnRow>, b: seq<ReturnRow>, ym: YearMonth)
    ensures Growth(a + b, ym) == Growth(a, ym) * Growth(b, ym)
  {
    if b == [] {
      assert a + b == a;
    } else {
      assert (a + b)[..|a + b| - 1] == a + b[..|b| - 1];
      GrowthConcat(a, b[..|b| - 1], ym);
    }
  }

  /** Rows of other months leave the growth of `ym` at 1. */
  lemma {:induction false} GrowthOthers(rows: seq<ReturnRow>, ym: YearMonth)
    requires forall i :: 0 <= i < |rows| ==> MonthOf(rows[i]) != ym
    ensures Growth(rows, ym) == 1.0
  {
    if rows != [] { GrowthOthers(rows[..|rows| - 1], ym); }
  }

  /** A month whose returns are all 0 has growth 1, so a monthly return of 0. */
  lemma {:induction false} GrowthZeroReturns(rows: seq<ReturnRow>, ym: YearMonth)
    requires forall i :: 0 <= i < |rows| && MonthOf(rows[i]) == ym ==> rows[i].ret == 0.0
    ensures Growth(rows, ym) == 1.0
  {
    if rows != [] { GrowthZeroReturns(rows[..|rows| - 1], ym); }
  }

  /** No return of the month below -100 percent: the growth is positive. */
  lemma {:induction false} GrowthPositive(rows: seq<ReturnRow>, ym: YearMonth)
    requires forall i :: 0 <= i < |rows| && MonthOf(rows[i]) == ym ==> -1.0 < rows[i].ret
    ensures 0.0 < Growth(rows, ym)
  {
    if rows != [] {
      var p := rows[..|rows| - 1];
      GrowthPositive(p, ym);
      var last := rows[|rows| - 1];
      var f := if MonthOf(last) == ym then 1.0 + last.ret else 1.0;
      assert 0.0 < f;
      assert 0.0 < Growth(p, ym) * f;
    }
  }

  /** `product().sub(1).mul(100)`: the month's compounded return, in percent. */
  function Compounded(rows: seq<ReturnRow>, ym: YearMonth): real {
    100.0 * (Growth(rows, ym) - 1.0)
  }

  /** With every return above -100 percent, the compounded return is too. */
  lemma CompoundedAboveTotalLoss(rows: seq<ReturnRow>, ym: YearMonth)
    requires forall i :: 0 <= i < |rows| && MonthOf(rows[i]) == ym ==> -1.0 < rows[i].ret
    ensures -100.0 < Compounded(rows, ym)
  {
    GrowthPositive(rows, ym);
  }

  /** The month of each row, in table order. */
  function YearMonths(rows: seq<ReturnRow>): (r: seq<YearMonth>)
    ensures |r| == |rows|
  {
    if rows == [] then [] else YearMonths(rows[..|rows| - 1]) + [MonthOf(rows[|rows| - 1])]
  }

  lemma {:induction false} YearMonthsMembers(rows: seq<ReturnRow>)
    ensures forall ym :: ym in YearMonths(rows) <==> exists i :: 0 <= i < |rows| && MonthOf(rows[i]) == ym
  {
    if rows != [] {
      var p := rows[..|rows| - 1];
      YearMonthsMembers(p);
      assert forall i :: 0 <= i < |p| ==> p[i] == rows[i];
      assert YearMonths(rows) == YearMonths(p) + [MonthOf(rows[|rows| - 1])];
    }
  }

  /** The groups of `group_by(["year", "month"])`, in `sort("year", "month")` order. */
  function MonthKeys(rows: seq<ReturnRow>): (r: seq<YearMonth>)
    ensures StrictlyAscending(r, YearMonthLe)
    ensures forall ym :: ym in r <==> ym in YearMonths(rows)
  {
    YearMonthLeTotalOrder();
    SortedKeys(YearMonths(rows), YearMonthLe)
  }

  /** One row of the monthly table. */
  datatype MonthlyRow = MonthlyRow(year: int, month: int, monthlyReturn: real)

  function MonthlyRows(rows: seq<ReturnRow>, keys: seq<YearMonth>): (r: seq<MonthlyRow>)
    ensures |r| == |keys|
  {
    if keys == [] then []
    else
      var k := keys[|keys| - 1];
      MonthlyRows(rows, keys[..|keys| - 1]) + [MonthlyRow(k.year, k.month, Compounded(rows, k))]
  }

  lemma {:induction false} MonthlyRowsAt(rows: seq<ReturnRow>, keys: seq<YearMonth>, k: nat)
    requires k < |keys|
    ensures MonthlyRows(rows, keys)[k] == MonthlyRow(keys[k].year, keys[k].month, Compounded(rows, keys[k]))
  {
    if k < |keys| - 1 { MonthlyRowsAt(rows, keys[..|keys| - 1], k); }
  }

  /** `_monthly`: one row per month that has returns, in year-then-month order. */
  function Monthly(rows: seq<ReturnRow>): (r: seq<MonthlyRow>)
    ensures |r| == |MonthKeys(rows)|
  {
    MonthlyRows(rows, MonthKeys(rows))
  }

  function MonthlyKey(r: MonthlyRow): YearMonth {
    YearMonth(r.year, r.month)
  }

  /** Row `k` holds the `k`-th month and that month's compounded return. */
  lemma MonthlyAt(rows: seq<ReturnRow>, k: nat)
    requires k < |Monthly(rows)|
    ensures MonthlyKey(Monthly(rows)[k]) == MonthKeys(rows)[k]
    ensures Monthly(rows)[k].monthlyReturn == Compounded(rows, MonthKeys(rows)[k])
  {
    MonthlyRowsAt(rows, MonthKeys(rows), k);
  }

  /** The monthly table is strictly ascending by (year, month): one row per month. */
  lemma MonthlyAscending(rows: seq<ReturnRow>)
    ensures forall k, l :: 0 <= k < l < |Monthly(rows)| ==>
      YearMonthLe(MonthlyKey(Monthly(rows)[k]), MonthlyKey(Monthly(rows)[l])) &&
      MonthlyKey(Monthly(rows)[k]) != MonthlyKey(Monthly(rows)[l])
  {
    forall k | 0 <= k < |Monthly(rows)| ensures MonthlyKey(Monthly(rows)[k]) == MonthKeys(rows)[k] {
      MonthlyAt(rows, k);
    }
  }

  /** A month has a row exactly when some return falls in it. */
  lemma MonthlyCovers(rows: seq<ReturnRow>, ym: YearMonth)
    ensures (exists k :: 0 <= k < |Monthly(rows)| && MonthlyKey(Monthly(rows)[k]) == ym)
      <==> exists i :: 0 <= i < |rows| && MonthOf(rows[i]) == ym
  {
    var keys := MonthKeys(rows);
    YearMonthsMembers(rows);
    if exists i :: 0 <= i < |rows| && MonthOf(rows[i]) == ym {
      assert ym in keys;
      var k :| 0 <= k < |keys| && keys[k] == ym;
      MonthlyAt(rows, k);
    }
    if exists k :: 0 <= k < |Monthly(rows)| && MonthlyKey(Monthly(rows)[k]) == ym {
      var k :| 0 <= k < |Monthly(rows)| && MonthlyKey(Monthly(rows)[k]) == ym;
      MonthlyAt(rows, k);
      assert keys[k] in keys;
    }
  }

  /** The `year` column of a monthly table. */
  function YearsOf(monthly: seq<MonthlyRow>): (r: seq<int>)
    ensures |r| == |monthly|
  {
    if monthly == [] then [] else YearsOf(monthly[..|monthly| - 1]) + [monthly[|monthly| - 1].year]
  }

  lemma {:induction false} YearsOfMembers(monthly: seq<MonthlyRow>)
    ensures forall y :: y in YearsOf(monthly) <==> exists i :: 0 <= i < |monthly| && monthly[i].year == y
  {
    if monthly != [] {
      var p := monthly[..|monthly| - 1];
      YearsOfMembers(p);
      assert forall i :: 0 <= i < |p| ==> p[i] == monthly[i];
      assert YearsOf(monthly) == YearsOf(p) + [monthly[|monthly| - 1].year];
    }
  }

  /** The pivot's `year` index after `sort("year")`: each year once, ascending. */
  function Years(monthly: seq<MonthlyRow>): (r: seq<int>)
    ensures StrictlyAscending(r, IntLe)
    ensures forall y :: y in r <==> y in YearsOf(monthly)
  {
    IntLeTotalOrder();
    SortedKeys(YearsOf(monthly), IntLe)
  }

  predicate IsCell(r: MonthlyRow, y: int, m: int) {
    r.year == y && r.month == m
  }

  /** The first of the first `n` rows that lies in year `y`, month `m`. */
  function FirstCell(monthly: seq<MonthlyRow>, y: int, m: int, n: nat): (r: Option<nat>)
    requires n <= |monthly|
    ensures r.Some? ==> r.value < n && IsCell(monthly[r.value], y, m)
    ensures r.Some? ==> forall l :: 0 <= l < r.value ==> !IsCell(monthly[l], y, m)
    ensures r.None? ==> forall l :: 0 <= l < n ==> !IsCell(monthly[l], y, m)
  {
    if n == 0 then None
    else
      var t := FirstCell(monthly, y, m, n - 1);
      if t.Some? then t
      else if IsCell(monthly[n - 1], y, m) then Some(n - 1)
      else None
  }

  /**
   * The pivot cell for year `y` and month column `str(m)` with
   * `aggregate_function="first"`: the monthly return of the first row of that
   * year and month, and null when there is none.
   */
  function MonthCell(monthly: seq<MonthlyRow>, y: int, m: int): (r: Option<real>)
    ensures r.None? <==> forall l :: 0 <= l < |monthly| ==> !IsCell(monthly[l], y, m)
  {
    match FirstCell(monthly, y, m, |monthly|)
    case Some(i) => Some(monthly[i].monthlyReturn)
    case None => None
  }

  /** Where exactly one row has year `y` and month `m`, the cell holds its return. */
  lemma MonthCellUnique(monthly: seq<MonthlyRow>, y: int, m: int, i: nat)
    requires i < |monthly| && IsCell(monthly[i], y, m)
    requires forall l :: 0 <= l < |monthly| && l != i ==> !IsCell(monthly[l], y, m)
    ensures MonthCell(monthly, y, m) == Some(monthly[i].monthlyReturn)
  {
    var f := FirstCell(monthly, y, m, |monthly|);
    assert f.Some?;
  }

  /**
   * The heatmap grid: the pivot's years, and for each year the twelve cells
   * for months 1 to 12, null where the month has no return.
   */
  method HeatmapGrid(monthly: seq<MonthlyRow>) returns (years: seq<int>, z: seq<seq<Option<real>>>)
    ensures years == Years(monthly)
    ensures |z| == |years|
    ensures forall i :: 0 <= i < |z| ==> |z[i]| == 12
    ensures forall i, j :: 0 <= i < |z| && 0 <= j < 12 ==> z[i][j] == MonthCell(monthly, years[i], j + 1)
  {
    years := Years(monthly);
    z := [];
    for i := 0 to |years|
      invariant |z| == i
      invariant forall k :: 0 <= k < i ==> |z[k]| == 12
      invariant forall k, j :: 0 <= k < i && 0 <= j < 12 ==> z[k][j] == MonthCell(monthly, years[k], j + 1)
    {
      var row: seq<Option<real>> := [];
      for m := 1 to 13
        invariant |row| == m - 1
        invariant forall j :: 0 <= j < m - 1 ==> row[j] == MonthCell(monthly, years[i], j + 1)
      {
        row := row + [MonthCell(monthly, years[i], m)];
      }
      z := z + [row];
    }
  }

  /** The grid's years are exactly the years of the monthly table, each once. */
  lemma HeatmapYears(monthly: seq<MonthlyRow>, y: int)
    ensures y in Years(monthly) <==> exists i :: 0 <= i < |monthly| && monthly[i].year == y
  {
    YearsOfMembers(monthly);
  }

  /**
   * End to end: the cell for year `y` and month `m` of the grid built from
   * the portfolio returns is that month's compounded return, and null
   * exactly when no return falls in that month.
   */
  lemma HeatmapCellOfReturns(rows: seq<ReturnRow>, y: int, m: int)
    ensures MonthCell(Monthly(rows), y, m) ==
      if YearMonth(y, m) in YearMonths(rows) then Some(Compounded(rows, YearMonth(y, m))) else None
  {
    var monthly := Monthly(rows);
    var keys := MonthKeys(rows);
    var ym := YearMonth(y, m);
    if ym in YearMonths(rows) {
      var k :| 0 <= k < |keys| && keys[k] == ym;
      MonthlyAt(rows, k);
      forall l | 0 <= l < |monthly| && l != k ensures !IsCell(monthly[l], y, m) {
        MonthlyAt(rows, l);
      }
      MonthCellUnique(monthly, y, m, k);
    } else {
      forall l | 0 <= l < |monthly| ensures !IsCell(monthly[l], y, m) {
        MonthlyAt(rows, l);
        assert keys[l] in keys;
      }
    }
  }
}
