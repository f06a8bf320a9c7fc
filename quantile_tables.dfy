/**
 * The quantile-portfolio tables of the research notebooks: the wide table
 * (one row per date, one nullable return column per quantile portfolio and
 * for the spread), `drop_nulls`, the `unpivot` to long rows, and the
 * per-quantile running sum `cum_sum().over("quantile")`.
 */
module QuantileTables {
  import opened Wrappers
  import opened Dates
  import opened Frames
  import opened Aggregates

  datatype WideRow = WideRow(date: Date, cells: seq<Option<real>>)

  /** `columns` names the value columns; each row has one cell per column. */
  datatype WideTable = WideTable(columns: seq<string>, rows: seq<WideRow>)

  predicate WellFormed(t: WideTable) {
    forall i :: 0 <= i < |t.rows| ==> |t.rows[i].cells| == |t.columns|
  }

  /** No two value columns share a name. */
  predicate DistinctColumns(t: WideTable) {
    forall k, l :: 0 <= k < l < |t.columns| ==> t.columns[k] != t.columns[l]
  }

  predicate Complete(row: WideRow) {
    forall k :: 0 <= k < |row.cells| ==> row.cells[k].Some?
  }

  /**
   * `drop_nulls`: a row with a null in any column is removed entirely, every
   * other row is kept, in order.
   */
  function DropNulls(t: WideTable): (r: WideTable)
    ensures r.columns == t.columns
    ensures forall row :: row in r.rows <==> row in t.rows && Complete(row)
    ensures forall i :: 0 <= i < |r.rows| ==> Complete(r.rows[i])
    ensures WellFormed(t) ==> WellFormed(r)
  {
    FilterMembers(t.rows, Complete);
    WideTable(t.columns, Filter(t.rows, Complete))
  }

  /** A row of the long table: one (date, quantile) cell of the wide table. */
  datatype LongRow = LongRow(date: Date, quantile: string, ret: Option<real>)

  /** The long rows of value column `k`, in the wide table's row order. */
  function Column(t: WideTable, k: nat): (r: seq<LongRow>)
    requires WellFormed(t) && k < |t.columns|
    ensures |r| == |t.rows|
    ensures forall i :: 0 <= i < |t.rows| ==>
      r[i] == LongRow(t.rows[i].date, t.columns[k], t.rows[i].cells[k])
  {
    seq(|t.rows|, i requires 0 <= i < |t.rows| => LongRow(t.rows[i].date, t.columns[k], t.rows[i].cells[k]))
  }

  /** The blocks of the first `n` value columns, one after the other. */
  function UnpivotColumns(t: WideTable, n: nat): (r: seq<LongRow>)
    requires WellFormed(t) && n <= |t.columns|
  {
    if n == 0 then [] else UnpivotColumns(t, n - 1) + Column(t, n - 1)
  }

  lemma {:induction false} UnpivotColumnsLength(t: WideTable, n: nat)
    requires WellFormed(t) && n <= |t.columns|
    ensures |UnpivotColumns(t, n)| == n * |t.rows|
  {
    if n > 0 {
      UnpivotColumnsLength(t, n - 1);
      assert (n - 1) * |t.rows| + |t.rows| == n * |t.rows|;
    }
  }

  /** Where cell (i, k) of the wide table lands in the long table. */
  function Position(t: WideTable, k: nat, i: nat): nat {
    k * |t.rows| + i
  }

  /** The first `n` blocks hold cell (i, k) at its position, for k < n. */
  lemma {:induction false} UnpivotColumnsAt(t: WideTable, n: nat, k: nat, i: nat)
    requires WellFormed(t) && n <= |t.columns| && k < n && i < |t.rows|
    ensures Position(t, k, i) < |UnpivotColumns(t, n)|
    ensures UnpivotColumns(t, n)[Position(t, k, i)] == LongRow(t.rows[i].date, t.columns[k], t.rows[i].cells[k])
  {
    var m := |t.rows|;
    var p := UnpivotColumns(t, n - 1);
    UnpivotColumnsLength(t, n - 1);
    UnpivotColumnsLength(t, n);
    assert UnpivotColumns(t, n) == p + Column(t, n - 1);
    if k < n - 1 {
      UnpivotColumnsAt(t, n - 1, k, i);
    } else {
      assert k * m == |p|;
    }
  }

  /**
   * `unpivot(index="date", variable_name="quantile", value_name="return")`:
   * one long row per (value column, date), column by column, with the column
   * name as `quantile` and the cell as `return`.
   */
  function Unpivot(t: WideTable): (r: seq<LongRow>)
    requires WellFormed(t)
    ensures forall k, i :: 0 <= k < |t.columns| && 0 <= i < |t.rows| ==>
      Position(t, k, i) < |r| &&
      r[Position(t, k, i)] == LongRow(t.rows[i].date, t.columns[k], t.rows[i].cells[k])
  {
    UnpivotAll(t);
    UnpivotColumns(t, |t.columns|)
  }

  /** One long row per (value column, date). */
  lemma UnpivotLength(t: WideTable)
    requires WellFormed(t)
    ensures |Unpivot(t)| == |t.columns| * |t.rows|
  {
    UnpivotColumnsLength(t, |t.columns|);
  }

  lemma UnpivotAll(t: WideTable)
    requires WellFormed(t)
    ensures forall k, i :: 0 <= k < |t.columns| && 0 <= i < |t.rows| ==>
      Position(t, k, i) < |UnpivotColumns(t, |t.columns|)| &&
      UnpivotColumns(t, |t.columns|)[Position(t, k, i)] == LongRow(t.rows[i].date, t.columns[k], t.rows[i].cells[k])
  {
    forall k, i | 0 <= k < |t.columns| && 0 <= i < |t.rows|
      ensures Position(t, k, i) < |UnpivotColumns(t, |t.columns|)| &&
        UnpivotColumns(t, |t.columns|)[Position(t, k, i)] == LongRow(t.rows[i].date, t.columns[k], t.rows[i].cells[k])
    {
      UnpivotColumnsAt(t, |t.columns|, k, i);
    }
  }

  /** Every long row before block `k` comes from an earlier column. */
  lemma {:induction false} PositionBefore(t: WideTable, k: nat, p: nat)
    requires p < Position(t, k, 0)
    ensures exists j: nat, i: nat :: j < k && i < |t.rows| && p == Position(t, j, i)
  {
    var m := |t.rows|;
    assert k * m == (k - 1) * m + m;
    if p < Position(t, k - 1, 0) {
      PositionBefore(t, k - 1, p);
    } else {
      assert p == Position(t, k - 1, p - (k - 1) * m);
    }
  }

  /** Every long row is the row of some cell (i, k). */
  lemma UnpivotCovers(t: WideTable, p: nat)
    requires WellFormed(t) && p < |Unpivot(t)|
    ensures exists k: nat, i: nat :: k < |t.columns| && i < |t.rows| && p == Position(t, k, i)
  {
    UnpivotLength(t);
    PositionBefore(t, |t.columns|, p);
  }

  /** With distinct names, no long row before block `k` has quantile `columns[k]`. */
  lemma UnpivotBefore(t: WideTable, k: nat)
    requires WellFormed(t) && DistinctColumns(t) && k < |t.columns|
    ensures Position(t, k, 0) <= |Unpivot(t)|
    ensures forall p :: 0 <= p < Position(t, k, 0) ==> Unpivot(t)[p].quantile != t.columns[k]
  {
    var r := Unpivot(t);
    if 0 < |t.rows| {
      assert Position(t, k, 0) < |r|;
    } else {
      assert Position(t, k, 0) == 0;
    }
    forall p | 0 <= p < Position(t, k, 0) ensures r[p].quantile != t.columns[k] {
      PositionBefore(t, k, p);
      var j: nat, i: nat :| j < k && i < |t.rows| && p == Position(t, j, i);
      assert r[p].quantile == t.columns[j];
    }
  }

  /** `f` of a row's return; a null return adds nothing. */
  function ReturnTerm(row: LongRow, f: real -> real): real {
    match row.ret
    case Some(v) => f(v)
    case None => 0.0
  }

  /**
   * The sum of `f` over the non-null returns of the rows of quantile `q`:
   * rows of other quantiles and null returns add nothing.
   */
  function QuantileSum(rows: seq<LongRow>, q: string, f: real -> real): real {
    if rows == [] then 0.0
    else
      var last := rows[|rows| - 1];
      QuantileSum(rows[..|rows| - 1], q, f) + if last.quantile == q then ReturnTerm(last, f) else 0.0
  }

  lemma {:induction false} QuantileSumConcat(a: seq<LongRow>, b: seq<LongRow>, q: string, f: real -> real)
    ensures QuantileSum(a + b, q, f) == QuantileSum(a, q, f) + QuantileSum(b, q, f)
  {
    if b == [] {
      assert a + b == a;
    } else {
      assert (a + b)[..|a + b| - 1] == a + b[..|b| - 1];
      QuantileSumConcat(a, b[..|b| - 1], q, f);
    }
  }

  /** Rows of other quantiles only add nothing. */
  lemma {:induction false} QuantileSumOthers(rows: seq<LongRow>, q: string, f: real -> real)
    requires forall i :: 0 <= i < |rows| ==> rows[i].quantile != q
    ensures QuantileSum(rows, q, f) == 0.0
  {
    if rows != [] {
      QuantileSumOthers(rows[..|rows| - 1], q, f);
    }
  }

  lemma QuantileSumSingle(row: LongRow, q: string, f: real -> real)
    ensures QuantileSum([row], q, f) == if row.quantile == q then ReturnTerm(row, f) else 0.0
  {
    assert [row][..0] == [];
  }

  /**
   * Entry `i` of `f(return).cum_sum().over("quantile")`: for a row with a
   * return, the sum of `f` over the non-null returns of that row's quantile
   * up to and including the row, in table order; null for a null return.
   */
  function CumSumAt(rows: seq<LongRow>, f: real -> real, i: nat): (r: Option<real>)
    requires i < |rows|
    ensures r.Some? <==> rows[i].ret.Some?
  {
    if rows[i].ret.None? then None else Some(QuantileSum(rows[..i + 1], rows[i].quantile, f))
  }

  /** The column `f(return).cum_sum().over("quantile")`, one entry per row. */
  function CumSumOverQuantile(rows: seq<LongRow>, f: real -> real): (r: seq<Option<real>>)
    ensures |r| == |rows|
  {
    if rows == [] then [] else CumSumOverQuantile(rows[..|rows| - 1], f) + [CumSumAt(rows, f, |rows| - 1)]
  }

  /** Entry `i` of the column depends only on the rows up to `i`. */
  lemma {:induction false} CumSumOverQuantileAt(rows: seq<LongRow>, f: real -> real, i: nat)
    requires i < |rows|
    ensures CumSumOverQuantile(rows, f)[i] == CumSumAt(rows, f, i)
  {
    var p := rows[..|rows| - 1];
    if i < |p| {
      CumSumOverQuantileAt(p, f, i);
      assert p[..i + 1] == rows[..i + 1];
    }
  }

  /** At the first row of its quantile, the running sum is `f` of its return. */
  lemma CumSumOverQuantileFirst(rows: seq<LongRow>, f: real -> real, i: nat)
    requires i < |rows| && rows[i].ret.Some?
    requires forall j :: 0 <= j < i ==> rows[j].quantile != rows[i].quantile
    ensures CumSumAt(rows, f, i) == Some(f(rows[i].ret.value))
  {
    var q := rows[i].quantile;
    assert rows[..i + 1] == rows[..i] + [rows[i]];
    QuantileSumConcat(rows[..i], [rows[i]], q, f);
    QuantileSumOthers(rows[..i], q, f);
    QuantileSumSingle(rows[i], q, f);
  }

  /**
   * Between two consecutive rows of one quantile, the running sum grows by
   * `f` of the later return: rows of other quantiles do not affect it.
   */
  lemma CumSumOverQuantileStep(rows: seq<LongRow>, f: real -> real, j: nat, i: nat)
    requires j < i < |rows|
    requires rows[j].quantile == rows[i].quantile
    requires rows[j].ret.Some? && rows[i].ret.Some?
    requires forall l :: j < l < i ==> rows[l].quantile != rows[i].quantile
    ensures CumSumAt(rows, f, i) == Some(CumSumAt(rows, f, j).value + f(rows[i].ret.value))
  {
    var q := rows[i].quantile;
    var before := rows[..j + 1];
    var mid := rows[j + 1..i];
    assert rows[..i + 1] == before + mid + [rows[i]];
    QuantileSumConcat(before + mid, [rows[i]], q, f);
    QuantileSumConcat(before, mid, q, f);
    QuantileSumOthers(mid, q, f);
    QuantileSumSingle(rows[i], q, f);
  }

  /** The sum of `f` over the non-null cells of column `k` in the first `n` rows. */
  function CellSum(t: WideTable, k: nat, n: nat, f: real -> real): real
    requires WellFormed(t) && k < |t.columns| && n <= |t.rows|
  {
    if n == 0 then 0.0
    else
      CellSum(t, k, n - 1, f) + match t.rows[n - 1].cells[k] case Some(v) => f(v) case None => 0.0
  }

  /**
   * In a table whose rows before `start` are of other quantiles and whose
   * next `n` rows are of quantile `q`, all with returns, the running sum at
   * row `start + i` (i < n) is the sum of `f` over that block up to it.
   */
  lemma {:induction false} CumSumBlock(rows: seq<LongRow>, f: real -> real, start: nat, n: nat, q: string, i: nat)
    requires start + n <= |rows| && i < n
    requires forall j :: 0 <= j < start ==> rows[j].quantile != q
    requires forall p :: start <= p < start + n ==> rows[p].quantile == q && rows[p].ret.Some?
    ensures CumSumAt(rows, f, start + i) == Some(QuantileSum(rows[start..start + i + 1], q, f))
  {
    var p := start + i;
    assert rows[p].quantile == q && rows[p].ret.Some?;
    if i == 0 {
      CumSumOverQuantileFirst(rows, f, p);
      QuantileSumSingle(rows[p], q, f);
      assert rows[start..start + 1] == [rows[p]];
    } else {
      assert rows[p - 1].quantile == q && rows[p - 1].ret.Some?;
      CumSumBlock(rows, f, start, n, q, i - 1);
      CumSumBlockStep(rows, f, start, q, p);
    }
  }

  /** One step inside a block: the running sum grows by the block's next term. */
  lemma CumSumBlockStep(rows: seq<LongRow>, f: real -> real, start: nat, q: string, p: nat)
    requires start < p < |rows|
    requires rows[p - 1].quantile == q && rows[p - 1].ret.Some?
    requires rows[p].quantile == q && rows[p].ret.Some?
    requires CumSumAt(rows, f, p - 1) == Some(QuantileSum(rows[start..p], q, f))
    ensures CumSumAt(rows, f, p) == Some(QuantileSum(rows[start..p + 1], q, f))
  {
    CumSumOverQuantileStep(rows, f, p - 1, p);
    QuantileSumSnoc(rows, f, start, q, p);
  }

  /** Extending a slice whose last row is of quantile `q` adds that row's term. */
  lemma QuantileSumSnoc(rows: seq<LongRow>, f: real -> real, start: nat, q: string, p: nat)
    requires start <= p < |rows| && rows[p].quantile == q && rows[p].ret.Some?
    ensures QuantileSum(rows[start..p + 1], q, f) == QuantileSum(rows[start..p], q, f) + f(rows[p].ret.value)
  {
    var s := rows[start..p + 1];
    assert s[..|s| - 1] == rows[start..p];
  }

  /** Block `k` of the long table is column `k`, cell after cell. */
  lemma UnpivotBlock(t: WideTable, k: nat)
    requires WellFormed(t) && k < |t.columns|
    ensures Position(t, k, 0) + |t.rows| <= |Unpivot(t)|
    ensures Unpivot(t)[Position(t, k, 0)..Position(t, k, 0) + |t.rows|] == Column(t, k)
  {
    UnpivotBlockEntries(t, k);
    SliceOfEntries(Unpivot(t), Position(t, k, 0), Column(t, k));
  }

  /** A slice whose entries are those of `c` is `c`. */
  lemma SliceOfEntries(r: seq<LongRow>, s: nat, c: seq<LongRow>)
    requires s + |c| <= |r|
    requires forall i :: 0 <= i < |c| ==> r[s + i] == c[i]
    ensures r[s..s + |c|] == c
  {
  }

  /** Block `k` of the long table holds column k's long rows, entry by entry. */
  lemma UnpivotBlockEntries(t: WideTable, k: nat)
    requires WellFormed(t) && k < |t.columns|
    ensures Position(t, k, 0) + |t.rows| <= |Unpivot(t)|
    ensures forall i :: 0 <= i < |t.rows| ==> Unpivot(t)[Position(t, k, 0) + i] == Column(t, k)[i]
  {
    if |t.rows| > 0 {
      UnpivotBlockAt(t, k, |t.rows| - 1);
    }
    forall i | 0 <= i < |t.rows| ensures Unpivot(t)[Position(t, k, 0) + i] == Column(t, k)[i] {
      UnpivotBlockAt(t, k, i);
    }
  }

  /** Entry `i` of block `k` of the long table is column k's long row `i`. */
  lemma UnpivotBlockAt(t: WideTable, k: nat, i: nat)
    requires WellFormed(t) && k < |t.columns| && i < |t.rows|
    ensures Position(t, k, 0) + i < |Unpivot(t)|
    ensures Unpivot(t)[Position(t, k, 0) + i] == Column(t, k)[i]
  {
    assert Position(t, k, i) == Position(t, k, 0) + i;
  }

  /** Column `k` summed over its first i + 1 cells. */
  lemma {:induction false} ColumnQuantileSum(t: WideTable, k: nat, f: real -> real, i: nat)
    requires WellFormed(t) && k < |t.columns| && i < |t.rows|
    ensures QuantileSum(Column(t, k)[..i + 1], t.columns[k], f) == CellSum(t, k, i + 1, f)
  {
    var c := Column(t, k);
    var s := c[..i + 1];
    assert s[..|s| - 1] == c[..i];
    if i > 0 {
      ColumnQuantileSum(t, k, f, i - 1);
    } else {
      assert c[..0] == [];
    }
  }

  /**
   * On a table without nulls and with distinct column names, the running sum
   * over quantile `columns[k]` at the long row of cell (i, k) is the sum of
   * `f` over the cells 0..i of column `k`.
   */
  lemma CumSumAtUnpivot(t: WideTable, f: real -> real, k: nat, i: nat)
    requires WellFormed(t) && DistinctColumns(t) && k < |t.columns| && i < |t.rows|
    requires forall l :: 0 <= l < |t.rows| ==> Complete(t.rows[l])
    ensures Position(t, k, i) < |Unpivot(t)|
    ensures Unpivot(t)[Position(t, k, i)].date == t.rows[i].date
    ensures Unpivot(t)[Position(t, k, i)].quantile == t.columns[k]
    ensures CumSumAt(Unpivot(t), f, Position(t, k, i)) == Some(CellSum(t, k, i + 1, f))
  {
    var r := Unpivot(t);
    var s := Position(t, k, 0);
    UnpivotBefore(t, k);
    UnpivotBlockRows(t, k);
    assert Position(t, k, i) == s + i;
    CumSumBlock(r, f, s, |t.rows|, t.columns[k], i);
    UnpivotBlockPrefix(t, k, i);
    ColumnQuantileSum(t, k, f, i);
  }

  /** On a table without nulls, block `k` holds rows of quantile `columns[k]` with returns. */
  lemma UnpivotBlockRows(t: WideTable, k: nat)
    requires WellFormed(t) && k < |t.columns|
    requires forall l :: 0 <= l < |t.rows| ==> Complete(t.rows[l])
    ensures Position(t, k, 0) + |t.rows| <= |Unpivot(t)|
    ensures forall p :: Position(t, k, 0) <= p < Position(t, k, 0) + |t.rows| ==>
      Unpivot(t)[p].quantile == t.columns[k] && Unpivot(t)[p].ret.Some?
  {
    var s := Position(t, k, 0);
    var r := Unpivot(t);
    if 0 < |t.rows| {
      assert Position(t, k, |t.rows| - 1) < |r|;
    }
    forall p | s <= p < s + |t.rows| ensures r[p].quantile == t.columns[k] && r[p].ret.Some? {
      assert p == Position(t, k, p - s);
      assert t.rows[p - s].cells[k].Some?;
    }
  }

  /** The first i + 1 rows of block `k` are the first i + 1 rows of column `k`. */
  lemma UnpivotBlockPrefix(t: WideTable, k: nat, i: nat)
    requires WellFormed(t) && k < |t.columns| && i < |t.rows|
    ensures Position(t, k, 0) + i < |Unpivot(t)|
    ensures Unpivot(t)[Position(t, k, 0)..Position(t, k, 0) + i + 1] == Column(t, k)[..i + 1]
  {
    var s := Position(t, k, 0);
    UnpivotBlock(t, k);
    assert Unpivot(t)[s..s + i + 1] == Unpivot(t)[s..s + |t.rows|][..i + 1];
  }

  /** The same, for the column `cum_sum().over("quantile")` of the long table. */
  lemma CumSumOverUnpivot(t: WideTable, f: real -> real, k: nat, i: nat)
    requires WellFormed(t) && DistinctColumns(t) && k < |t.columns| && i < |t.rows|
    requires forall l :: 0 <= l < |t.rows| ==> Complete(t.rows[l])
    ensures Position(t, k, i) < |Unpivot(t)|
    ensures CumSumOverQuantile(Unpivot(t), f)[Position(t, k, i)] == Some(CellSum(t, k, i + 1, f))
  {
    CumSumAtUnpivot(t, f, k, i);
    CumSumOverQuantileAt(Unpivot(t), f, Position(t, k, i));
  }
}
