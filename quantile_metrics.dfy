/**
 * The per-quantile metrics table of the research notebooks:
 * `group_by("quantile").agg(...)` over long rows, then `sort("quantile")`,
 * one summary per quantile of the non-null returns of its rows.
 */
module QuantileMetrics {
  import opened Wrappers
  import opened RealMath
  import opened Orders
  import opened Aggregates
  import opened QuantileTables
  import opened Statistics

  /** The non-null returns of the rows of quantile `q`, in table order. */
  function QuantileReturns(rows: seq<LongRow>, q: string): (r: seq<real>)
    ensures |r| <= |rows|
  {
    if rows == [] then []
    else
      var t := QuantileReturns(rows[..|rows| - 1], q);
      var last := rows[|rows| - 1];
      if last.quantile == q && last.ret.Some? then t + [last.ret.value] else t
  }

  /** The `quantile` column. */
  function Quantiles(rows: seq<LongRow>): (r: seq<string>)
    ensures |r| == |rows|
  {
    if rows == [] then [] else Quantiles(rows[..|rows| - 1]) + [rows[|rows| - 1].quantile]
  }

  lemma {:induction false} QuantilesMembers(rows: seq<LongRow>)
    ensures forall q :: q in Quantiles(rows) <==> exists i :: 0 <= i < |rows| && rows[i].quantile == q
  {
    if rows != [] {
      var p := rows[..|rows| - 1];
      QuantilesMembers(p);
      assert forall i :: 0 <= i < |p| ==> p[i] == rows[i];
      assert Quantiles(rows) == Quantiles(p) + [rows[|rows| - 1].quantile];
    }
  }

  /** The groups of `group_by("quantile")` in `sort("quantile")` order. */
  function QuantileKeys(rows: seq<LongRow>): (r: seq<string>)
    ensures StrictlyAscending(r, StrLe)
    ensures forall q :: q in r <==> q in Quantiles(rows)
  {
    StrLeTotalOrder();
    SortedKeys(Quantiles(rows), StrLe)
  }

  /** One row of the metrics table: a quantile and the summary of its returns. */
  datatype MetricsRow = MetricsRow(quantile: string, summary: Summary)

  function MetricsRows(m: Elementary, form: LogForm, rows: seq<LongRow>, keys: seq<string>, returnScale: real, volScale: real)
    : (r: seq<MetricsRow>)
    ensures |r| == |keys|
  {
    if keys == [] then []
    else
      var q := keys[|keys| - 1];
      MetricsRows(m, form, rows, keys[..|keys| - 1], returnScale, volScale)
        + [MetricsRow(q, Summarize(m, form, QuantileReturns(rows, q), returnScale, volScale))]
  }

  lemma {:induction false} MetricsRowsAt(m: Elementary, form: LogForm, rows: seq<LongRow>, keys: seq<string>,
                                         returnScale: real, volScale: real, k: nat)
    requires k < |keys|
    ensures MetricsRows(m, form, rows, keys, returnScale, volScale)[k]
      == MetricsRow(keys[k], Summarize(m, form, QuantileReturns(rows, keys[k]), returnScale, volScale))
  {
    if k < |keys| - 1 { MetricsRowsAt(m, form, rows, keys[..|keys| - 1], returnScale, volScale, k); }
  }

  /**
   * The metrics table: per quantile the annual return (`returnScale` times
   * the mean), the annual volatility (`volScale` times the deviation), the
   * Sharpe ratio, the total return and the count.
   */
  function MetricsTable(m: Elementary, form: LogForm, rows: seq<LongRow>, returnScale: real, volScale: real)
    : (r: seq<MetricsRow>)
    ensures |r| == |QuantileKeys(rows)|
  {
    MetricsRows(m, form, rows, QuantileKeys(rows), returnScale, volScale)
  }

  /** Row `k` is the `k`-th quantile with the summary of its non-null returns. */
  lemma MetricsTableAt(m: Elementary, form: LogForm, rows: seq<LongRow>, returnScale: real, volScale: real, k: nat)
    requires k < |MetricsTable(m, form, rows, returnScale, volScale)|
    ensures MetricsTable(m, form, rows, returnScale, volScale)[k].quantile == QuantileKeys(rows)[k]
    ensures MetricsTable(m, form, rows, returnScale, volScale)[k].summary
      == Summarize(m, form, QuantileReturns(rows, QuantileKeys(rows)[k]), returnScale, volScale)
  {
    MetricsRowsAt(m, form, rows, QuantileKeys(rows), returnScale, volScale, k);
  }

  /** The table is sorted by quantile name, one row per quantile. */
  lemma MetricsTableSorted(m: Elementary, form: LogForm, rows: seq<LongRow>, returnScale: real, volScale: real)
    ensures var r := MetricsTable(m, form, rows, returnScale, volScale);
      forall k, l :: 0 <= k < l < |r| ==> StrLe(r[k].quantile, r[l].quantile) && r[k].quantile != r[l].quantile
  {
    var r := MetricsTable(m, form, rows, returnScale, volScale);
    forall k | 0 <= k < |r| ensures r[k].quantile == QuantileKeys(rows)[k] {
      MetricsTableAt(m, form, rows, returnScale, volScale, k);
    }
  }

  /** A quantile has a metrics row exactly when some input row belongs to it. */
  lemma MetricsTableCovers(m: Elementary, form: LogForm, rows: seq<LongRow>, returnScale: real, volScale: real, q: string)
    ensures var r := MetricsTable(m, form, rows, returnScale, volScale);
      (exists k :: 0 <= k < |r| && r[k].quantile == q) <==> exists i :: 0 <= i < |rows| && rows[i].quantile == q
  {
    var r := MetricsTable(m, form, rows, returnScale, volScale);
    var keys := QuantileKeys(rows);
    QuantilesMembers(rows);
    if exists i :: 0 <= i < |rows| && rows[i].quantile == q {
      assert q in keys;
      var k :| 0 <= k < |keys| && keys[k] == q;
      MetricsTableAt(m, form, rows, returnScale, volScale, k);
    }
    if exists k :: 0 <= k < |r| && r[k].quantile == q {
      var k :| 0 <= k < |r| && r[k].quantile == q;
      MetricsTableAt(m, form, rows, returnScale, volScale, k);
      assert keys[k] in keys;
    }
  }

  /** The number of rows with a non-null return. */
  function NonNullCount(rows: seq<LongRow>): nat {
    if rows == [] then 0 else NonNullCount(rows[..|rows| - 1]) + if rows[|rows| - 1].ret.Some? then 1 else 0
  }

  /** The group sizes of the keys `keys`, added up. */
  function GroupCounts(rows: seq<LongRow>, keys: seq<string>): nat {
    if keys == [] then 0 else GroupCounts(rows, keys[..|keys| - 1]) + |QuantileReturns(rows, keys[|keys| - 1])|
  }

  lemma {:induction false} GroupCountsSnoc(rows: seq<LongRow>, x: LongRow, keys: seq<string>)
    requires forall i, j :: 0 <= i < j < |keys| ==> keys[i] != keys[j]
    ensures GroupCounts(rows + [x], keys)
      == GroupCounts(rows, keys) + if x.ret.Some? && x.quantile in keys then 1 else 0
  {
    assert (rows + [x])[..|rows + [x]| - 1] == rows;
    if keys != [] {
      var p := keys[..|keys| - 1];
      GroupCountsSnoc(rows, x, p);
      assert keys == p + [keys[|keys| - 1]];
    }
  }

  lemma {:induction false} GroupCountsEmpty(keys: seq<string>)
    ensures GroupCounts([], keys) == 0
  {
    if keys != [] { GroupCountsEmpty(keys[..|keys| - 1]); }
  }

  /**
   * Grouping loses and duplicates no observation: over distinct keys that
   * cover every row's quantile, the group sizes add up to the number of
   * non-null returns.
   */
  lemma {:induction false} GroupCountsAddUp(rows: seq<LongRow>, keys: seq<string>)
    requires forall i, j :: 0 <= i < j < |keys| ==> keys[i] != keys[j]
    requires forall i :: 0 <= i < |rows| ==> rows[i].quantile in keys
    ensures GroupCounts(rows, keys) == NonNullCount(rows)
  {
    if rows == [] {
      GroupCountsEmpty(keys);
    } else {
      var p := rows[..|rows| - 1];
      GroupCountsAddUp(p, keys);
      assert rows == p + [rows[|rows| - 1]];
      GroupCountsSnoc(p, rows[|rows| - 1], keys);
    }
  }

  /** The `n_obs` column, added up. */
  function ObsTotal(r: seq<MetricsRow>): nat {
    if r == [] then 0 else ObsTotal(r[..|r| - 1]) + r[|r| - 1].summary.nObs
  }

  lemma {:induction false} ObsTotalRows(m: Elementary, form: LogForm, rows: seq<LongRow>, keys: seq<string>,
                                        returnScale: real, volScale: real)
    ensures ObsTotal(MetricsRows(m, form, rows, keys, returnScale, volScale)) == GroupCounts(rows, keys)
  {
    if keys != [] {
      var r := MetricsRows(m, form, rows, keys, returnScale, volScale);
      ObsTotalRows(m, form, rows, keys[..|keys| - 1], returnScale, volScale);
      assert r[..|r| - 1] == MetricsRows(m, form, rows, keys[..|keys| - 1], returnScale, volScale);
    }
  }

  /** The `n_obs` of all metrics rows add up to the number of non-null returns. */
  lemma MetricsObsAddUp(m: Elementary, form: LogForm, rows: seq<LongRow>, returnScale: real, volScale: real)
    ensures ObsTotal(MetricsTable(m, form, rows, returnScale, volScale)) == NonNullCount(rows)
  {
    var keys := QuantileKeys(rows);
    ObsTotalRows(m, form, rows, keys, returnScale, volScale);
    QuantilesMembers(rows);
    forall i | 0 <= i < |rows| ensures rows[i].quantile in keys {
      assert rows[i].quantile in Quantiles(rows);
    }
    GroupCountsAddUp(rows, keys);
  }

  /** The first metrics row of quantile `q`: `filter(quantile == q)` read as one row. */
  function FindQuantile(r: seq<MetricsRow>, q: string): (f: Option<MetricsRow>)
    ensures f.None? <==> forall k :: 0 <= k < |r| ==> r[k].quantile != q
    ensures f.Some? ==> f.value in r && f.value.quantile == q
  {
    if r == [] then None
    else if r[0].quantile == q then Some(r[0])
    else
      var t := FindQuantile(r[1..], q);
      assert forall k :: 1 <= k < |r| ==> r[k] == r[1..][k - 1];
      t
  }

  /**
   * Reading quantile `q` from the metrics table gives the summary of that
   * quantile's returns, and nothing when no row belongs to it.
   */
  lemma FindQuantileInTable(m: Elementary, form: LogForm, rows: seq<LongRow>, returnScale: real, volScale: real, q: string)
    ensures var f := FindQuantile(MetricsTable(m, form, rows, returnScale, volScale), q);
      && (f.Some? <==> exists i :: 0 <= i < |rows| && rows[i].quantile == q)
      && (f.Some? ==> f.value == MetricsRow(q, Summarize(m, form, QuantileReturns(rows, q), returnScale, volScale)))
  {
    var r := MetricsTable(m, form, rows, returnScale, volScale);
    var f := FindQuantile(r, q);
    MetricsTableCovers(m, form, rows, returnScale, volScale, q);
    if f.Some? {
      var k :| 0 <= k < |r| && r[k] == f.value;
      MetricsTableAt(m, form, rows, returnScale, volScale, k);
    }
  }
}
