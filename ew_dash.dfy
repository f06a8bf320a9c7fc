/**
 * The equal-weight dashboard: the signal table with non-null alphas over
 * the selected sample period, the quantile portfolios with incomplete dates
 * dropped and unpivoted to long rows, their cumulative log returns in
 * percent, and the per-quantile metrics with the dashboard's daily
 * annualisation.
 */
module EwDash {
  import opened Wrappers
  import opened RealMath
  import opened Dates
  import opened Aggregates
  import opened SampleSplit
  import opened Signals
  import opened QuantileTables
  import opened Statistics
  import opened QuantileMetrics

  /** Trading days per year, the dashboard's annualisation factor. */
  const TradingDays: real := 252.0

  /**
   * `filter(alpha is not null)` at load time, then the sample-period filter
   * on `date`.
   */
  function SelectSignal(raw: seq<SignalRow>, mode: SampleMode, cutoff: Date): (r: seq<SignalRow>)
    ensures forall i :: 0 <= i < |r| ==> r[i].alpha.Some?
    ensures forall x :: x in r <==> x in raw && x.alpha.Some? && InPeriod(mode, cutoff, x.date)
  {
    var loaded := NonNullAlpha(raw);
    assert forall x :: x in loaded <==> x in raw && x.alpha.Some? by {
      forall x ensures x in loaded <==> x in raw && x.alpha.Some? {
        assert x in loaded <==> multiset(loaded)[x] > 0;
      }
    }
    var r := Split(loaded, SignalDate, mode, cutoff);
    assert forall i :: 0 <= i < |r| ==> r[i].alpha.Some? by {
      forall i | 0 <= i < |r| ensures r[i].alpha.Some? { assert r[i] in r; }
    }
    r
  }

  /**
   * In Sample and Out of Sample split the loaded signal table at the cutoff:
   * no row in both, and every row in one of them as often as it was loaded.
   */
  lemma SelectSignalPartition(raw: seq<SignalRow>, cutoff: Date)
    ensures SelectSignal(raw, FullSample, cutoff) == NonNullAlpha(raw)
    ensures multiset(SelectSignal(raw, InSample, cutoff)) + multiset(SelectSignal(raw, OutOfSample, cutoff))
            == multiset(NonNullAlpha(raw))
    ensures forall x :: !(x in SelectSignal(raw, InSample, cutoff) && x in SelectSignal(raw, OutOfSample, cutoff))
  {
    SplitPartition(NonNullAlpha(raw), SignalDate, cutoff);
  }

  /** `generate_quantile_ports(...).drop_nulls()`, unpivoted to long rows. */
  function PortsLong(t: WideTable): (r: seq<LongRow>)
    requires WellFormed(t)
  {
    Unpivot(DropNulls(t))
  }

  /**
   * One long row per (value column, surviving date), and every long row has
   * a return: `drop_nulls` left no null to unpivot.
   */
  lemma PortsLongComplete(t: WideTable, p: nat)
    requires WellFormed(t) && p < |PortsLong(t)|
    ensures |PortsLong(t)| == |t.columns| * |DropNulls(t).rows|
    ensures PortsLong(t)[p].ret.Some?
  {
    var d := DropNulls(t);
    UnpivotLength(d);
    UnpivotCovers(d, p);
    var k: nat, i: nat :| k < |d.columns| && i < |d.rows| && p == Position(d, k, i);
    assert Complete(d.rows[i]);
  }

  /** A row of `cumul_returns`: date, quantile and cumulative log return in percent. */
  datatype CumulRow = CumulRow(date: Date, quantile: string, cumReturn: Option<real>)

  /** Row `i` of `cumul_returns`. */
  function CumulAt(m: Elementary, rows: seq<LongRow>, i: nat): (r: CumulRow)
    requires i < |rows|
    ensures r.date == rows[i].date && r.quantile == rows[i].quantile
    ensures r.cumReturn.Some? <==> rows[i].ret.Some?
  {
    CumulRow(rows[i].date, rows[i].quantile, Scale(CumSumAt(rows, m.log1p, i), 100.0))
  }

  /**
   * `log1p(return).cum_sum().over("quantile") * 100`, with date and quantile,
   * one row per long row in the long table's order.
   */
  function CumulativeReturns(m: Elementary, rows: seq<LongRow>): (r: seq<CumulRow>)
    ensures |r| == |rows|
  {
    if rows == [] then [] else CumulativeReturns(m, rows[..|rows| - 1]) + [CumulAt(m, rows, |rows| - 1)]
  }

  lemma {:induction false} CumulativeReturnsAt(m: Elementary, rows: seq<LongRow>, i: nat)
    requires i < |rows|
    ensures CumulativeReturns(m, rows)[i] == CumulAt(m, rows, i)
  {
    var p := rows[..|rows| - 1];
    if i < |p| {
      CumulativeReturnsAt(m, p, i);
      assert p[..i + 1] == rows[..i + 1];
    }
  }

  /**
   * Between consecutive rows of one quantile the cumulative return grows by
   * 100 `log1p` of the later return; rows of other quantiles in between do
   * not affect it.
   */
  lemma CumulativeReturnsStep(m: Elementary, rows: seq<LongRow>, j: nat, i: nat)
    requires j < i < |rows|
    requires rows[j].quantile == rows[i].quantile
    requires rows[j].ret.Some? && rows[i].ret.Some?
    requires forall l :: j < l < i ==> rows[l].quantile != rows[i].quantile
    ensures CumulativeReturns(m, rows)[i].cumReturn.Some? && CumulativeReturns(m, rows)[j].cumReturn.Some?
    ensures CumulativeReturns(m, rows)[i].cumReturn.value
      == CumulativeReturns(m, rows)[j].cumReturn.value + 100.0 * m.log1p(rows[i].ret.value)
  {
    CumulativeReturnsAt(m, rows, i);
    CumulativeReturnsAt(m, rows, j);
    CumSumOverQuantileStep(rows, m.log1p, j, i);
  }

  /**
   * On a table without nulls, the cumulative return of value column `k` on
   * its `i`-th date is 100 times the sum of `log1p` over that column's
   * returns up to that date.
   */
  lemma CumulativeReturnsOfComplete(m: Elementary, d: WideTable, k: nat, i: nat)
    requires WellFormed(d) && DistinctColumns(d) && k < |d.columns| && i < |d.rows|
    requires forall l :: 0 <= l < |d.rows| ==> Complete(d.rows[l])
    ensures Position(d, k, i) < |Unpivot(d)|
    ensures var c := CumulativeReturns(m, Unpivot(d))[Position(d, k, i)];
      c.date == d.rows[i].date && c.quantile == d.columns[k] && c.cumReturn.Some? &&
      c.cumReturn.value == 100.0 * CellSum(d, k, i + 1, m.log1p)
  {
    CumSumAtUnpivot(d, m.log1p, k, i);
    CumulativeReturnsAt(m, Unpivot(d), Position(d, k, i));
    CumulAtValue(m, Unpivot(d), Position(d, k, i));
  }

  /** A long row with a return gets 100 times its quantile's running `log1p` sum. */
  lemma CumulAtValue(m: Elementary, rows: seq<LongRow>, p: nat)
    requires p < |rows| && rows[p].ret.Some?
    ensures CumulAt(m, rows, p).cumReturn.Some?
    ensures CumulAt(m, rows, p).cumReturn.value == 100.0 * CumSumAt(rows, m.log1p, p).value
  {
  }

  /**
   * End to end: the cumulative return of quantile column `k` on the `i`-th
   * date that survives `drop_nulls` is 100 times the sum of `log1p` over
   * that column's returns up to that date.
   */
  lemma CumulativeReturnsOfTable(m: Elementary, t: WideTable, k: nat, i: nat)
    requires WellFormed(t) && DistinctColumns(t) && k < |t.columns| && i < |DropNulls(t).rows|
    ensures Position(DropNulls(t), k, i) < |PortsLong(t)|
    ensures var c := CumulativeReturns(m, PortsLong(t))[Position(DropNulls(t), k, i)];
      c.date == DropNulls(t).rows[i].date && c.quantile == t.columns[k] && c.cumReturn.Some? &&
      c.cumReturn.value == 100.0 * CellSum(DropNulls(t), k, i + 1, m.log1p)
  {
    CumulativeReturnsOfComplete(m, DropNulls(t), k, i);
  }

  /** The quantile excluded from the metrics: the benchmark. */
  const Benchmark: string := "bmk_return"

  predicate MetricInputRow(r: LongRow) {
    r.ret.Some? && r.quantile != Benchmark
  }

  /** `filter(return is not null and quantile != "bmk_return")`, in order. */
  function MetricInput(rows: seq<LongRow>): (r: seq<LongRow>)
    ensures |r| <= |rows|
    ensures forall i :: 0 <= i < |r| ==> MetricInputRow(r[i])
  {
    if rows == [] then []
    else
      var t := MetricInput(rows[..|rows| - 1]);
      if MetricInputRow(rows[|rows| - 1]) then t + [rows[|rows| - 1]] else t
  }

  lemma {:induction false} MetricInputMembers(rows: seq<LongRow>)
    ensures forall x :: x in MetricInput(rows) <==> x in rows && MetricInputRow(x)
  {
    if rows != [] {
      MetricInputMembers(rows[..|rows| - 1]);
      assert rows == rows[..|rows| - 1] + [rows[|rows| - 1]];
    }
  }

  /**
   * The dashboard's metrics table: per quantile, sorted, `252 * mean`,
   * `sqrt(252) * std`, the Sharpe ratio, `exp(sum log1p) - 1` and `n_obs`.
   */
  function Metrics(m: Elementary, rows: seq<LongRow>): (r: seq<MetricsRow>)
    ensures |r| == |QuantileKeys(MetricInput(rows))|
  {
    MetricsTable(m, Log1p, MetricInput(rows), TradingDays, m.sqrt(TradingDays))
  }

  /** Every metrics row is that of a quantile other than the benchmark with a return. */
  lemma MetricsQuantileHasReturn(m: Elementary, rows: seq<LongRow>, k: nat)
    requires k < |Metrics(m, rows)|
    ensures Metrics(m, rows)[k].quantile != Benchmark
    ensures exists i :: 0 <= i < |rows| && rows[i].quantile == Metrics(m, rows)[k].quantile && rows[i].ret.Some?
  {
    var input := MetricInput(rows);
    var q := Metrics(m, rows)[k].quantile;
    MetricsTableCovers(m, Log1p, input, TradingDays, m.sqrt(TradingDays), q);
    var j :| 0 <= j < |input| && input[j].quantile == q;
    MetricInputMembers(rows);
    assert input[j] in input;
  }

  /** Every quantile other than the benchmark with a return has a metrics row. */
  lemma ReturnHasMetrics(m: Elementary, rows: seq<LongRow>, i: nat)
    requires i < |rows| && rows[i].ret.Some? && rows[i].quantile != Benchmark
    ensures exists k :: 0 <= k < |Metrics(m, rows)| && Metrics(m, rows)[k].quantile == rows[i].quantile
  {
    var input := MetricInput(rows);
    MetricInputMembers(rows);
    assert rows[i] in input;
    var j :| 0 <= j < |input| && input[j] == rows[i];
    assert input[j].quantile == rows[i].quantile;
    MetricsTableCovers(m, Log1p, input, TradingDays, m.sqrt(TradingDays), rows[i].quantile);
    var r := MetricsTable(m, Log1p, input, TradingDays, m.sqrt(TradingDays));
    var k :| 0 <= k < |r| && r[k].quantile == rows[i].quantile;
    assert r == Metrics(m, rows);
  }

  /** Every metrics row is a summary with the dashboard's scale factors. */
  lemma MetricsAt(m: Elementary, rows: seq<LongRow>, k: nat)
    requires k < |Metrics(m, rows)|
    ensures var q := Metrics(m, rows)[k].quantile;
      Metrics(m, rows)[k].summary
        == Summarize(m, Log1p, QuantileReturns(MetricInput(rows), q), TradingDays, m.sqrt(TradingDays))
  {
    MetricsTableAt(m, Log1p, MetricInput(rows), TradingDays, m.sqrt(TradingDays), k);
  }

  /** The `n_obs` column adds up to the number of rows the metrics use. */
  lemma MetricsObs(m: Elementary, rows: seq<LongRow>)
    ensures ObsTotal(Metrics(m, rows)) == |MetricInput(rows)|
  {
    var input := MetricInput(rows);
    MetricsObsAddUp(m, Log1p, input, TradingDays, m.sqrt(TradingDays));
    NonNullCountAll(input);
  }

  lemma {:induction false} NonNullCountAll(rows: seq<LongRow>)
    requires forall i :: 0 <= i < |rows| ==> rows[i].ret.Some?
    ensures NonNullCount(rows) == |rows|
  {
    if rows != [] { NonNullCountAll(rows[..|rows| - 1]); }
  }

  /** The quantile whose metrics the summary reports. */
  const Spread: string := "spread"

  /**
   * The spread summary reads the "spread" row of the metrics: its Sharpe
   * ratio and annual return are those of the spread's returns, and there is
   * a row exactly when the spread has a return.
   */
  lemma SpreadSummary(m: Elementary, rows: seq<LongRow>)
    ensures var f := FindQuantile(Metrics(m, rows), Spread);
      && (f.Some? <==> exists i :: 0 <= i < |rows| && rows[i].quantile == Spread && rows[i].ret.Some?)
      && (f.Some? ==>
            f.value.summary ==
            Summarize(m, Log1p, QuantileReturns(MetricInput(rows), Spread), TradingDays, m.sqrt(TradingDays)))
  {
    var r := Metrics(m, rows);
    var f := FindQuantile(r, Spread);
    FindQuantileInTable(m, Log1p, MetricInput(rows), TradingDays, m.sqrt(TradingDays), Spread);
    if f.Some? {
      var k :| 0 <= k < |r| && r[k] == f.value;
      MetricsQuantileHasReturn(m, rows, k);
    }
    if exists i :: 0 <= i < |rows| && rows[i].quantile == Spread && rows[i].ret.Some? {
      var i :| 0 <= i < |rows| && rows[i].quantile == Spread && rows[i].ret.Some?;
      ReturnHasMetrics(m, rows, i);
    }
  }
}
