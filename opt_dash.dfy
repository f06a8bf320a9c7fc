/**
 * The optimizer dashboard's own transforms of the portfolio weights and
 * returns: the sample-period selection applied to weights and signal alike,
 * the percent-to-fraction conversion of the portfolio returns and the
 * log-domain drawdown.
 */
module OptDash {
  import opened Wrappers
  import opened RealMath
  import opened Orders
  import opened Dates
  import opened Aggregates
  import opened SampleSplit
  import opened Signals

  /** One row of the weights file: the weight of asset `barrid` on `date`. */
  datatype WeightRow = WeightRow(date: Date, barrid: string, weight: real)

  function WeightDate(r: WeightRow): Date {
    r.date
  }

  /**
   * The sample-period selection: both tables are filtered with the same mode
   * and the same cutoff, so they cover the same period.
   */
  function SelectPeriod(weightsRaw: seq<WeightRow>, signalRaw: seq<SignalRow>, mode: SampleMode, cutoff: Date)
    : (r: (seq<WeightRow>, seq<SignalRow>))
    ensures forall w :: multiset(r.0)[w] == if InPeriod(mode, cutoff, w.date) then multiset(weightsRaw)[w] else 0
    ensures forall s :: multiset(r.1)[s] == if InPeriod(mode, cutoff, s.date) then multiset(signalRaw)[s] else 0
    ensures forall w :: w in r.0 <==> w in weightsRaw && InPeriod(mode, cutoff, w.date)
    ensures forall s :: s in r.1 <==> s in signalRaw && InPeriod(mode, cutoff, s.date)
    ensures mode == FullSample ==> r.0 == weightsRaw && r.1 == signalRaw
  {
    (Split(weightsRaw, WeightDate, mode, cutoff), Split(signalRaw, SignalDate, mode, cutoff))
  }

  /** One row of the portfolio return table. */
  datatype ReturnRow = ReturnRow(date: Date, ret: real)

  /**
   * `with_columns(pl.col("return").truediv(100))`: the returns, supplied in
   * percent, become fractions; dates and row order are unchanged.
   */
  function ToFraction(rows: seq<ReturnRow>): (r: seq<ReturnRow>)
    ensures |r| == |rows|
    ensures forall i :: 0 <= i < |rows| ==> r[i].date == rows[i].date && r[i].ret * 100.0 == rows[i].ret
  {
    if rows == [] then []
    else
      var last := rows[|rows| - 1];
      ToFraction(rows[..|rows| - 1]) + [ReturnRow(last.date, last.ret / 100.0)]
  }

  predicate ReturnDateLe(a: ReturnRow, b: ReturnRow) {
    DateLe(a.date, b.date)
  }

  lemma ReturnDateLeTotalPreorder()
    ensures TotalPreorder(ReturnDateLe)
  {
  }

  /** `sort("date")`: the same rows in ascending date order. */
  function ByDate(rows: seq<ReturnRow>): (r: seq<ReturnRow>)
    ensures multiset(r) == multiset(rows)
    ensures |r| == |rows|
    ensures forall i, j :: 0 <= i < j < |r| ==> DateLe(r[i].date, r[j].date)
  {
    ReturnDateLeTotalPreorder();
    Sort(rows, ReturnDateLe)
  }

  /** `log1p` of each return, in the given order. */
  function Log1pReturns(m: Elementary, rows: seq<ReturnRow>): (r: seq<real>)
    ensures |r| == |rows|
  {
    if rows == [] then [] else Log1pReturns(m, rows[..|rows| - 1]) + [m.log1p(rows[|rows| - 1].ret)]
  }

  lemma {:induction false} Log1pReturnsAt(m: Elementary, rows: seq<ReturnRow>, i: nat)
    requires i < |rows|
    ensures Log1pReturns(m, rows)[i] == m.log1p(rows[i].ret)
  {
    if i < |rows| - 1 {
      Log1pReturnsAt(m, rows[..|rows| - 1], i);
    }
  }

  /** `_log_val`: the running sum of `log1p(return)` in date order. */
  function LogValue(m: Elementary, rows: seq<ReturnRow>): (r: seq<real>)
    ensures |r| == |rows|
  {
    CumSum(Log1pReturns(m, ByDate(rows)))
  }

  /** `_log_peak`: the running maximum of `_log_val`. */
  function LogPeak(m: Elementary, rows: seq<ReturnRow>): (r: seq<real>)
    ensures |r| == |rows|
  {
    CumMax(LogValue(m, rows))
  }

  datatype DrawdownRow = DrawdownRow(date: Date, drawdown: real)

  /** Row by row: the date of `sorted[i]` with `exp(v[i] - p[i]) - 1`. */
  function DrawdownRows(m: Elementary, sorted: seq<ReturnRow>, v: seq<real>, p: seq<real>): (r: seq<DrawdownRow>)
    requires |sorted| == |v| == |p|
    ensures |r| == |sorted|
  {
    if sorted == [] then []
    else
      var n := |sorted| - 1;
      DrawdownRows(m, sorted[..n], v[..n], p[..n]) + [DrawdownRow(sorted[n].date, m.exp(v[n] - p[n]) - 1.0)]
  }

  lemma {:induction false} DrawdownRowsAt(m: Elementary, sorted: seq<ReturnRow>, v: seq<real>, p: seq<real>, i: nat)
    requires |sorted| == |v| == |p| && i < |sorted|
    ensures DrawdownRows(m, sorted, v, p)[i] == DrawdownRow(sorted[i].date, m.exp(v[i] - p[i]) - 1.0)
  {
    var n := |sorted| - 1;
    if i < n {
      DrawdownRowsAt(m, sorted[..n], v[..n], p[..n], i);
    }
  }

  /**
   * `exp(_log_val - _log_peak) - 1`, with the date, one row per return row
   * in ascending date order.
   */
  function LogDrawdown(m: Elementary, rows: seq<ReturnRow>): (r: seq<DrawdownRow>)
    ensures |r| == |rows|
  {
    DrawdownRows(m, ByDate(rows), LogValue(m, rows), LogPeak(m, rows))
  }

  lemma LogDrawdownAt(m: Elementary, rows: seq<ReturnRow>, i: nat)
    requires i < |rows|
    ensures LogDrawdown(m, rows)[i].date == ByDate(rows)[i].date
    ensures LogDrawdown(m, rows)[i].drawdown == m.exp(LogValue(m, rows)[i] - LogPeak(m, rows)[i]) - 1.0
  {
    DrawdownRowsAt(m, ByDate(rows), LogValue(m, rows), LogPeak(m, rows), i);
  }

  /** The drawdown rows are in ascending date order. */
  lemma LogDrawdownDates(m: Elementary, rows: seq<ReturnRow>)
    ensures forall i, j :: 0 <= i < j < |rows| ==> DateLe(LogDrawdown(m, rows)[i].date, LogDrawdown(m, rows)[j].date)
  {
    forall i, j | 0 <= i < j < |rows| ensures DateLe(LogDrawdown(m, rows)[i].date, LogDrawdown(m, rows)[j].date) {
      LogDrawdownAt(m, rows, i);
      LogDrawdownAt(m, rows, j);
    }
  }

  /**
   * The cumulative log value is the running sum of `log1p(return)` in date
   * order: the first row's `log1p`, then one row's `log1p` per step.
   */
  lemma LogValueSteps(m: Elementary, rows: seq<ReturnRow>)
    ensures rows != [] ==> LogValue(m, rows)[0] == m.log1p(ByDate(rows)[0].ret)
    ensures forall i :: 0 < i < |rows| ==>
      LogValue(m, rows)[i] == LogValue(m, rows)[i - 1] + m.log1p(ByDate(rows)[i].ret)
  {
    var xs := Log1pReturns(m, ByDate(rows));
    CumSumSteps(xs);
    if rows != [] {
      Log1pReturnsAt(m, ByDate(rows), 0);
    }
    forall i | 0 < i < |rows|
      ensures LogValue(m, rows)[i] == LogValue(m, rows)[i - 1] + m.log1p(ByDate(rows)[i].ret)
    {
      Log1pReturnsAt(m, ByDate(rows), i);
    }
  }

  /**
   * The running peak never falls, never lies below the cumulative value and
   * starts at the first value.
   */
  lemma LogPeakProperties(m: Elementary, rows: seq<ReturnRow>)
    ensures forall i :: 0 <= i < |rows| ==> LogValue(m, rows)[i] <= LogPeak(m, rows)[i]
    ensures forall i, j :: 0 <= i <= j < |rows| ==> LogPeak(m, rows)[i] <= LogPeak(m, rows)[j]
    ensures rows != [] ==> LogPeak(m, rows)[0] == LogValue(m, rows)[0]
  {
    CumMaxProperties(LogValue(m, rows));
  }

  /** With `exp` monotone and `exp(0) = 1`, the drawdown is never positive. */
  lemma LogDrawdownNonPositive(m: Elementary, rows: seq<ReturnRow>)
    requires ExpZero(m) && ExpMonotone(m)
    ensures forall i :: 0 <= i < |rows| ==> LogDrawdown(m, rows)[i].drawdown <= 0.0
  {
    LogPeakProperties(m, rows);
    forall i | 0 <= i < |rows| ensures LogDrawdown(m, rows)[i].drawdown <= 0.0 {
      LogDrawdownAt(m, rows, i);
      ExpNonPositive(m, LogValue(m, rows)[i] - LogPeak(m, rows)[i]);
    }
  }

  /**
   * The drawdown is exactly 0 wherever the cumulative value is at its
   * running peak, and so at the first date.
   */
  lemma LogDrawdownZeroAtPeak(m: Elementary, rows: seq<ReturnRow>)
    requires ExpZero(m)
    ensures forall i :: 0 <= i < |rows| && LogValue(m, rows)[i] == LogPeak(m, rows)[i] ==>
      LogDrawdown(m, rows)[i].drawdown == 0.0
    ensures rows != [] ==> LogDrawdown(m, rows)[0].drawdown == 0.0
  {
    LogPeakProperties(m, rows);
    forall i | 0 <= i < |rows| && LogValue(m, rows)[i] == LogPeak(m, rows)[i]
      ensures LogDrawdown(m, rows)[i].drawdown == 0.0
    {
      LogDrawdownAt(m, rows, i);
      assert LogValue(m, rows)[i] - LogPeak(m, rows)[i] == 0.0;
    }
  }

  /**
   * With `exp` strictly increasing, a drawdown of 0 means the cumulative value is at
   * its peak: the two statements above are an if-and-only-if.
   */
  lemma LogDrawdownZeroOnlyAtPeak(m: Elementary, rows: seq<ReturnRow>, i: nat)
    requires ExpZero(m) && ExpStrictlyIncreasing(m)
    requires i < |rows| && LogDrawdown(m, rows)[i].drawdown == 0.0
    ensures LogValue(m, rows)[i] == LogPeak(m, rows)[i]
  {
    LogPeakProperties(m, rows);
    LogDrawdownAt(m, rows, i);
    var x := LogValue(m, rows)[i] - LogPeak(m, rows)[i];
    if x < 0.0 {
      ExpNegative(m, x);
    }
  }
}
