/**
 * The research notebook: the quantile portfolios unpivoted to long rows with
 * their nulls kept, the equal-weight mean return per (date, quantile) sorted
 * by date then quantile, the per-quantile wealth index
 * `exp(cum_sum(log(1 + r)))`, and the per-quantile metrics, annualised with
 * 252 for the return and sqrt(12) for the volatility.
 */
module Research {
  import opened Wrappers
  import opened RealMath
  import opened Orders
  import opened Dates
  import opened Aggregates
  import opened QuantileTables
  import opened Statistics
  import opened QuantileMetrics

  /** A group of `group_by(["date", "quantile"])`. */
  datatype DateQuantile = DateQuantile(date: Date, quantile: string)

  /** `sort(["date", "quantile"])`: by date, then by quantile name. */
  predicate DQLe(a: DateQuantile, b: DateQuantile) {
    DateLt(a.date, b.date) || (a.date == b.date && StrLe(a.quantile, b.quantile))
  }

  lemma DQLeTotalOrder()
    ensures TotalOrder(DQLe)
  {
    DateLeTotalOrder();
    StrLeTotalOrder();
    forall a: DateQuantile, b: DateQuantile | DQLe(a, b) && DQLe(b, a) ensures a == b {
      assert a.date == b.date;
    }
  }

  function KeyOf(r: LongRow): DateQuantile {
    DateQuantile(r.date, r.quantile)
  }

  /** The (date, quantile) of every long row, in table order. */
  function Keys(long: seq<LongRow>): (r: seq<DateQuantile>)
    ensures |r| == |long|
  {
    if long == [] then [] else Keys(long[..|long| - 1]) + [KeyOf(long[|long| - 1])]
  }

  lemma {:induction false} KeysMembers(long: seq<LongRow>)
    ensures forall g :: g in Keys(long) <==> exists i :: 0 <= i < |long| && KeyOf(long[i]) == g
  {
    if long != [] {
      var p := long[..|long| - 1];
      KeysMembers(p);
      assert forall i :: 0 <= i < |p| ==> p[i] == long[i];
    }
  }

  /** The groups in `sort(["date", "quantile"])` order, each once. */
  function PerfKeys(long: seq<LongRow>): (r: seq<DateQuantile>)
    ensures StrictlyAscending(r, DQLe)
    ensures forall g :: g in r <==> g in Keys(long)
  {
    DQLeTotalOrder();
    SortedKeys(Keys(long), DQLe)
  }

  /** The non-null returns of group `g`, in table order. */
  function GroupReturns(long: seq<LongRow>, g: DateQuantile): (r: seq<real>)
    ensures |r| <= |long|
  {
    if long == [] then []
    else
      var t := GroupReturns(long[..|long| - 1], g);
      var last := long[|long| - 1];
      if KeyOf(last) == g && last.ret.Some? then t + [last.ret.value] else t
  }

  /** A group has a return to average exactly when one of its rows has one. */
  lemma {:induction false} GroupReturnsEmpty(long: seq<LongRow>, g: DateQuantile)
    ensures GroupReturns(long, g) == [] <==> forall i :: 0 <= i < |long| && KeyOf(long[i]) == g ==> long[i].ret.None?
  {
    if long != [] {
      var p := long[..|long| - 1];
      GroupReturnsEmpty(p, g);
      assert forall i :: 0 <= i < |p| ==> p[i] == long[i];
    }
  }

  /** A group of one row averages to that row's return. */
  lemma {:induction false} GroupReturnsSingle(long: seq<LongRow>, i: nat)
    requires i < |long|
    requires forall j :: 0 <= j < |long| && j != i ==> KeyOf(long[j]) != KeyOf(long[i])
    ensures GroupReturns(long, KeyOf(long[i])) == if long[i].ret.Some? then [long[i].ret.value] else []
  {
    var g := KeyOf(long[i]);
    var p := long[..|long| - 1];
    if i < |p| {
      GroupReturnsSingle(p, i);
    } else {
      GroupReturnsNone(p, g);
    }
  }

  lemma {:induction false} GroupReturnsNone(long: seq<LongRow>, g: DateQuantile)
    requires forall j :: 0 <= j < |long| ==> KeyOf(long[j]) != g
    ensures GroupReturns(long, g) == []
  {
    if long != [] { GroupReturnsNone(long[..|long| - 1], g); }
  }

  /** A row of `quantile_perf`: the group and the mean of its returns. */
  function PerfRow(long: seq<LongRow>, g: DateQuantile): LongRow {
    LongRow(g.date, g.quantile, Mean(GroupReturns(long, g)))
  }

  function PerfRows(long: seq<LongRow>, keys: seq<DateQuantile>): (r: seq<LongRow>)
    ensures |r| == |keys|
  {
    if keys == [] then [] else PerfRows(long, keys[..|keys| - 1]) + [PerfRow(long, keys[|keys| - 1])]
  }

  lemma {:induction false} PerfRowsAt(long: seq<LongRow>, keys: seq<DateQuantile>, k: nat)
    requires k < |keys|
    ensures PerfRows(long, keys)[k] == PerfRow(long, keys[k])
  {
    if k < |keys| - 1 { PerfRowsAt(long, keys[..|keys| - 1], k); }
  }

  /**
   * `quantile_perf`: `group_by(["date", "quantile"])`, the mean of each
   * group's returns as `portfolio_return`, sorted by date then quantile.
   */
  function QuantilePerf(long: seq<LongRow>): (r: seq<LongRow>)
    ensures |r| == |PerfKeys(long)|
  {
    PerfRows(long, PerfKeys(long))
  }

  /** Row `k` of `quantile_perf` is the `k`-th group with the mean of its returns. */
  lemma QuantilePerfAt(long: seq<LongRow>, k: nat)
    requires k < |QuantilePerf(long)|
    ensures QuantilePerf(long)[k] == PerfRow(long, PerfKeys(long)[k])
  {
    PerfRowsAt(long, PerfKeys(long), k);
  }

  /**
   * The mean return of a group is defined exactly when a row of the group
   * has a return, and is then the mean of the group's non-null returns.
   */
  lemma PerfRowReturn(long: seq<LongRow>, g: DateQuantile)
    ensures PerfRow(long, g).ret.Some? <==> exists i :: 0 <= i < |long| && KeyOf(long[i]) == g && long[i].ret.Some?
    ensures PerfRow(long, g).ret.Some? ==>
      PerfRow(long, g).ret.value * |GroupReturns(long, g)| as real == Sum(GroupReturns(long, g))
  {
    GroupReturnsEmpty(long, g);
  }

  /** `quantile_perf` is sorted by date, then quantile, with no group twice. */
  lemma QuantilePerfSorted(long: seq<LongRow>)
    ensures var r := QuantilePerf(long);
      forall k, l :: 0 <= k < l < |r| ==> DQLe(KeyOf(r[k]), KeyOf(r[l])) && KeyOf(r[k]) != KeyOf(r[l])
  {
    var r := QuantilePerf(long);
    forall k | 0 <= k < |r| ensures KeyOf(r[k]) == PerfKeys(long)[k] {
      PerfRowsAt(long, PerfKeys(long), k);
    }
  }

  /** A (date, quantile) has a `quantile_perf` row exactly when a long row has it. */
  lemma QuantilePerfCovers(long: seq<LongRow>, g: DateQuantile)
    ensures var r := QuantilePerf(long);
      (exists k :: 0 <= k < |r| && KeyOf(r[k]) == g) <==> exists i :: 0 <= i < |long| && KeyOf(long[i]) == g
  {
    var r := QuantilePerf(long);
    var keys := PerfKeys(long);
    KeysMembers(long);
    if exists i :: 0 <= i < |long| && KeyOf(long[i]) == g {
      assert g in keys;
      var k :| 0 <= k < |keys| && keys[k] == g;
      PerfRowsAt(long, keys, k);
    }
    if exists k :: 0 <= k < |r| && KeyOf(r[k]) == g {
      var k :| 0 <= k < |r| && KeyOf(r[k]) == g;
      PerfRowsAt(long, keys, k);
      assert keys[k] in keys;
    }
  }

  /**
   * A (date, quantile) that only one long row has, as after the unpivot of a
   * table with one row per date, keeps that row's return, null or not.
   */
  lemma PerfOfSingleRow(long: seq<LongRow>, i: nat)
    requires i < |long|
    requires forall j :: 0 <= j < |long| && j != i ==> KeyOf(long[j]) != KeyOf(long[i])
    ensures PerfRow(long, KeyOf(long[i])) == long[i]
  {
    GroupReturnsSingle(long, i);
    if long[i].ret.Some? {
      assert Sum([long[i].ret.value]) == long[i].ret.value;
    }
  }

  /** The notebook's log return `(1 + r).log()`. */
  function LogOfSuccessor(m: Elementary): real -> real {
    x => m.log(1.0 + x)
  }

  /** A row of `cumul_returns`: date, quantile and wealth index. */
  datatype WealthRow = WealthRow(date: Date, quantile: string, cumReturn: Option<real>)

  /** `exp` of a nullable cell. */
  function ExpOf(m: Elementary, x: Option<real>): (r: Option<real>)
    ensures r.Some? <==> x.Some?
  {
    match x
    case Some(v) => Some(m.exp(v))
    case None => None
  }

  /** Row `i` of `cumul_returns`. */
  function WealthAt(m: Elementary, perf: seq<LongRow>, i: nat): (r: WealthRow)
    requires i < |perf|
    ensures r.date == perf[i].date && r.quantile == perf[i].quantile
    ensures r.cumReturn.Some? <==> perf[i].ret.Some?
  {
    WealthRow(perf[i].date, perf[i].quantile, ExpOf(m, CumSumAt(perf, LogOfSuccessor(m), i)))
  }

  /**
   * `cumul_returns`: `log_return.cum_sum().over("quantile").exp()` with date
   * and quantile, one row per `quantile_perf` row, in its order.
   */
  function CumulativeWealth(m: Elementary, perf: seq<LongRow>): (r: seq<WealthRow>)
    ensures |r| == |perf|
    ensures forall i :: 0 <= i < |perf| ==> r[i] == WealthAt(m, perf, i)
  {
    seq(|perf|, i requires 0 <= i < |perf| => WealthAt(m, perf, i))
  }

  /** The running sum of the log returns of quantile `q` is the log sum of its non-null returns. */
  lemma {:induction false} QuantileSumIsLogSum(m: Elementary, rows: seq<LongRow>, q: string)
    ensures QuantileSum(rows, q, LogOfSuccessor(m)) == LogSum(m, LogOfOnePlus, QuantileReturns(rows, q))
  {
    if rows != [] {
      var p := rows[..|rows| - 1];
      var last := rows[|rows| - 1];
      QuantileSumIsLogSum(m, p, q);
      if last.quantile == q && last.ret.Some? {
        var xs := QuantileReturns(p, q) + [last.ret.value];
        assert xs[..|xs| - 1] == QuantileReturns(p, q);
      }
    }
  }

  /** Every non-null return of a quantile is a return of the table. */
  lemma {:induction false} QuantileReturnsAbove(rows: seq<LongRow>, q: string, lo: real)
    requires forall j :: 0 <= j < |rows| && rows[j].ret.Some? ==> lo < rows[j].ret.value
    ensures forall j :: 0 <= j < |QuantileReturns(rows, q)| ==> lo < QuantileReturns(rows, q)[j]
  {
    if rows != [] { QuantileReturnsAbove(rows[..|rows| - 1], q, lo); }
  }

  /** Rows after `n` that add no return of `q` leave its returns unchanged. */
  lemma {:induction false} QuantileReturnsPrefix(rows: seq<LongRow>, q: string, n: nat)
    requires n <= |rows|
    requires forall l :: n <= l < |rows| ==> rows[l].quantile != q || rows[l].ret.None?
    ensures QuantileReturns(rows[..n], q) == QuantileReturns(rows, q)
  {
    if n < |rows| {
      var p := rows[..|rows| - 1];
      QuantileReturnsPrefix(p, q, n);
      assert p[..n] == rows[..n];
    } else {
      assert rows[..n] == rows;
    }
  }

  /** For returns above -100 percent the wealth index is positive wherever it is defined. */
  lemma WealthPositive(m: Elementary, perf: seq<LongRow>, i: nat)
    requires ExpPositive(m) && i < |perf|
    requires forall j :: 0 <= j < |perf| && perf[j].ret.Some? ==> -1.0 < perf[j].ret.value
    ensures CumulativeWealth(m, perf)[i].cumReturn.Some? ==> 0.0 < CumulativeWealth(m, perf)[i].cumReturn.value
  {
  }

  /**
   * The wealth index is the compounded growth of its quantile's returns up
   * to the row, with no "- 1": a wealth of 1 means nothing gained.
   */
  lemma WealthIsCompounded(m: Elementary, perf: seq<LongRow>, i: nat)
    requires ExpZero(m) && ExpAdditive(m) && ExpLog(m) && Log1pIsLogOfSuccessor(m)
    requires forall j :: 0 <= j < |perf| && perf[j].ret.Some? ==> -1.0 < perf[j].ret.value
    requires i < |perf| && perf[i].ret.Some?
    ensures CumulativeWealth(m, perf)[i].cumReturn == Some(Compound(QuantileReturns(perf[..i + 1], perf[i].quantile)))
  {
    var q := perf[i].quantile;
    var xs := QuantileReturns(perf[..i + 1], q);
    QuantileSumIsLogSum(m, perf[..i + 1], q);
    QuantileReturnsAbove(perf[..i + 1], q, -1.0);
    ExpLogSum(m, LogOfOnePlus, xs);
  }

  /** At the first row of a quantile the wealth index is `1 + r`. */
  lemma WealthFirst(m: Elementary, perf: seq<LongRow>, i: nat)
    requires ExpLog(m)
    requires i < |perf| && perf[i].ret.Some? && -1.0 < perf[i].ret.value
    requires forall j :: 0 <= j < i ==> perf[j].quantile != perf[i].quantile
    ensures CumulativeWealth(m, perf)[i].cumReturn == Some(1.0 + perf[i].ret.value)
  {
    CumSumOverQuantileFirst(perf, LogOfSuccessor(m), i);
    assert LogOfSuccessor(m)(perf[i].ret.value) == m.log(1.0 + perf[i].ret.value);
  }

  /**
   * Between consecutive rows of one quantile the wealth index is multiplied
   * by `1 + r` of the later row; rows of other quantiles in between do not
   * affect it.
   */
  lemma WealthStep(m: Elementary, perf: seq<LongRow>, j: nat, i: nat)
    requires ExpAdditive(m) && ExpLog(m)
    requires j < i < |perf|
    requires perf[j].quantile == perf[i].quantile
    requires perf[j].ret.Some? && perf[i].ret.Some? && -1.0 < perf[i].ret.value
    requires forall l :: j < l < i ==> perf[l].quantile != perf[i].quantile
    ensures CumulativeWealth(m, perf)[i].cumReturn.Some? && CumulativeWealth(m, perf)[j].cumReturn.Some?
    ensures CumulativeWealth(m, perf)[i].cumReturn.value
      == CumulativeWealth(m, perf)[j].cumReturn.value * (1.0 + perf[i].ret.value)
  {
    CumSumOverQuantileStep(perf, LogOfSuccessor(m), j, i);
    ExpOfLogStep(m, CumSumAt(perf, LogOfSuccessor(m), j).value, perf[i].ret.value);
  }

  /** Adding the log return of `r` multiplies exp by `1 + r`. */
  lemma ExpOfLogStep(m: Elementary, s: real, r: real)
    requires ExpAdditive(m) && ExpLog(m) && -1.0 < r
    ensures m.exp(s + LogOfSuccessor(m)(r)) == m.exp(s) * (1.0 + r)
  {
    assert LogOfSuccessor(m)(r) == m.log(1.0 + r);
    ExpAdd(m, s, m.log(1.0 + r));
  }

  /**
   * The notebook's metrics table: per quantile, sorted, `252 * mean`,
   * `sqrt(12) * std` (the two factors as written), the Sharpe ratio
   * `mean / std`, `exp(sum log(1 + r)) - 1` and `n_obs`.
   */
  function ResearchMetrics(m: Elementary, perf: seq<LongRow>): (r: seq<MetricsRow>)
    ensures |r| == |QuantileKeys(perf)|
  {
    MetricsTable(m, LogOfOnePlus, perf, 252.0, m.sqrt(12.0))
  }

  /** Row `k` of the metrics is the summary of the `k`-th quantile's non-null returns. */
  lemma ResearchMetricsAt(m: Elementary, perf: seq<LongRow>, k: nat)
    requires k < |ResearchMetrics(m, perf)|
    ensures ResearchMetrics(m, perf)[k].quantile == QuantileKeys(perf)[k]
    ensures ResearchMetrics(m, perf)[k].summary
      == Summarize(m, LogOfOnePlus, QuantileReturns(perf, QuantileKeys(perf)[k]), 252.0, m.sqrt(12.0))
  {
    MetricsTableAt(m, LogOfOnePlus, perf, 252.0, m.sqrt(12.0), k);
  }

  /**
   * The annualisation as written: the annual return is 252 times the mean,
   * but the annual volatility is sqrt(12), not sqrt(252), times the sample
   * deviation; the Sharpe ratio is the unannualised mean over deviation.
   */
  lemma ResearchAnnualisation(m: Elementary, xs: seq<real>)
    ensures var s := Summarize(m, LogOfOnePlus, xs, 252.0, m.sqrt(12.0));
      && (xs != [] ==> s.annualReturn == Some(252.0 * Mean(xs).value))
      && (|xs| >= 2 ==> s.annualVol == Some(m.sqrt(12.0) * SampleStd(m, xs).value))
      && (s.sharpe.Some? ==> |xs| >= 2 && s.sharpe.value * SampleStd(m, xs).value == Mean(xs).value)
  {
    SummarizeRatios(m, LogOfOnePlus, xs, 252.0, m.sqrt(12.0));
  }

  /**
   * The total return of a quantile in the metrics is its final wealth index
   * minus 1: both are `exp` of the same sum of log returns.
   */
  lemma MetricsTotalIsFinalWealth(m: Elementary, perf: seq<LongRow>, k: nat, i: nat)
    requires k < |ResearchMetrics(m, perf)| && i < |perf|
    requires perf[i].quantile == ResearchMetrics(m, perf)[k].quantile && perf[i].ret.Some?
    requires forall l :: i < l < |perf| ==> perf[l].quantile != perf[i].quantile || perf[l].ret.None?
    ensures CumulativeWealth(m, perf)[i].cumReturn.Some?
    ensures ResearchMetrics(m, perf)[k].summary.totalReturn == CumulativeWealth(m, perf)[i].cumReturn.value - 1.0
  {
    var q := perf[i].quantile;
    FinalWealthIsExpLogSum(m, perf, i);
    ResearchMetricsAt(m, perf, k);
    SummarizeRatios(m, LogOfOnePlus, QuantileReturns(perf, q), 252.0, m.sqrt(12.0));
  }

  /** The last wealth of a quantile is exp of the log sum of all its returns. */
  lemma FinalWealthIsExpLogSum(m: Elementary, perf: seq<LongRow>, i: nat)
    requires i < |perf| && perf[i].ret.Some?
    requires forall l :: i < l < |perf| ==> perf[l].quantile != perf[i].quantile || perf[l].ret.None?
    ensures CumulativeWealth(m, perf)[i].cumReturn
      == Some(m.exp(LogSum(m, LogOfOnePlus, QuantileReturns(perf, perf[i].quantile))))
  {
    var q := perf[i].quantile;
    QuantileSumIsLogSum(m, perf[..i + 1], q);
    QuantileReturnsPrefix(perf, q, i + 1);
  }
}
