/**
 * The production notebook: the wealth index of the portfolio's return
 * column, the single-row performance summary annualised for monthly data,
 * the ratio-form drawdown of the wealth index with its maximum, and the
 * Calmar ratio.
 */
module Production {
  import opened Wrappers
  import opened RealMath
  import opened Dates
  import opened Aggregates
  import opened Statistics

  /** A row of the portfolio table: a date and that period's return. */
  datatype PortfolioRow = PortfolioRow(date: Date, ret: real)

  /** The `ret` column. */
  function Rets(rows: seq<PortfolioRow>): (r: seq<real>)
    ensures |r| == |rows|
    ensures forall i :: 0 <= i < |rows| ==> r[i] == rows[i].ret
  {
    seq(|rows|, i requires 0 <= i < |rows| => rows[i].ret)
  }

  /** `1 + log_ret.cum_sum().exp() - 1` at row `i`, with `log_ret = (1 + ret).log()`. */
  function CumRetAt(m: Elementary, rows: seq<PortfolioRow>, i: nat): real
    requires i < |rows|
  {
    1.0 + m.exp(LogSum(m, LogOfOnePlus, Rets(rows)[..i + 1])) - 1.0
  }

  /** A row of `cumul_returns`: the columns `date`, `ret` and `cum_ret`. */
  datatype WealthRow = WealthRow(date: Date, ret: real, cumRet: real)

  /** `cumul_returns`, one row per portfolio row, in input order. */
  function CumulativeReturns(m: Elementary, rows: seq<PortfolioRow>): (r: seq<WealthRow>)
    ensures |r| == |rows|
    ensures forall i :: 0 <= i < |rows| ==> r[i] == WealthRow(rows[i].date, rows[i].ret, CumRetAt(m, rows, i))
  {
    seq(|rows|, i requires 0 <= i < |rows| => WealthRow(rows[i].date, rows[i].ret, CumRetAt(m, rows, i)))
  }

  /**
   * `cum_ret` is the wealth index exp(sum of log returns), with no "- 1":
   * the `1 + ... - 1` cancels.
   */
  lemma CumRetIsWealth(m: Elementary, rows: seq<PortfolioRow>, i: nat)
    requires i < |rows|
    ensures CumulativeReturns(m, rows)[i].cumRet == m.exp(LogSum(m, LogOfOnePlus, Rets(rows)[..i + 1]))
  {
  }

  /** The wealth index is the compounded growth of the returns up to the row. */
  lemma CumRetCompounded(m: Elementary, rows: seq<PortfolioRow>, i: nat)
    requires ExpZero(m) && ExpAdditive(m) && ExpLog(m) && Log1pIsLogOfSuccessor(m)
    requires forall j :: 0 <= j < |rows| ==> -1.0 < rows[j].ret
    requires i < |rows|
    ensures CumulativeReturns(m, rows)[i].cumRet == Compound(Rets(rows)[..i + 1])
  {
    ExpLogSum(m, LogOfOnePlus, Rets(rows)[..i + 1]);
  }

  /** For returns above -100 percent the wealth index is positive. */
  lemma CumRetPositive(m: Elementary, rows: seq<PortfolioRow>, i: nat)
    requires ExpPositive(m) && i < |rows|
    requires forall j :: 0 <= j < |rows| ==> -1.0 < rows[j].ret
    ensures 0.0 < CumulativeReturns(m, rows)[i].cumRet
  {
    assert 0.0 < m.exp(LogSum(m, LogOfOnePlus, Rets(rows)[..i + 1]));
  }

  /** The first wealth is `1 + ret`, and each later one multiplies by `1 + ret`. */
  lemma CumRetSteps(m: Elementary, rows: seq<PortfolioRow>, i: nat)
    requires ExpZero(m) && ExpAdditive(m) && ExpLog(m)
    requires forall j :: 0 <= j < |rows| ==> -1.0 < rows[j].ret
    requires i < |rows|
    ensures i == 0 ==> CumulativeReturns(m, rows)[i].cumRet == 1.0 + rows[0].ret
    ensures 0 < i ==> CumulativeReturns(m, rows)[i].cumRet == CumulativeReturns(m, rows)[i - 1].cumRet * (1.0 + rows[i].ret)
  {
    var xs := Rets(rows)[..i + 1];
    assert xs[..|xs| - 1] == Rets(rows)[..i];
    var s := LogSum(m, LogOfOnePlus, Rets(rows)[..i]);
    LogStep(m, s, rows[i].ret);
    if i == 0 {
      assert Rets(rows)[..i] == [];
    }
  }

  lemma LogStep(m: Elementary, s: real, r: real)
    requires ExpAdditive(m) && ExpLog(m) && -1.0 < r
    ensures m.exp(s + LogReturn(m, LogOfOnePlus, r)) == m.exp(s) * (1.0 + r)
  {
    ExpAdd(m, s, m.log(1.0 + r));
  }

  /**
   * The single row of `metrics`: `mean_ret`, `std_ret`, `cum_log_ret`,
   * `n_obs`, `min_ret`, `max_ret`, then `total_ret`, `sharpe_ratio`,
   * `annual_ret` and `annual_vol`. The minimum and maximum of no returns
   * are null.
   */
  datatype PerformanceRow = PerformanceRow(
    meanRet: Option<real>,
    stdRet: Option<real>,
    cumLogRet: real,
    nObs: nat,
    minRet: Option<real>,
    maxRet: Option<real>,
    totalRet: real,
    sharpe: Option<real>,
    annualRet: Option<real>,
    annualVol: Option<real>)

  function MinOf(xs: seq<real>): (r: Option<real>)
    ensures r.Some? <==> xs != []
  {
    if xs == [] then None else Some(Min(xs))
  }

  function MaxOf(xs: seq<real>): (r: Option<real>)
    ensures r.Some? <==> xs != []
  {
    if xs == [] then None else Some(Max(xs))
  }

  /** Months per year, the notebook's annualisation factor. */
  const MonthsPerYear: real := 12.0

  /** `metrics`: the summary of the return column, annualised for monthly data. */
  function Performance(m: Elementary, rows: seq<PortfolioRow>): (r: PerformanceRow)
    ensures r.nObs == |rows|
    ensures r.minRet.Some? <==> rows != []
    ensures r.maxRet.Some? <==> rows != []
  {
    var xs := Rets(rows);
    var mean := Mean(xs);
    var std := SampleStd(m, xs);
    var cumLog := LogSum(m, LogOfOnePlus, xs);
    PerformanceRow(
      mean, std, cumLog, |xs|, MinOf(xs), MaxOf(xs),
      m.exp(cumLog) - 1.0, Divide(mean, std), Scale(mean, MonthsPerYear), Scale(std, m.sqrt(MonthsPerYear)))
  }

  /** `min_ret` and `max_ret` bound every return and are returns. */
  lemma PerformanceBounds(m: Elementary, rows: seq<PortfolioRow>)
    requires rows != []
    ensures var p := Performance(m, rows);
      && (forall i :: 0 <= i < |rows| ==> p.minRet.value <= rows[i].ret <= p.maxRet.value)
      && (exists i :: 0 <= i < |rows| && rows[i].ret == p.minRet.value)
      && (exists i :: 0 <= i < |rows| && rows[i].ret == p.maxRet.value)
  {
    var xs := Rets(rows);
    var lo := Min(xs);
    var hi := Max(xs);
    var i :| 0 <= i < |xs| && xs[i] == lo;
    var j :| 0 <= j < |xs| && xs[j] == hi;
    assert rows[i].ret == lo && rows[j].ret == hi;
  }

  /**
   * The row is the research summary with the monthly factors: 12 times the
   * mean, sqrt(12) times the deviation, mean over deviation, the total
   * return `exp(sum of logs) - 1` and the count.
   */
  lemma PerformanceIsSummary(m: Elementary, rows: seq<PortfolioRow>)
    ensures var p := Performance(m, rows);
      var s := Summarize(m, LogOfOnePlus, Rets(rows), MonthsPerYear, m.sqrt(MonthsPerYear));
      && p.annualRet == s.annualReturn && p.annualVol == s.annualVol && p.sharpe == s.sharpe
      && p.totalRet == s.totalReturn && p.nObs == s.nObs
  {
  }

  /** Annualisation for monthly data: the annual return is 12 times the mean. */
  lemma PerformanceAnnualReturn(m: Elementary, rows: seq<PortfolioRow>)
    requires rows != []
    ensures Performance(m, rows).annualRet.Some?
    ensures Performance(m, rows).annualRet.value == 12.0 * Performance(m, rows).meanRet.value
  {
  }

  /** The annual volatility is sqrt(12) times the sample deviation. */
  lemma PerformanceAnnualVol(m: Elementary, rows: seq<PortfolioRow>)
    requires |rows| >= 2
    ensures Performance(m, rows).annualVol.Some?
    ensures Performance(m, rows).annualVol.value == m.sqrt(12.0) * Performance(m, rows).stdRet.value
  {
  }

  /** The Sharpe ratio is defined exactly for a non-zero deviation, and times the deviation gives back the mean. */
  lemma PerformanceSharpe(m: Elementary, rows: seq<PortfolioRow>)
    ensures var p := Performance(m, rows);
      && (p.sharpe.Some? <==> |rows| >= 2 && p.stdRet.value != 0.0)
      && (p.sharpe.Some? ==> p.sharpe.value * p.stdRet.value == p.meanRet.value)
  {
  }

  /** The Sharpe ratio is null exactly when there are fewer than two rows or all returns are equal. */
  lemma PerformanceSharpeNull(m: Elementary, rows: seq<PortfolioRow>)
    requires SqrtSquare(m)
    ensures Performance(m, rows).sharpe.None? <==>
      |rows| < 2 || forall i, j :: 0 <= i < |rows| && 0 <= j < |rows| ==> rows[i].ret == rows[j].ret
  {
    var xs := Rets(rows);
    if |rows| >= 2 {
      SampleStdZero(m, xs);
    }
  }

  /** The total return is the last wealth index minus 1, and 0 for no rows. */
  lemma PerformanceTotalIsFinalWealth(m: Elementary, rows: seq<PortfolioRow>)
    requires ExpZero(m)
    ensures rows == [] ==> Performance(m, rows).totalRet == 0.0
    ensures rows != [] ==>
      Performance(m, rows).totalRet == CumulativeReturns(m, rows)[|rows| - 1].cumRet - 1.0
  {
    assert Rets(rows)[..|rows|] == Rets(rows);
    if rows == [] {
      assert Rets(rows) == [];
    }
  }

  /**
   * `(cum_ret - running_max) / running_max` at row `i`, with
   * `running_max = np.maximum.accumulate(cum_ret)`; a zero peak gives null.
   */
  function DrawdownAt(c: seq<real>, i: nat): (r: Option<real>)
    requires i < |c|
  {
    Divide(Some(c[i] - Max(c[..i + 1])), Some(Max(c[..i + 1])))
  }

  /** The drawdown series of the wealth index `c`. */
  function Drawdown(c: seq<real>): (r: seq<Option<real>>)
    ensures |r| == |c|
    ensures forall i :: 0 <= i < |c| ==> r[i] == DrawdownAt(c, i)
  {
    seq(|c|, i requires 0 <= i < |c| => DrawdownAt(c, i))
  }

  /**
   * On a positive wealth index the drawdown is defined, at most 0, above -1,
   * and 0 exactly where the wealth is at its running maximum.
   */
  lemma DrawdownBounds(c: seq<real>, i: nat)
    requires forall j :: 0 <= j < |c| ==> 0.0 < c[j]
    requires i < |c|
    ensures Drawdown(c)[i].Some?
    ensures -1.0 < Drawdown(c)[i].value <= 0.0
    ensures Drawdown(c)[i].value == 0.0 <==> c[i] == Max(c[..i + 1])
  {
    var peak := Max(c[..i + 1]);
    assert c[..i + 1][i] == c[i];
    var k :| 0 <= k < i + 1 && c[..i + 1][k] == peak;
    RatioBounds(c[i], peak, DrawdownAt(c, i).value);
  }

  lemma RatioBounds(a: real, b: real, r: real)
    requires 0.0 < a <= b && r * b == a - b
    ensures -1.0 < r <= 0.0
    ensures r == 0.0 <==> a == b
  {
    PositiveFactor(r, b);
    PositiveFactor(r + 1.0, b);
  }

  lemma PositiveFactor(x: real, y: real)
    ensures 0.0 < y && 0.0 < x ==> 0.0 < x * y
    ensures 0.0 < y && 0.0 < x * y ==> 0.0 < x
  {
    if 0.0 < y && x <= 0.0 {
      assert x * y <= 0.0;
    }
  }

  /** The first drawdown is 0: the first wealth is its own running maximum. */
  lemma DrawdownFirst(c: seq<real>)
    requires c != [] && 0.0 < c[0]
    ensures Drawdown(c)[0] == Some(0.0)
  {
    assert c[..1] == [c[0]];
  }

  /**
   * The smallest entry of a nullable column, as `min` over an array: null
   * when the column is empty or holds a null.
   */
  function MinOfCells(xs: seq<Option<real>>): (r: Option<real>)
    ensures r.Some? <==> xs != [] && forall i :: 0 <= i < |xs| ==> xs[i].Some?
    ensures r.Some? ==> forall i :: 0 <= i < |xs| ==> r.value <= xs[i].value
    ensures r.Some? ==> exists i :: 0 <= i < |xs| && xs[i].value == r.value
  {
    if xs == [] then None
    else
      var p := xs[..|xs| - 1];
      var last := xs[|xs| - 1];
      if last.None? then None
      else if p == [] then Some(last.value)
      else
        var t := MinOfCells(p);
        assert forall i :: 0 <= i < |p| ==> p[i] == xs[i];
        if t.None? then None
        else if last.value < t.value then Some(last.value)
        else
          var k :| 0 <= k < |p| && p[k].value == t.value;
          assert xs[k].value == t.value;
          t
  }

  /** `max_drawdown = drawdown.min()`. */
  function MaxDrawdown(c: seq<real>): Option<real> {
    MinOfCells(Drawdown(c))
  }

  /**
   * On a non-empty positive wealth index the maximum drawdown is defined,
   * at most 0 and above -1, and is the drawdown of some row.
   */
  lemma MaxDrawdownBounds(c: seq<real>)
    requires forall j :: 0 <= j < |c| ==> 0.0 < c[j]
    requires c != []
    ensures MaxDrawdown(c).Some?
    ensures -1.0 < MaxDrawdown(c).value <= 0.0
    ensures exists i :: 0 <= i < |c| && Drawdown(c)[i] == MaxDrawdown(c)
  {
    var d := Drawdown(c);
    forall i | 0 <= i < |c| ensures d[i].Some? && -1.0 < d[i].value <= 0.0 {
      DrawdownBounds(c, i);
    }
    var r := MinOfCells(d);
    var i :| 0 <= i < |d| && d[i].value == r.value;
    DrawdownFirst(c);
  }

  /** `annual_ret / abs(max_drawdown)`, and 0 when there was no drawdown. */
  function Calmar(annualRet: real, maxDrawdown: real): (r: real)
    ensures maxDrawdown == 0.0 ==> r == 0.0
  {
    if maxDrawdown != 0.0 then annualRet / (if maxDrawdown < 0.0 then -maxDrawdown else maxDrawdown) else 0.0
  }

  /**
   * With a drawdown, the Calmar ratio times its depth gives back the annual
   * return, so it has the annual return's sign.
   */
  lemma CalmarScales(annualRet: real, maxDrawdown: real)
    requires maxDrawdown < 0.0
    ensures Calmar(annualRet, maxDrawdown) * -maxDrawdown == annualRet
    ensures 0.0 < Calmar(annualRet, maxDrawdown) <==> 0.0 < annualRet
  {
    var r := Calmar(annualRet, maxDrawdown);
    var d := -maxDrawdown;
    assert r * d == annualRet;
    if 0.0 < r { assert 0.0 < r * d; }
    if r <= 0.0 { assert r * d <= 0.0; }
  }

  /** The notebook's Calmar ratio of a portfolio: its annual return over its maximum drawdown. */
  function PortfolioCalmar(m: Elementary, rows: seq<PortfolioRow>): (r: Option<real>) {
    var ann := Performance(m, rows).annualRet;
    var dd := MaxDrawdown(CumRets(m, rows));
    if ann.Some? && dd.Some? then Some(Calmar(ann.value, dd.value)) else None
  }

  /** The `cum_ret` column. */
  function CumRets(m: Elementary, rows: seq<PortfolioRow>): (r: seq<real>)
    ensures |r| == |rows|
    ensures forall i :: 0 <= i < |rows| ==> r[i] == CumulativeReturns(m, rows)[i].cumRet
  {
    seq(|rows|, i requires 0 <= i < |rows| => CumulativeReturns(m, rows)[i].cumRet)
  }

  /**
   * With positive exp, a non-empty portfolio of returns above -100 percent
   * has a Calmar ratio; it is 0 exactly without a drawdown.
   */
  lemma PortfolioCalmarDefined(m: Elementary, rows: seq<PortfolioRow>)
    requires ExpPositive(m) && rows != []
    requires forall j :: 0 <= j < |rows| ==> -1.0 < rows[j].ret
    ensures PortfolioCalmar(m, rows).Some?
    ensures MaxDrawdown(CumRets(m, rows)).value == 0.0 ==> PortfolioCalmar(m, rows) == Some(0.0)
  {
    var c := CumRets(m, rows);
    forall j | 0 <= j < |c| ensures 0.0 < c[j] { CumRetPositive(m, rows, j); }
    MaxDrawdownBounds(c);
  }
}
