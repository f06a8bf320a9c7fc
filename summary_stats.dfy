/**
 * The performance statistics the notebooks compute from a return column:
 * the sum of log returns, the total return `exp(sum of logs) - 1`, and the
 * summary row of mean-based annualised return, annualised volatility,
 * Sharpe ratio, total return and observation count.
 */
module Statistics {
  import opened Wrappers
  import opened RealMath
  import opened Aggregates

  /**
   * How a notebook takes the log of a return: `log1p(r)`, or `log(1 + r)`
   * written out.
   */
  datatype LogForm = Log1p | LogOfOnePlus

  function LogReturn(m: Elementary, form: LogForm, x: real): real {
    match form
    case Log1p => m.log1p(x)
    case LogOfOnePlus => m.log(1.0 + x)
  }

  /** The sum of the log returns: `log_return.sum()`. */
  function LogSum(m: Elementary, form: LogForm, xs: seq<real>): real {
    if xs == [] then 0.0 else LogSum(m, form, xs[..|xs| - 1]) + LogReturn(m, form, xs[|xs| - 1])
  }

  lemma {:induction false} LogSumConcat(m: Elementary, form: LogForm, a: seq<real>, b: seq<real>)
    ensures LogSum(m, form, a + b) == LogSum(m, form, a) + LogSum(m, form, b)
  {
    if b == [] {
      assert a + b == a;
    } else {
      assert (a + b)[..|a + b| - 1] == a + b[..|b| - 1];
      LogSumConcat(m, form, a, b[..|b| - 1]);
    }
  }

  /** With `log1p(x) = log(1 + x)`, the two ways of writing the log agree. */
  lemma {:induction false} LogSumForms(m: Elementary, xs: seq<real>)
    requires Log1pIsLogOfSuccessor(m)
    ensures LogSum(m, Log1p, xs) == LogSum(m, LogOfOnePlus, xs)
  {
    if xs != [] { LogSumForms(m, xs[..|xs| - 1]); }
  }

  /** The compounded growth, the product of `1 + r`. */
  function Compound(xs: seq<real>): real {
    if xs == [] then 1.0 else Compound(xs[..|xs| - 1]) * (1.0 + xs[|xs| - 1])
  }

  /**
   * exp of the summed log returns is the compounded growth, for returns
   * above -100 percent.
   */
  lemma {:induction false} ExpLogSum(m: Elementary, form: LogForm, xs: seq<real>)
    requires ExpZero(m) && ExpAdditive(m) && ExpLog(m) && Log1pIsLogOfSuccessor(m)
    requires forall i :: 0 <= i < |xs| ==> -1.0 < xs[i]
    ensures m.exp(LogSum(m, form, xs)) == Compound(xs)
  {
    if xs == [] {
      assert LogSum(m, form, xs) == 0.0;
    } else {
      var p := xs[..|xs| - 1];
      var x := xs[|xs| - 1];
      ExpLogSum(m, form, p);
      ExpLogStep(m, form, LogSum(m, form, p), Compound(p), x);

    }
  }

  /** One more return multiplies exp of the log sum by `1 + x`. */
  lemma ExpLogStep(m: Elementary, form: LogForm, s: real, g: real, x: real)
    requires ExpAdditive(m) && ExpLog(m) && Log1pIsLogOfSuccessor(m)
    requires m.exp(s) == g && -1.0 < x
    ensures m.exp(s + LogReturn(m, form, x)) == g * (1.0 + x)
  {
    ExpOfLogReturn(m, form, x);
    ExpAdd(m, s, LogReturn(m, form, x));
  }

  /** exp undoes the log of a return above -100 percent. */
  lemma ExpOfLogReturn(m: Elementary, form: LogForm, x: real)
    requires ExpLog(m) && Log1pIsLogOfSuccessor(m) && -1.0 < x
    ensures m.exp(LogReturn(m, form, x)) == 1.0 + x
  {
    ExpLog1p(m, x);
  }

  /** `cum_log_return.exp() - 1`. */
  function TotalReturn(m: Elementary, form: LogForm, xs: seq<real>): real {
    m.exp(LogSum(m, form, xs)) - 1.0
  }

  /** The total return is the compounded return `prod(1 + r) - 1`. */
  lemma TotalReturnIsCompounded(m: Elementary, form: LogForm, xs: seq<real>)
    requires ExpZero(m) && ExpAdditive(m) && ExpLog(m) && Log1pIsLogOfSuccessor(m)
    requires forall i :: 0 <= i < |xs| ==> -1.0 < xs[i]
    ensures TotalReturn(m, form, xs) == Compound(xs) - 1.0
  {
    ExpLogSum(m, form, xs);
  }

  /**
   * For returns above -100 percent no total return loses everything, and no
   * returns give 0.
   */
  lemma TotalReturnBounds(m: Elementary, form: LogForm, xs: seq<real>)
    requires ExpZero(m) && ExpPositive(m)
    requires forall i :: 0 <= i < |xs| ==> -1.0 < xs[i]
    ensures -1.0 < TotalReturn(m, form, xs)
    ensures xs == [] ==> TotalReturn(m, form, xs) == 0.0
  {
    assert 0.0 < m.exp(LogSum(m, form, xs));
  }

  /** A nullable cell times a constant. */
  function Scale(x: Option<real>, c: real): (r: Option<real>)
    ensures r.Some? <==> x.Some?
  {
    match x
    case Some(v) => Some(c * v)
    case None => None
  }

  /**
   * The per-portfolio summary columns `annual_return`, `annual_vol`,
   * `sharpe_ratio`, `total_return` and `n_obs`.
   */
  datatype Summary = Summary(
    annualReturn: Option<real>,
    annualVol: Option<real>,
    sharpe: Option<real>,
    totalReturn: real,
    nObs: nat)

  /**
   * The summary of the non-null returns `xs`: the mean times `returnScale`,
   * the sample deviation times `volScale`, mean / deviation, the total
   * return and the count.
   */
  function Summarize(m: Elementary, form: LogForm, xs: seq<real>, returnScale: real, volScale: real): (r: Summary)
    ensures r.nObs == |xs|
    ensures r.annualReturn.Some? <==> xs != []
    ensures r.annualVol.Some? <==> |xs| >= 2
    ensures r.sharpe.Some? <==> |xs| >= 2 && SampleStd(m, xs).value != 0.0
  {
    var mean := Mean(xs);
    var std := SampleStd(m, xs);
    Summary(Scale(mean, returnScale), Scale(std, volScale), Divide(mean, std), TotalReturn(m, form, xs), |xs|)
  }

  /** The annual return is `returnScale` times the mean of the returns. */
  lemma SummarizeAnnualReturn(m: Elementary, form: LogForm, xs: seq<real>, returnScale: real, volScale: real)
    requires xs != []
    ensures Summarize(m, form, xs, returnScale, volScale).annualReturn.value == returnScale * Mean(xs).value
  {
  }

  /**
   * The volatility is `volScale` times the sample deviation, the Sharpe ratio
   * times the deviation gives back the mean, and the total return is that of
   * the returns.
   */
  lemma SummarizeRatios(m: Elementary, form: LogForm, xs: seq<real>, returnScale: real, volScale: real)
    ensures var r := Summarize(m, form, xs, returnScale, volScale);
      && (r.annualVol.Some? ==> r.annualVol.value == volScale * SampleStd(m, xs).value)
      && (r.sharpe.Some? ==> r.sharpe.value * SampleStd(m, xs).value == Mean(xs).value)
      && r.totalReturn == TotalReturn(m, form, xs)
  {
  }

  /**
   * The Sharpe ratio is null exactly when there are fewer than two returns or
   * all returns are equal (a zero deviation).
   */
  lemma SummarizeSharpeNull(m: Elementary, form: LogForm, xs: seq<real>, returnScale: real, volScale: real)
    requires SqrtSquare(m)
    ensures Summarize(m, form, xs, returnScale, volScale).sharpe.None? <==>
      |xs| < 2 || forall i, j :: 0 <= i < |xs| && 0 <= j < |xs| ==> xs[i] == xs[j]
  {
    if |xs| >= 2 {
      SampleStdZero(m, xs);
    }
  }
}
