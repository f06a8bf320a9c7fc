/**
 * The information-coefficient (IC) table the dashboards summarise: one
 * nullable IC per date. The summary is the mean IC and the IC information
 * ratio mean / std; the running total treats a null IC as 0.
 */
module InformationCoefficient {
  import opened Wrappers
  import opened RealMath
  import opened Orders
  import opened Dates
  import opened Aggregates

  datatype IcRow = IcRow(date: Date, ic: Option<real>)

  /** The `ic` column. */
  function IcColumn(rows: seq<IcRow>): (r: seq<Option<real>>)
    ensures |r| == |rows|
    ensures forall i :: 0 <= i < |rows| ==> r[i] == rows[i].ic
  {
    seq(|rows|, i requires 0 <= i < |rows| => rows[i].ic)
  }

  /** The non-null ICs, in table order. */
  function IcValues(rows: seq<IcRow>): (r: seq<real>)
    ensures |r| <= |rows|
  {
    Values(IcColumn(rows))
  }

  datatype IcSummary = IcSummary(mean: Option<real>, ir: Option<real>)

  /**
   * `ic.mean()` and `ic.mean() / ic.std()`, nulls ignored: the mean exists
   * once one IC is non-null; the ratio needs two non-null ICs and a non-zero
   * deviation, and then times the deviation gives back the mean.
   */
  function SummarizeIc(m: Elementary, rows: seq<IcRow>): (r: IcSummary)
    ensures r.mean.Some? <==> IcValues(rows) != []
    ensures r.mean.Some? ==> r.mean.value * |IcValues(rows)| as real == Sum(IcValues(rows))
    ensures r.ir.Some? <==> |IcValues(rows)| >= 2 && SampleStd(m, IcValues(rows)).value != 0.0
    ensures r.ir.Some? ==> r.mean.Some? && r.ir.value * SampleStd(m, IcValues(rows)).value == r.mean.value
  {
    var vs := IcValues(rows);
    var mean := Mean(vs);
    IcSummary(mean, Divide(mean, SampleStd(m, vs)))
  }

  /** The mean IC is null exactly when every IC is null. */
  lemma IcMeanDefined(m: Elementary, rows: seq<IcRow>)
    ensures SummarizeIc(m, rows).mean.None? <==> forall i :: 0 <= i < |rows| ==> rows[i].ic.None?
  {
    ValuesEmpty(IcColumn(rows));
  }

  /**
   * The information ratio is null exactly when fewer than two ICs are non-null
   * or all non-null ICs are equal.
   */
  lemma IcRatioNull(m: Elementary, rows: seq<IcRow>)
    requires SqrtSquare(m)
    ensures var vs := IcValues(rows);
      SummarizeIc(m, rows).ir.None? <==>
        |vs| < 2 || forall i, j :: 0 <= i < |vs| && 0 <= j < |vs| ==> vs[i] == vs[j]
  {
    if |IcValues(rows)| >= 2 {
      SampleStdZero(m, IcValues(rows));
    }
  }

  predicate IcDateLe(a: IcRow, b: IcRow) {
    DateLe(a.date, b.date)
  }

  lemma IcDateLeTotalPreorder()
    ensures TotalPreorder(IcDateLe)
  {
  }

  /** The IC table in date order. */
  function IcByDate(rows: seq<IcRow>): (r: seq<IcRow>)
    ensures multiset(r) == multiset(rows)
    ensures |r| == |rows|
    ensures forall i, j :: 0 <= i < j < |r| ==> DateLe(r[i].date, r[j].date)
  {
    IcDateLeTotalPreorder();
    Sort(rows, IcDateLe)
  }

  datatype CumulativeIcRow = CumulativeIcRow(date: Date, cumulative: real)

  /**
   * `sort("date")` then `ic.fill_null(0).cum_sum()`: one row per IC row, in
   * date order.
   */
  function CumulativeIc(rows: seq<IcRow>): (r: seq<CumulativeIcRow>)
    ensures |r| == |rows|
    ensures forall i :: 0 <= i < |rows| ==> r[i].date == IcByDate(rows)[i].date
    ensures forall i, j :: 0 <= i < j < |r| ==> DateLe(r[i].date, r[j].date)
  {
    var sorted := IcByDate(rows);
    var total := CumSum(FillNull(IcColumn(sorted), 0.0));
    seq(|rows|, i requires 0 <= i < |rows| => CumulativeIcRow(sorted[i].date, total[i]))
  }

  /**
   * The running total at a date is the sum of the non-null ICs up to it in
   * date order.
   */
  lemma CumulativeIcIsRunningSum(rows: seq<IcRow>, i: nat)
    requires i < |rows|
    ensures CumulativeIc(rows)[i].cumulative == Sum(Values(IcColumn(IcByDate(rows))[..i + 1]))
  {
    var xs := IcColumn(IcByDate(rows));
    assert FillNull(xs, 0.0)[..i + 1] == FillNull(xs[..i + 1], 0.0);
    SumFillNullZero(xs[..i + 1]);
  }

  /** From one date to the next the total grows by the IC, or by 0 for a null IC. */
  lemma CumulativeIcStep(rows: seq<IcRow>, i: nat)
    requires 0 < i < |rows|
    ensures CumulativeIc(rows)[i].cumulative == CumulativeIc(rows)[i - 1].cumulative + IcByDate(rows)[i].ic.GetOr(0.0)
  {
    CumSumSteps(FillNull(IcColumn(IcByDate(rows)), 0.0));
  }
}
