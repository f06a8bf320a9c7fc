/**
 * Two-sided turnover of the optimizer dashboard: each asset's weight is
 * differenced against that asset's previous row in date order, the absolute
 * differences are summed per date, and the daily series is smoothed by a
 * 252-row rolling mean.
 */
module Turnover {
  import opened Wrappers
  import opened Orders
  import opened Dates
  import opened Aggregates
  import opened OptDash

  /** The rolling window, in rows (trading days). */
  const Window: nat := 252

  predicate WeightDateLe(a: WeightRow, b: WeightRow) {
    DateLe(a.date, b.date)
  }

  lemma WeightDateLeTotalPreorder()
    ensures TotalPreorder(WeightDateLe)
  {
  }

  /** `sort("date", "barrid")`, as far as the date order goes. */
  function WeightsByDate(rows: seq<WeightRow>): (r: seq<WeightRow>)
    ensures multiset(r) == multiset(rows)
    ensures |r| == |rows|
    ensures forall i, j :: 0 <= i < j < |r| ==> DateLe(r[i].date, r[j].date)
  {
    WeightDateLeTotalPreorder();
    Sort(rows, WeightDateLe)
  }

  /** The last row before row `n` that belongs to asset `b`, if there is one. */
  function LastIndexOf(s: seq<WeightRow>, b: string, n: nat): (r: Option<nat>)
    requires n <= |s|
    ensures r.Some? ==> r.value < n && s[r.value].barrid == b
    ensures r.Some? ==> forall l :: r.value < l < n ==> s[l].barrid != b
    ensures r.None? ==> forall l :: 0 <= l < n ==> s[l].barrid != b
  {
    if n == 0 then None
    else if s[n - 1].barrid == b then Some(n - 1)
    else LastIndexOf(s, b, n - 1)
  }

  /**
   * `weight - weight.shift(1)` over `barrid`: row `i`'s weight minus the
   * weight of the previous row of the same asset; null for the asset's first
   * row.
   */
  function WeightDiff(s: seq<WeightRow>, i: nat): (r: Option<real>)
    requires i < |s|
    ensures r.None? <==> forall l :: 0 <= l < i ==> s[l].barrid != s[i].barrid
  {
    match LastIndexOf(s, s[i].barrid, i)
    case None => None
    case Some(j) => Some(s[i].weight - s[j].weight)
  }

  /**
   * The difference is taken against the latest earlier row of the same
   * asset, however many rows of other assets (or dates) lie between.
   */
  lemma WeightDiffPrevious(s: seq<WeightRow>, i: nat, j: nat)
    requires j < i < |s| && s[j].barrid == s[i].barrid
    requires forall l :: j < l < i ==> s[l].barrid != s[i].barrid
    ensures WeightDiff(s, i) == Some(s[i].weight - s[j].weight)
  {
    var k := LastIndexOf(s, s[i].barrid, i);
    assert k.Some?;
  }

  function Abs(x: real): (r: real)
    ensures 0.0 <= r && (r == x || r == -x)
  {
    if x < 0.0 then -x else x
  }

  /** `abs` of a nullable cell: null stays null. */
  function AbsOf(x: Option<real>): (r: Option<real>)
    ensures r.Some? <==> x.Some?
    ensures r.Some? ==> 0.0 <= r.value && (r.value == x.value || r.value == -x.value)
  {
    match x
    case None => None
    case Some(v) => Some(Abs(v))
  }

  /** A row's date with the absolute value of its weight difference. */
  datatype DiffRow = DiffRow(date: Date, absDiff: Option<real>)

  /** The diff rows of the first `n` rows of `s`. */
  function AbsDiffs(s: seq<WeightRow>, n: nat): (r: seq<DiffRow>)
    requires n <= |s|
    ensures |r| == n
  {
    if n == 0 then [] else AbsDiffs(s, n - 1) + [DiffRow(s[n - 1].date, AbsOf(WeightDiff(s, n - 1)))]
  }

  lemma {:induction false} AbsDiffsAt(s: seq<WeightRow>, n: nat, i: nat)
    requires i < n <= |s|
    ensures AbsDiffs(s, n)[i] == DiffRow(s[i].date, AbsOf(WeightDiff(s, i)))
  {
    if i < n - 1 {
      AbsDiffsAt(s, n - 1, i);
    }
  }

  /**
   * `diff.abs().sum()` for the group of date `d`: the sum of the non-null
   * absolute differences of the rows dated `d`; rows of other dates and null
   * differences add nothing.
   */
  function TurnoverOn(diffs: seq<DiffRow>, d: Date): real {
    if diffs == [] then 0.0
    else
      var last := diffs[|diffs| - 1];
      TurnoverOn(diffs[..|diffs| - 1], d) + if last.date == d && last.absDiff.Some? then last.absDiff.value else 0.0
  }

  lemma {:induction false} TurnoverOnConcat(a: seq<DiffRow>, b: seq<DiffRow>, d: Date)
    ensures TurnoverOn(a + b, d) == TurnoverOn(a, d) + TurnoverOn(b, d)
  {
    if b == [] {
      assert a + b == a;
    } else {
      assert (a + b)[..|a + b| - 1] == a + b[..|b| - 1];
      TurnoverOnConcat(a, b[..|b| - 1], d);
    }
  }

  /**
   * A row with a null difference (an asset's first appearance), or of
   * another date, contributes nothing: removing it leaves the sum unchanged.
   */
  lemma TurnoverOnSkips(a: seq<DiffRow>, x: DiffRow, b: seq<DiffRow>, d: Date)
    requires x.absDiff.None? || x.date != d
    ensures TurnoverOn(a + [x] + b, d) == TurnoverOn(a + b, d)
  {
    TurnoverOnConcat(a + [x], b, d);
    TurnoverOnConcat(a, [x], d);
    TurnoverOnConcat(a, b, d);
    assert [x][..0] == [];
  }

  /** A sum of absolute values is never negative. */
  lemma {:induction false} TurnoverOnNonNegative(diffs: seq<DiffRow>, d: Date)
    requires forall i :: 0 <= i < |diffs| && diffs[i].absDiff.Some? ==> 0.0 <= diffs[i].absDiff.value
    ensures 0.0 <= TurnoverOn(diffs, d)
  {
    if diffs != [] {
      TurnoverOnNonNegative(diffs[..|diffs| - 1], d);
    }
  }

  /** When every difference on date `d` is 0 or null, the turnover on `d` is 0. */
  lemma {:induction false} TurnoverOnZero(diffs: seq<DiffRow>, d: Date)
    requires forall i :: 0 <= i < |diffs| && diffs[i].date == d && diffs[i].absDiff.Some? ==>
      diffs[i].absDiff.value == 0.0
    ensures TurnoverOn(diffs, d) == 0.0
  {
    if diffs != [] {
      TurnoverOnZero(diffs[..|diffs| - 1], d);
    }
  }

  /** The `date` column. */
  function DatesOf(rows: seq<WeightRow>): (r: seq<Date>)
    ensures |r| == |rows|
  {
    if rows == [] then [] else DatesOf(rows[..|rows| - 1]) + [rows[|rows| - 1].date]
  }

  lemma {:induction false} DatesOfMembers(rows: seq<WeightRow>)
    ensures forall d :: d in DatesOf(rows) <==> exists i :: 0 <= i < |rows| && rows[i].date == d
  {
    if rows != [] {
      var p := rows[..|rows| - 1];
      DatesOfMembers(p);
      assert forall i :: 0 <= i < |p| ==> p[i] == rows[i];
    }
  }

  /** The distinct dates of the weights, ascending: the keys of `group_by("date")` after `sort("date")`. */
  function TradingDates(weights: seq<WeightRow>): (r: seq<Date>)
    ensures StrictlyAscending(r, DateLe)
    ensures forall d :: d in r <==> d in DatesOf(weights)
  {
    DateLeTotalOrder();
    SortedKeys(DatesOf(weights), DateLe)
  }

  /** The turnover for each of the dates `keys`. */
  function PerDate(diffs: seq<DiffRow>, keys: seq<Date>): (r: seq<real>)
    ensures |r| == |keys|
  {
    if keys == [] then [] else PerDate(diffs, keys[..|keys| - 1]) + [TurnoverOn(diffs, keys[|keys| - 1])]
  }

  lemma {:induction false} PerDateAt(diffs: seq<DiffRow>, keys: seq<Date>, k: nat)
    requires k < |keys|
    ensures PerDate(diffs, keys)[k] == TurnoverOn(diffs, keys[k])
  {
    if k < |keys| - 1 {
      PerDateAt(diffs, keys[..|keys| - 1], k);
    }
  }

  /** The diff rows of the weights in date order. */
  function Diffs(weights: seq<WeightRow>): (r: seq<DiffRow>)
    ensures |r| == |weights|
  {
    AbsDiffs(WeightsByDate(weights), |weights|)
  }

  /** `two_sided_turnover` before smoothing: one value per trading date. */
  function DailyTurnover(weights: seq<WeightRow>): (r: seq<real>)
    ensures |r| == |TradingDates(weights)|
  {
    PerDate(Diffs(weights), TradingDates(weights))
  }

  datatype TurnoverRow = TurnoverRow(date: Date, turnover: Option<real>)

  function ZipRows(keys: seq<Date>, xs: seq<Option<real>>): (r: seq<TurnoverRow>)
    requires |keys| == |xs|
    ensures |r| == |keys|
  {
    if keys == [] then []
    else
      var n := |keys| - 1;
      ZipRows(keys[..n], xs[..n]) + [TurnoverRow(keys[n], xs[n])]
  }

  lemma {:induction false} ZipRowsAt(keys: seq<Date>, xs: seq<Option<real>>, k: nat)
    requires |keys| == |xs| && k < |keys|
    ensures ZipRows(keys, xs)[k] == TurnoverRow(keys[k], xs[k])
  {
    var n := |keys| - 1;
    if k < n {
      ZipRowsAt(keys[..n], xs[..n], k);
    }
  }

  /** The turnover table: per trading date, the 252-day rolling mean of the daily turnover. */
  function SmoothedTurnover(weights: seq<WeightRow>): (r: seq<TurnoverRow>)
    ensures |r| == |TradingDates(weights)|
  {
    ZipRows(TradingDates(weights), RollingMean(DailyTurnover(weights), Window))
  }

  /**
   * One row per distinct date, ascending; the first 251 rows are null and
   * every later row is the mean of the trailing 252 daily values.
   */
  lemma SmoothedTurnoverAt(weights: seq<WeightRow>, k: nat)
    requires k < |TradingDates(weights)|
    ensures SmoothedTurnover(weights)[k].date == TradingDates(weights)[k]
    ensures SmoothedTurnover(weights)[k].turnover.None? <==> k < Window - 1
    ensures Window - 1 <= k ==>
      SmoothedTurnover(weights)[k].turnover.value * Window as real == Sum(DailyTurnover(weights)[k + 1 - Window..k + 1])
  {
    ZipRowsAt(TradingDates(weights), RollingMean(DailyTurnover(weights), Window), k);
  }

  /** A date is a trading date exactly when some weight row carries it. */
  lemma TradingDatesMembers(weights: seq<WeightRow>)
    ensures forall d :: d in TradingDates(weights) <==> exists i :: 0 <= i < |weights| && weights[i].date == d
  {
    DatesOfMembers(weights);
  }

  /** The turnover rows are in strictly ascending date order: one row per date. */
  lemma SmoothedTurnoverAscending(weights: seq<WeightRow>)
    ensures forall k, l :: 0 <= k < l < |SmoothedTurnover(weights)| ==>
      DateLe(SmoothedTurnover(weights)[k].date, SmoothedTurnover(weights)[l].date) &&
      SmoothedTurnover(weights)[k].date != SmoothedTurnover(weights)[l].date
  {
    var r := SmoothedTurnover(weights);
    forall k | 0 <= k < |r| ensures r[k].date == TradingDates(weights)[k] {
      SmoothedTurnoverAt(weights, k);
    }
  }

  /** Every turnover row is dated by a date of the weights. */
  lemma SmoothedTurnoverDateFromWeights(weights: seq<WeightRow>, k: nat)
    requires k < |SmoothedTurnover(weights)|
    ensures exists i :: 0 <= i < |weights| && weights[i].date == SmoothedTurnover(weights)[k].date
  {
    var keys := TradingDates(weights);
    SmoothedTurnoverAt(weights, k);
    TradingDatesMembers(weights);
    assert keys[k] in keys;
  }

  /** Every date of the weights has its turnover row. */
  lemma WeightsDateInSmoothedTurnover(weights: seq<WeightRow>, i: nat)
    requires i < |weights|
    ensures exists k :: 0 <= k < |SmoothedTurnover(weights)| && SmoothedTurnover(weights)[k].date == weights[i].date
  {
    var keys := TradingDates(weights);
    TradingDatesMembers(weights);
    assert weights[i].date in keys;
    var k :| 0 <= k < |keys| && keys[k] == weights[i].date;
    SmoothedTurnoverAt(weights, k);
  }

  /** The daily turnover on the `k`-th trading date. */
  lemma DailyTurnoverAt(weights: seq<WeightRow>, k: nat)
    requires k < |TradingDates(weights)|
    ensures DailyTurnover(weights)[k] == TurnoverOn(Diffs(weights), TradingDates(weights)[k])
  {
    PerDateAt(Diffs(weights), TradingDates(weights), k);
  }

  /** Each diff row holds the date and the absolute difference of a row in date order. */
  lemma DiffsAt(weights: seq<WeightRow>, i: nat)
    requires i < |weights|
    ensures Diffs(weights)[i] == DiffRow(WeightsByDate(weights)[i].date, AbsOf(WeightDiff(WeightsByDate(weights), i)))
  {
    AbsDiffsAt(WeightsByDate(weights), |weights|, i);
  }

  /** An asset's first row in date order has a null difference. */
  lemma FirstAppearanceIsNull(weights: seq<WeightRow>, i: nat)
    requires i < |weights|
    requires forall l :: 0 <= l < i ==> WeightsByDate(weights)[l].barrid != WeightsByDate(weights)[i].barrid
    ensures Diffs(weights)[i].absDiff.None?
  {
    DiffsAt(weights, i);
  }

  /** Daily two-sided turnover is never negative. */
  lemma DailyTurnoverNonNegative(weights: seq<WeightRow>)
    ensures forall k :: 0 <= k < |DailyTurnover(weights)| ==> 0.0 <= DailyTurnover(weights)[k]
  {
    var diffs := Diffs(weights);
    forall i | 0 <= i < |diffs| && diffs[i].absDiff.Some? ensures 0.0 <= diffs[i].absDiff.value {
      DiffsAt(weights, i);
    }
    forall k | 0 <= k < |DailyTurnover(weights)| ensures 0.0 <= DailyTurnover(weights)[k] {
      DailyTurnoverAt(weights, k);
      TurnoverOnNonNegative(diffs, TradingDates(weights)[k]);
    }
  }

  /**
   * When every asset present on date `d` holds the same weight as at its
   * previous row, the turnover on `d` is 0.
   */
  lemma DailyTurnoverUnchanged(weights: seq<WeightRow>, k: nat)
    requires k < |TradingDates(weights)|
    requires forall i, j :: (
      0 <= j < i < |weights| &&
      WeightsByDate(weights)[i].date == TradingDates(weights)[k] &&
      WeightsByDate(weights)[j].barrid == WeightsByDate(weights)[i].barrid &&
      (forall l :: j < l < i ==> WeightsByDate(weights)[l].barrid != WeightsByDate(weights)[i].barrid)
      ==> WeightsByDate(weights)[j].weight == WeightsByDate(weights)[i].weight)
    ensures DailyTurnover(weights)[k] == 0.0
  {
    var s := WeightsByDate(weights);
    var d := TradingDates(weights)[k];
    var diffs := Diffs(weights);
    forall i | 0 <= i < |diffs| && diffs[i].date == d && diffs[i].absDiff.Some?
      ensures diffs[i].absDiff.value == 0.0
    {
      DiffsAt(weights, i);
      var j := LastIndexOf(s, s[i].barrid, i).value;
      WeightDiffPrevious(s, i, j);
    }
    TurnoverOnZero(diffs, d);
    DailyTurnoverAt(weights, k);
  }
}
