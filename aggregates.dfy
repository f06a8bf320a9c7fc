/**
 * Column aggregations over exact reals: sums, products, means, sample
 * standard deviations, extrema, running (cumulative) sums and maxima and
 * trailing rolling means. Aggregations over a nullable column ignore nulls,
 * as the tables' aggregations do.
 */
module Aggregates {
  import opened Wrappers
  import opened RealMath

  function Sum(xs: seq<real>): real {
    if xs == [] then 0.0 else Sum(xs[..|xs| - 1]) + xs[|xs| - 1]
  }

  lemma {:induction false} SumConcat(a: seq<real>, b: seq<real>)
    ensures Sum(a + b) == Sum(a) + Sum(b)
  {
    if b == [] {
      assert a + b == a;
    } else {
      assert (a + b)[..|a + b| - 1] == a + b[..|b| - 1];
      SumConcat(a, b[..|b| - 1]);
    }
  }

  lemma {:induction false} SumNonNegative(xs: seq<real>)
    requires forall i :: 0 <= i < |xs| ==> 0.0 <= xs[i]
    ensures 0.0 <= Sum(xs)
  {
    if xs != [] { SumNonNegative(xs[..|xs| - 1]); }
  }

  lemma {:induction false} SumZeros(xs: seq<real>)
    requires forall i :: 0 <= i < |xs| ==> xs[i] == 0.0
    ensures Sum(xs) == 0.0
  {
    if xs != [] { SumZeros(xs[..|xs| - 1]); }
  }

  /** The non-null cells of a column, in order. */
  function Values(xs: seq<Option<real>>): (r: seq<real>)
    ensures |r| <= |xs|
  {
    if xs == [] then []
    else
      var t := Values(xs[..|xs| - 1]);
      match xs[|xs| - 1]
      case Some(v) => t + [v]
      case None => t
  }

  /** The values kept are exactly those of the non-null cells. */
  lemma {:induction false} ValuesMembers(xs: seq<Option<real>>)
    ensures forall v :: v in Values(xs) <==> Some(v) in xs
  {
    if xs != [] {
      ValuesMembers(xs[..|xs| - 1]);
      assert xs == xs[..|xs| - 1] + [xs[|xs| - 1]];
    }
  }

  /** A column has no values exactly when all its cells are null. */
  lemma {:induction false} ValuesEmpty(xs: seq<Option<real>>)
    ensures Values(xs) == [] <==> forall i :: 0 <= i < |xs| ==> xs[i].None?
  {
    if xs != [] {
      var p := xs[..|xs| - 1];
      ValuesEmpty(p);
      assert forall i :: 0 <= i < |p| ==> p[i] == xs[i];
    }
  }

  lemma {:induction false} ValuesConcat(a: seq<Option<real>>, b: seq<Option<real>>)
    ensures Values(a + b) == Values(a) + Values(b)
  {
    if b == [] {
      assert a + b == a;
    } else {
      assert (a + b)[..|a + b| - 1] == a + b[..|b| - 1];
      ValuesConcat(a, b[..|b| - 1]);
    }
  }

  /** `fill_null(v)`: every null cell becomes `v`. */
  function FillNull(xs: seq<Option<real>>, v: real): (r: seq<real>)
    ensures |r| == |xs|
    ensures forall i :: 0 <= i < |xs| ==> r[i] == xs[i].GetOr(v)
  {
    seq(|xs|, i requires 0 <= i < |xs| => xs[i].GetOr(v))
  }

  /** Filling nulls with 0 and summing is summing the non-null cells. */
  lemma {:induction false} SumFillNullZero(xs: seq<Option<real>>)
    ensures Sum(FillNull(xs, 0.0)) == Sum(Values(xs))
  {
    if xs != [] {
      var p := xs[..|xs| - 1];
      SumFillNullZero(p);
      assert FillNull(xs, 0.0)[..|xs| - 1] == FillNull(p, 0.0);
    }
  }

  /** The mean, null for an empty column. */
  function Mean(xs: seq<real>): (r: Option<real>)
    ensures r.Some? <==> xs != []
    ensures r.Some? ==> r.value * |xs| as real == Sum(xs)
  {
    if xs == [] then None else Some(Sum(xs) / |xs| as real)
  }

  /** The squared deviations of the entries from `c`. */
  function SquaredDeviations(xs: seq<real>, c: real): (r: seq<real>)
    ensures |r| == |xs|
    ensures forall i :: 0 <= i < |xs| ==> 0.0 <= r[i]
  {
    var r := seq(|xs|, i requires 0 <= i < |xs| => (xs[i] - c) * (xs[i] - c));
    assert forall i :: 0 <= i < |xs| ==> 0.0 <= r[i] by {
      forall i | 0 <= i < |xs| ensures 0.0 <= r[i] { SquareNonNegative(xs[i] - c); }
    }
    r
  }

  /** A square is never negative. */
  lemma SquareNonNegative(x: real)
    ensures 0.0 <= x * x
  {
    if x < 0.0 { assert x * x == (-x) * (-x); }
  }

  /** Entry `i` of the squared deviations is the square of `xs[i] - c`. */
  lemma SquaredDeviationAt(xs: seq<real>, c: real, i: int)
    requires 0 <= i < |xs|
    ensures SquaredDeviations(xs, c)[i] == Square(xs[i] - c)
  {
  }

  /** A sum of non-negative entries with one positive entry is positive. */
  lemma {:induction false} SumPositive(xs: seq<real>, k: nat)
    requires forall i :: 0 <= i < |xs| ==> 0.0 <= xs[i]
    requires k < |xs| && 0.0 < xs[k]
    ensures 0.0 < Sum(xs)
  {
    var p := xs[..|xs| - 1];
    if k == |xs| - 1 {
      SumNonNegative(p);
    } else {
      SumPositive(p, k);
    }
  }

  /** A sum of n copies of c is n * c. */
  lemma {:induction false} SumConstant(xs: seq<real>, c: real)
    requires forall i :: 0 <= i < |xs| ==> xs[i] == c
    ensures Sum(xs) == |xs| as real * c
  {
    if xs != [] {
      SumConstant(xs[..|xs| - 1], c);
      assert Sum(xs) == (|xs| as real - 1.0) * c + c;
    }
  }

  /**
   * The sample standard deviation (divisor n - 1), null for fewer than two
   * values.
   */
  function SampleStd(m: Elementary, xs: seq<real>): (r: Option<real>)
    ensures r.Some? <==> |xs| >= 2
    ensures SqrtNonNegative(m) && r.Some? ==> 0.0 <= r.value
  {
    if |xs| < 2 then None
    else
      var n := |xs| as real;
      var squares := SquaredDeviations(xs, Sum(xs) / n);
      SumNonNegative(squares);
      Some(m.sqrt(Sum(squares) / (n - 1.0)))
  }

  /**
   * The sample variance: the square of the deviation is the sum of the squared
   * deviations from the mean over n - 1.
   */
  lemma SampleStdSquare(m: Elementary, xs: seq<real>)
    requires SqrtSquare(m) && |xs| >= 2
    ensures Square(SampleStd(m, xs).value) == Sum(SquaredDeviations(xs, Sum(xs) / |xs| as real)) / (|xs| as real - 1.0)
  {
    var d := SquaredDeviations(xs, Sum(xs) / |xs| as real);
    SumNonNegative(d);
    QuotientNonNegative(Sum(d), |xs| as real - 1.0);
  }

  /** The squared deviations from `c` sum to zero exactly when every entry is `c`. */
  lemma SquaredDeviationsZero(xs: seq<real>, c: real)
    ensures Sum(SquaredDeviations(xs, c)) == 0.0 <==> forall i :: 0 <= i < |xs| ==> xs[i] == c
  {
    var d := SquaredDeviations(xs, c);
    if Sum(d) == 0.0 {
      forall i | 0 <= i < |xs| ensures xs[i] == c {
        SquaredDeviationAt(xs, c, i);
        if d[i] != 0.0 { SumPositive(d, i); }
      }
    }
    if forall i :: 0 <= i < |xs| ==> xs[i] == c {
      forall i | 0 <= i < |xs| ensures d[i] == 0.0 { SquaredDeviationAt(xs, c, i); }
      SumZeros(d);
    }
  }

  /** The mean of a constant column is that constant. */
  lemma MeanOfConstant(xs: seq<real>)
    requires xs != [] && forall i :: 0 <= i < |xs| ==> xs[i] == xs[0]
    ensures Sum(xs) / |xs| as real == xs[0]
  {
    SumConstant(xs, xs[0]);
    Cancel(xs[0], |xs| as real);
  }

  /** The sample deviation is zero exactly when all values are equal. */
  lemma SampleStdZero(m: Elementary, xs: seq<real>)
    requires SqrtSquare(m) && |xs| >= 2
    ensures SampleStd(m, xs).value == 0.0 <==> forall i, j :: 0 <= i < |xs| && 0 <= j < |xs| ==> xs[i] == xs[j]
  {
    var c := Sum(xs) / |xs| as real;
    var d := SquaredDeviations(xs, c);
    SampleStdSquare(m, xs);
    QuotientZero(Sum(d), |xs| as real - 1.0);
    SquaredDeviationsZero(xs, c);
    if forall i, j :: 0 <= i < |xs| && 0 <= j < |xs| ==> xs[i] == xs[j] {
      MeanOfConstant(xs);
    }
  }

  /** Quotient facts for a positive divisor. */
  lemma QuotientNonNegative(a: real, b: real)
    requires 0.0 <= a && 0.0 < b
    ensures 0.0 <= a / b
  {
  }

  lemma QuotientZero(a: real, b: real)
    requires 0.0 < b
    ensures a / b == 0.0 <==> a == 0.0
  {
  }

  lemma Cancel(a: real, b: real)
    requires 0.0 < b
    ensures (b * a) / b == a
  {
  }

  /**
   * Division of two nullable cells. A null operand gives null; so does a zero
   * divisor, where floating point would give an infinity or NaN.
   */
  function Divide(a: Option<real>, b: Option<real>): (r: Option<real>)
    ensures r.Some? <==> a.Some? && b.Some? && b.value != 0.0
    ensures r.Some? ==> r.value * b.value == a.value
  {
    if a.Some? && b.Some? && b.value != 0.0 then Some(a.value / b.value) else None
  }

  function Max(xs: seq<real>): (r: real)
    requires xs != []
    ensures forall i :: 0 <= i < |xs| ==> xs[i] <= r
    ensures r in xs
  {
    if |xs| == 1 then xs[0]
    else
      var p := xs[..|xs| - 1];
      var m := Max(p);
      assert xs == p + [xs[|xs| - 1]];
      if m < xs[|xs| - 1] then xs[|xs| - 1] else m
  }

  function Min(xs: seq<real>): (r: real)
    requires xs != []
    ensures forall i :: 0 <= i < |xs| ==> r <= xs[i]
    ensures r in xs
  {
    if |xs| == 1 then xs[0]
    else
      var p := xs[..|xs| - 1];
      var m := Min(p);
      assert xs == p + [xs[|xs| - 1]];
      if xs[|xs| - 1] < m then xs[|xs| - 1] else m
  }

  /** `cum_sum`: entry i is the sum of entries 0..i. */
  function CumSum(xs: seq<real>): (r: seq<real>)
    ensures |r| == |xs|
  {
    seq(|xs|, i requires 0 <= i < |xs| => Sum(xs[..i + 1]))
  }

  /** A running sum starts at the first entry and adds one entry per step. */
  lemma CumSumSteps(xs: seq<real>)
    ensures xs != [] ==> CumSum(xs)[0] == xs[0]
    ensures forall i :: 0 <= i < |xs| - 1 ==> CumSum(xs)[i + 1] == CumSum(xs)[i] + xs[i + 1]
  {
    if xs != [] {
      assert xs[..1] == [xs[0]];
      assert Sum([xs[0]]) == Sum([]) + xs[0];
    }
    forall i | 0 <= i < |xs| - 1 ensures CumSum(xs)[i + 1] == CumSum(xs)[i] + xs[i + 1] {
      assert xs[..i + 2][..i + 1] == xs[..i + 1];
    }
  }

  /** `cum_max`: entry i is the largest of entries 0..i. */
  function CumMax(xs: seq<real>): (r: seq<real>)
    ensures |r| == |xs|
  {
    seq(|xs|, i requires 0 <= i < |xs| => Max(xs[..i + 1]))
  }

  /**
   * The running maximum bounds the entry at each position, is attained in the
   * prefix, starts at the first entry and never decreases.
   */
  lemma CumMaxProperties(xs: seq<real>)
    ensures forall i :: 0 <= i < |xs| ==> xs[i] <= CumMax(xs)[i]
    ensures forall i :: 0 <= i < |xs| ==> CumMax(xs)[i] in xs[..i + 1]
    ensures xs != [] ==> CumMax(xs)[0] == xs[0]
    ensures forall i, j :: 0 <= i <= j < |xs| ==> CumMax(xs)[i] <= CumMax(xs)[j]
  {
    forall i | 0 <= i < |xs| ensures xs[i] <= CumMax(xs)[i] {
      CumMaxBound(xs, i);
    }
    forall i, j | 0 <= i <= j < |xs| ensures CumMax(xs)[i] <= CumMax(xs)[j] {
      CumMaxMonotone(xs, i, j);
    }
  }

  /** Entry i of the running maximum is at least entry i. */
  lemma CumMaxBound(xs: seq<real>, i: nat)
    requires i < |xs|
    ensures xs[i] <= CumMax(xs)[i]
  {
    assert xs[..i + 1][i] == xs[i];
  }

  /** The running maximum at i is at most the running maximum at any later j. */
  lemma CumMaxMonotone(xs: seq<real>, i: nat, j: nat)
    requires i <= j < |xs|
    ensures CumMax(xs)[i] <= CumMax(xs)[j]
  {
    var a := xs[..i + 1];
    var b := xs[..j + 1];
    var k :| 0 <= k < |a| && a[k] == Max(a);
    assert b[k] == a[k];
  }

  /**
   * `rolling_mean(w)` with the default minimum of w observations: null until
   * a full window is available, then the mean of the trailing w entries.
   */
  function RollingMean(xs: seq<real>, w: nat): (r: seq<Option<real>>)
    requires w > 0
    ensures |r| == |xs|
    ensures forall i :: 0 <= i < |xs| ==> (r[i].None? <==> i + 1 < w)
    ensures forall i :: w - 1 <= i < |xs| ==> r[i].value * w as real == Sum(xs[i + 1 - w..i + 1])
  {
    seq(|xs|, i requires 0 <= i < |xs| =>
      if i + 1 < w then None else Some(Sum(xs[i + 1 - w..i + 1]) / w as real))
  }
}
