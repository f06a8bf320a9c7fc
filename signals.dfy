/** The signal file the dashboards load: one row per (date, asset). */
module Signals {
  import opened Wrappers
  import opened Dates
  import opened Frames

  datatype SignalRow = SignalRow(
    date: Date,
    barrid: string,
    signal: Option<real>,
    alpha: Option<real>,
    ret: Option<real>)

  function SignalDate(r: SignalRow): Date {
    r.date
  }

  predicate HasAlpha(r: SignalRow) {
    r.alpha.Some?
  }

  /**
   * The load-time filter `alpha is not null`: exactly the rows with an alpha
   * remain, each as often as in the file, in file order.
   */
  function NonNullAlpha(rows: seq<SignalRow>): (r: seq<SignalRow>)
    ensures forall i :: 0 <= i < |r| ==> r[i].alpha.Some?
    ensures forall x :: multiset(r)[x] == if x.alpha.Some? then multiset(rows)[x] else 0
  {
    var r := Filter(rows, HasAlpha);
    forall x ensures multiset(r)[x] == if x.alpha.Some? then multiset(rows)[x] else 0 {
      FilterMultiset(rows, HasAlpha, x);
    }
    r
  }
}
