/**
 * The sample-period selector of the dashboards: Full Sample keeps every row,
 * In Sample the rows dated on or before the cutoff, Out of Sample the rows
 * dated after it.
 */
module SampleSplit {
  import opened Dates
  import opened Frames

  datatype SampleMode = FullSample | InSample | OutOfSample

  /** Whether a row dated `d` belongs to the selected period. */
  predicate InPeriod(mode: SampleMode, cutoff: Date, d: Date) {
    match mode
    case FullSample => true
    case InSample => DateLe(d, cutoff)
    case OutOfSample => DateLt(cutoff, d)
  }

  function InPeriodRow<T>(mode: SampleMode, cutoff: Date, date: T -> Date): T -> bool {
    x => InPeriod(mode, cutoff, date(x))
  }

  /** The rows of the selected period, in table order. */
  function Split<T(!new)>(rows: seq<T>, date: T -> Date, mode: SampleMode, cutoff: Date): (r: seq<T>)
    ensures forall x :: multiset(r)[x] == if InPeriod(mode, cutoff, date(x)) then multiset(rows)[x] else 0
    ensures forall x :: x in r <==> x in rows && InPeriod(mode, cutoff, date(x))
  {
    if mode == FullSample then rows
    else
      var r := Filter(rows, InPeriodRow(mode, cutoff, date));
      forall x ensures multiset(r)[x] == if InPeriod(mode, cutoff, date(x)) then multiset(rows)[x] else 0 {
        FilterMultiset(rows, InPeriodRow(mode, cutoff, date), x);
      }
      r
  }

  /**
   * In Sample and Out of Sample partition the table: no row is in both, and
   * together they hold every row exactly as often as the full table.
   */
  lemma SplitPartition<T(!new)>(rows: seq<T>, date: T -> Date, cutoff: Date)
    ensures Split(rows, date, FullSample, cutoff) == rows
    ensures multiset(Split(rows, date, InSample, cutoff)) + multiset(Split(rows, date, OutOfSample, cutoff))
            == multiset(rows)
    ensures forall x :: !(x in Split(rows, date, InSample, cutoff) && x in Split(rows, date, OutOfSample, cutoff))
  {
    var ins := Split(rows, date, InSample, cutoff);
    var outs := Split(rows, date, OutOfSample, cutoff);
    forall x ensures (multiset(ins) + multiset(outs))[x] == multiset(rows)[x] {
      NotOnOrBeforeIsAfter(date(x), cutoff);
    }
    forall x ensures !(x in ins && x in outs) {
      NotOnOrBeforeIsAfter(date(x), cutoff);
    }
  }

  /** Selecting a period keeps the table's row order. */
  lemma SplitKeepsOrder<T(!new)>(a: seq<T>, b: seq<T>, date: T -> Date, mode: SampleMode, cutoff: Date)
    ensures Split(a + b, date, mode, cutoff) == Split(a, date, mode, cutoff) + Split(b, date, mode, cutoff)
  {
    if mode != FullSample {
      FilterConcat(a, b, InPeriodRow(mode, cutoff, date));
    }
  }
}
