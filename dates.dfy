/** Calendar dates, compared as the tables compare them. */
module Dates {
  import opened Orders

  datatype Date = Date(year: int, month: int, day: int)

  /** `a` is on or before `b`: year, then month, then day. */
  predicate DateLe(a: Date, b: Date) {
    a.year < b.year
    || (a.year == b.year && (a.month < b.month || (a.month == b.month && a.day <= b.day)))
  }

  /** `a` is strictly before `b`. */
  predicate DateLt(a: Date, b: Date) {
    DateLe(a, b) && a != b
  }

  lemma DateLeTotalOrder()
    ensures TotalOrder(DateLe)
  {
  }

  /** A date that is not on or before `c` is after it, and conversely. */
  lemma NotOnOrBeforeIsAfter(d: Date, c: Date)
    ensures !DateLe(d, c) <==> DateLt(c, d)
  {
  }
}
