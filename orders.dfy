/**
 * Orderings and sorting, as used by the table operations `sort` and
 * `group_by(...).sort(...)`: an insertion sort over a caller-given total
 * preorder, and the ascending list of distinct keys of a column.
 */
module Orders {

  ghost predicate Total<K(!new)>(le: (K, K) -> bool) {
    forall a: K, b: K :: le(a, b) || le(b, a)
  }

  ghost predicate Transitive<K(!new)>(le: (K, K) -> bool) {
    forall a: K, b: K, c: K :: le(a, b) && le(b, c) ==> le(a, c)
  }

  ghost predicate Antisymmetric<K(!new)>(le: (K, K) -> bool) {
    forall a: K, b: K :: le(a, b) && le(b, a) ==> a == b
  }

  /** A comparison by which any sequence can be sorted (ties allowed). */
  ghost predicate TotalPreorder<K(!new)>(le: (K, K) -> bool) {
    Total(le) && Transitive(le)
  }

  /** A comparison that puts distinct keys in one definite order. */
  ghost predicate TotalOrder<K(!new)>(le: (K, K) -> bool) {
    TotalPreorder(le) && Antisymmetric(le)
  }

  /** `s` is in ascending order. */
  ghost predicate Ascending<K>(s: seq<K>, le: (K, K) -> bool) {
    forall i, j :: 0 <= i < j < |s| ==> le(s[i], s[j])
  }

  /** `s` is in ascending order and holds no key twice. */
  ghost predicate StrictlyAscending<K>(s: seq<K>, le: (K, K) -> bool) {
    forall i, j :: 0 <= i < j < |s| ==> le(s[i], s[j]) && s[i] != s[j]
  }

  /** Inserts `x` into `s` before the first element it is not above. */
  function Insert<K>(x: K, s: seq<K>, le: (K, K) -> bool): (r: seq<K>)
    ensures multiset(r) == multiset{x} + multiset(s)
  {
    if s == [] then [x]
    else if le(x, s[0]) then [x] + s
    else
      assert s == [s[0]] + s[1..];
      [s[0]] + Insert(x, s[1..], le)
  }

  /** Putting below an ascending sequence a key below all of it keeps it ascending. */
  lemma ConsAscending<K>(h: K, t: seq<K>, le: (K, K) -> bool)
    requires Ascending(t, le)
    requires forall y :: y in t ==> le(h, y)
    ensures Ascending([h] + t, le)
  {
    forall i, j | 0 <= i < j < |[h] + t| ensures le(([h] + t)[i], ([h] + t)[j]) {
      assert ([h] + t)[j] == t[j - 1];
      if i > 0 { assert ([h] + t)[i] == t[i - 1]; } else { assert t[j - 1] in t; }
    }
  }

  lemma {:induction false} InsertAscending<K(!new)>(x: K, s: seq<K>, le: (K, K) -> bool)
    requires TotalPreorder(le)
    requires Ascending(s, le)
    ensures Ascending(Insert(x, s, le), le)
  {
    if s == [] {
    } else if le(x, s[0]) {
      forall y | y in s ensures le(x, y) {
        var j :| 0 <= j < |s| && s[j] == y;
        if j > 0 { assert le(s[0], s[j]); }
      }
      ConsAscending(x, s, le);
    } else {
      assert le(s[0], x);
      var t := Insert(x, s[1..], le);
      InsertAscending(x, s[1..], le);
      forall y | y in t ensures le(s[0], y) {
        assert y in multiset(t);
        if y != x {
          assert y in multiset(s[1..]);
          var j :| 0 <= j < |s[1..]| && s[1..][j] == y;
          assert s[j + 1] == y;
        }
      }
      ConsAscending(s[0], t, le);
    }
  }

  /** Insertion sort of `s` by `le`: same elements, ascending order. */
  function Sort<K(!new)>(s: seq<K>, le: (K, K) -> bool): (r: seq<K>)
    requires TotalPreorder(le)
    ensures multiset(r) == multiset(s)
    ensures |r| == |s|
    ensures Ascending(r, le)
  {
    if s == [] then []
    else
      assert s == [s[0]] + s[1..];
      var t := Sort(s[1..], le);
      InsertAscending(s[0], t, le);
      assert |multiset(Insert(s[0], t, le))| == |multiset(s)|;
      Insert(s[0], t, le)
  }

  /**
   * Inserts key `x` into the strictly ascending `s`, unless it is already
   * there.
   */
  function InsertKey<K(==,!new)>(x: K, s: seq<K>, le: (K, K) -> bool): (r: seq<K>)
    requires TotalOrder(le)
    requires StrictlyAscending(s, le)
    ensures StrictlyAscending(r, le)
    ensures forall k :: k in r <==> k == x || k in s
  {
    if s == [] then [x]
    else if x == s[0] then s
    else if le(x, s[0]) then
      assert forall j | 0 < j < |s| :: le(x, s[j]) && x != s[j] by {
        forall j | 0 < j < |s| ensures le(x, s[j]) && x != s[j] {
          assert le(s[0], s[j]) && s[0] != s[j];
        }
      }
      [x] + s
    else
      assert s == [s[0]] + s[1..];
      var t := InsertKey(x, s[1..], le);
      assert forall y | y in t :: le(s[0], y) && s[0] != y by {
        forall y | y in t ensures le(s[0], y) && s[0] != y {
          if y != x {
            var j :| 0 <= j < |s[1..]| && s[1..][j] == y;
            assert s[j + 1] == y;
          }
        }
      }
      assert forall i, j | 0 <= i < j < |[s[0]] + t| ::
          le(([s[0]] + t)[i], ([s[0]] + t)[j]) && ([s[0]] + t)[i] != ([s[0]] + t)[j] by {
        forall i, j | 0 <= i < j < |[s[0]] + t|
          ensures le(([s[0]] + t)[i], ([s[0]] + t)[j]) && ([s[0]] + t)[i] != ([s[0]] + t)[j]
        {
          assert ([s[0]] + t)[j] == t[j - 1];
          if i > 0 { assert ([s[0]] + t)[i] == t[i - 1]; } else { assert t[j - 1] in t; }
        }
      }
      [s[0]] + t
  }

  /**
   * The distinct keys of `s` in ascending order: the key column of a
   * `group_by` followed by a `sort` on the same key.
   */
  function SortedKeys<K(==,!new)>(s: seq<K>, le: (K, K) -> bool): (r: seq<K>)
    requires TotalOrder(le)
    ensures StrictlyAscending(r, le)
    ensures forall k :: k in r <==> k in s
  {
    if s == [] then []
    else
      var t := SortedKeys(s[..|s| - 1], le);
      var r := InsertKey(s[|s| - 1], t, le);
      assert s == s[..|s| - 1] + [s[|s| - 1]];
      r
  }

  /** Lexicographic order on strings, as the string sort of the tables. */
  predicate StrLe(a: string, b: string) {
    if a == [] then true
    else if b == [] then false
    else if a[0] != b[0] then a[0] < b[0]
    else StrLe(a[1..], b[1..])
  }

  lemma {:induction false} StrLeTotalAt(a: string, b: string)
    ensures StrLe(a, b) || StrLe(b, a)
  {
    if a != [] && b != [] && a[0] == b[0] { StrLeTotalAt(a[1..], b[1..]); }
  }

  lemma {:induction false} StrLeAntisymmetricAt(a: string, b: string)
    requires StrLe(a, b) && StrLe(b, a)
    ensures a == b
  {
    if a != [] && b != [] {
      StrLeAntisymmetricAt(a[1..], b[1..]);
      assert a == [a[0]] + a[1..] && b == [b[0]] + b[1..];
    }
  }

  lemma {:induction false} StrLeTransitiveAt(a: string, b: string, c: string)
    requires StrLe(a, b) && StrLe(b, c)
    ensures StrLe(a, c)
  {
    if a != [] && b != [] && c != [] && a[0] == b[0] && b[0] == c[0] {
      StrLeTransitiveAt(a[1..], b[1..], c[1..]);
    }
  }

  /** The lexicographic string order is a total order. */
  lemma StrLeTotalOrder()
    ensures TotalOrder(StrLe)
  {
    forall a: string, b: string ensures StrLe(a, b) || StrLe(b, a) { StrLeTotalAt(a, b); }
    forall a: string, b: string | StrLe(a, b) && StrLe(b, a) ensures a == b {
      StrLeAntisymmetricAt(a, b);
    }
    forall a: string, b: string, c: string | StrLe(a, b) && StrLe(b, c) ensures StrLe(a, c) {
      StrLeTransitiveAt(a, b, c);
    }
  }

  /** The numeric order on integers. */
  predicate IntLe(a: int, b: int) {
    a <= b
  }

  lemma IntLeTotalOrder()
    ensures TotalOrder(IntLe)
  {
  }
}
