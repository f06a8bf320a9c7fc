/**
 * The elementary functions the notebooks call (`exp`, `log`, `log1p`, `sqrt`).
 * They are kept abstract: a value of `Elementary` supplies them, and the
 * predicates below are the only facts about them that proofs may rely on.
 */
module RealMath {

  datatype Elementary = Elementary(
    exp: real -> real,
    log: real -> real,
    log1p: real -> real,
    sqrt: real -> real)

  /** exp(0) = 1. */
  ghost predicate ExpZero(m: Elementary) {
    m.exp(0.0) == 1.0
  }

  /** exp is monotone. */
  ghost predicate ExpMonotone(m: Elementary) {
    forall x: real, y: real :: x <= y ==> m.exp(x) <= m.exp(y)
  }

  /** exp is strictly increasing. */
  ghost predicate ExpStrictlyIncreasing(m: Elementary) {
    forall x: real, y: real :: x < y ==> m.exp(x) < m.exp(y)
  }

  /** exp is positive. */
  ghost predicate ExpPositive(m: Elementary) {
    forall x: real :: 0.0 < m.exp(x)
  }

  /** exp(x + y), as a term the additivity axiom below can be stated on. */
  function ExpOfSum(m: Elementary, x: real, y: real): real {
    m.exp(x + y)
  }

  /** exp turns sums into products: exp(x + y) = exp(x) * exp(y). */
  ghost predicate ExpAdditive(m: Elementary) {
    forall x: real, y: real {:trigger ExpOfSum(m, x, y)} :: ExpOfSum(m, x, y) == m.exp(x) * m.exp(y)
  }

  /** log is the inverse of exp on the positive reals. */
  ghost predicate ExpLog(m: Elementary) {
    forall x: real :: 0.0 < x ==> m.exp(m.log(x)) == x
  }

  /** log1p(x) is log(1 + x). */
  ghost predicate Log1pIsLogOfSuccessor(m: Elementary) {
    forall x: real :: m.log1p(x) == m.log(1.0 + x)
  }

  /** sqrt is non-negative on the non-negative reals. */
  ghost predicate SqrtNonNegative(m: Elementary) {
    forall x: real :: 0.0 <= x ==> 0.0 <= m.sqrt(x)
  }

  /** A product of two reals under the sign rule. */
  function Times(a: real, b: real): (r: real)
    ensures (0.0 < a && 0.0 < b) || (a < 0.0 && b < 0.0) ==> 0.0 < r
    ensures a == 0.0 || b == 0.0 ==> r == 0.0
  {
    a * b
  }

  /** A square is never negative, and is zero only at zero. */
  function Square(x: real): (r: real)
    ensures 0.0 <= r
    ensures r == 0.0 <==> x == 0.0
  {
    Times(x, x)
  }

  /** sqrt squares back to its argument on the non-negative reals. */
  ghost predicate SqrtSquare(m: Elementary) {
    forall x: real :: 0.0 <= x ==> Square(m.sqrt(x)) == x
  }

  /** Under the axioms, exp of a non-positive number is at most 1. */
  lemma ExpNonPositive(m: Elementary, x: real)
    requires ExpZero(m) && ExpMonotone(m)
    requires x <= 0.0
    ensures m.exp(x) <= 1.0
  {
    assert m.exp(x) <= m.exp(0.0);
  }

  /** Under the axioms, exp of a negative number is below 1. */
  lemma ExpNegative(m: Elementary, x: real)
    requires ExpZero(m) && ExpStrictlyIncreasing(m)
    requires x < 0.0
    ensures m.exp(x) < 1.0
  {
    assert m.exp(x) < m.exp(0.0);
  }

  lemma ExpAdd(m: Elementary, x: real, y: real)
    requires ExpAdditive(m)
    ensures m.exp(x + y) == m.exp(x) * m.exp(y)
  {
    assert ExpOfSum(m, x, y) == m.exp(x) * m.exp(y);
  }

  /** exp(log1p(x)) = 1 + x when 1 + x is positive. */
  lemma ExpLog1p(m: Elementary, x: real)
    requires ExpLog(m) && Log1pIsLogOfSuccessor(m)
    requires -1.0 < x
    ensures m.exp(m.log1p(x)) == 1.0 + x
  {
  }
}
