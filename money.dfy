/**
 * Money arithmetic shared by the calculator and the test-data validator.
 * Amounts are exact reals; the program's floating-point drift is not modelled.
 */
module Money {

  /** The dead zone of the settlement: balances within one cent of zero count as settled. */
  const CENT: real := 0.01

  /** An amount that is a whole number of cents. */
  predicate IsCents(x: real)
  {
    (x * 100.0).Floor as real == x * 100.0
  }

  /**
   * `Math.round(x * 100) / 100`. JavaScript's Math.round rounds a half up
   * (toward +infinity), so -0.005 rounds to 0 and 0.005 rounds to 0.01.
   * The result is the unique whole number of cents in (x - 1/200, x + 1/200].
   */
  function Round2(x: real): (r: real)
    ensures IsCents(r)
    ensures x - 0.005 < r <= x + 0.005
  {
    (x * 100.0 + 0.5).Floor as real / 100.0
  }

  function Min(a: real, b: real): real
  {
    if a <= b then a else b
  }

  function Abs(x: real): real
  {
    if x < 0.0 then -x else x
  }

  /** Rounding leaves a whole number of cents unchanged. */
  lemma Round2OfCents(x: real)
    requires IsCents(x)
    ensures Round2(x) == x
  {
    var n := (x * 100.0).Floor;
    assert x * 100.0 + 0.5 == n as real + 0.5;
    assert (x * 100.0 + 0.5).Floor == n;
  }

  /** The rounded value is the only whole number of cents in (x - 1/200, x + 1/200]. */
  lemma Round2Unique(x: real, r: real)
    requires IsCents(r) && x - 0.005 < r <= x + 0.005
    ensures Round2(x) == r
  {
    var a, b := (r * 100.0).Floor, (Round2(x) * 100.0).Floor;
    assert -1.0 < (a - b) as real < 1.0;
  }

  /** Rounding is monotone. */
  lemma Round2Monotone(x: real, y: real)
    requires x <= y
    ensures Round2(x) <= Round2(y)
  {
    var u, v := x * 100.0 + 0.5, y * 100.0 + 0.5;
    assert u <= v;
    assert u.Floor as real <= u && v < v.Floor as real + 1.0;
    assert u.Floor <= v.Floor;
  }

  /** A non-negative whole number of cents below one cent is zero. */
  lemma CentsBelowCentIsZero(x: real)
    requires IsCents(x) && 0.0 <= x < CENT
    ensures x == 0.0
  {
    var n := (x * 100.0).Floor;
    assert 0.0 <= n as real < 1.0;
  }

  /** Whole numbers of cents are closed under subtraction. */
  lemma CentsSub(x: real, y: real)
    requires IsCents(x) && IsCents(y)
    ensures IsCents(x - y)
  {
    var a, b := (x * 100.0).Floor, (y * 100.0).Floor;
    assert (x - y) * 100.0 == (a - b) as real;
  }
}
