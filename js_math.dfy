/**
 * The two pieces of JavaScript number arithmetic the price code relies on:
 * the power `10 ** n` for a natural exponent, and `Math.round`.
 * Numbers are taken as exact reals; see README for what that leaves out.
 */
module JsMath {

  /** `10 ** n` for a natural exponent `n`. */
  function Pow10(n: nat): (r: int)
    ensures r >= 1
    ensures n > 0 ==> r >= 10
  {
    if n == 0 then 1 else 10 * Pow10(n - 1)
  }

  /** Powers of ten multiply by adding exponents. */
  lemma {:induction false} Pow10Add(a: nat, b: nat)
    ensures Pow10(a + b) == Pow10(a) * Pow10(b)
  {
    if a > 0 {
      Pow10Add(a - 1, b);
      var x, y := Pow10(a - 1), Pow10(b);
      assert Pow10(a + b) == 10 * (x * y);
      assert Pow10(a) == 10 * x;
      assert 10 * (x * y) == (10 * x) * y;
    }
  }

  /** `Math.round(x)`: the nearest integer, a tie going toward +infinity. */
  function Round(x: real): (r: int)
    ensures x - 0.5 < r as real <= x + 0.5
  {
    (x + 0.5).Floor
  }

  /** The nearest-integer window determines `Math.round` uniquely. */
  lemma RoundUnique(x: real, n: int)
    requires x - 0.5 < n as real <= x + 0.5
    ensures Round(x) == n
  {
    var r := Round(x);
    assert r as real - n as real < 1.0 && n as real - r as real < 1.0;
  }

  /** `Math.round` of an integer is that integer. */
  lemma RoundOfInteger(n: int)
    ensures Round(n as real) == n
  {
    RoundUnique(n as real, n);
  }

  /** `Math.round` never reverses the order of its arguments. */
  lemma RoundMonotone(x: real, y: real)
    requires x <= y
    ensures Round(x) <= Round(y)
  {
    assert (x + 0.5).Floor <= (y + 0.5).Floor;
  }

  // Facts about real multiplication and division, each stated over plain
  // variables so that the solver sees nothing else when proving them.

  lemma DivMulCancel(x: real, c: real)
    requires c != 0.0
    ensures x / c * c == x
  {
  }

  lemma MulNonzero(x: real, y: real)
    requires x != 0.0 && y != 0.0
    ensures x * y != 0.0
  {
  }

  /** The sign of `x / c` is the sign of `x` when `c` is positive. */
  lemma DivSign(x: real, c: real)
    requires c > 0.0
    ensures x / c > 0.0 <==> x > 0.0
    ensures x / c < 0.0 <==> x < 0.0
    ensures x / c == 0.0 <==> x == 0.0
  {
  }

  lemma MulLeft(x: real, y: real, c: real)
    requires x <= y && c >= 0.0
    ensures x * c <= y * c
  {
  }

  lemma DivLeft(x: real, y: real, c: real)
    requires x <= y && c > 0.0
    ensures x / c <= y / c
  {
  }

  /** Two reals with the same nonzero multiple are equal. */
  lemma MulInjective(x: real, y: real, c: real)
    requires c != 0.0 && x * c == y * c
    ensures x == y
  {
  }

  /** `r * c == x` with `c` nonzero determines `r` as `x / c`. */
  lemma SolveFactor(r: real, x: real, c: real)
    requires c != 0.0 && r * c == x
    ensures r == x / c
  {
    DivMulCancel(x, c);
    MulInjective(r, x / c, c);
  }

  /** Multiplying by `b` and then by `a` is multiplying by `c == a * b`. */
  lemma MulThenMul(p: real, a: real, b: real, c: real)
    requires c == a * b
    ensures p * b * a == p * c
  {
  }

  /** Dividing by `b` and then multiplying by `a == c * b` is multiplying by `c`. */
  lemma DivThenMul(p: real, a: real, b: real, c: real)
    requires b != 0.0 && a == c * b
    ensures p / b * a == p * c
  {
    DivMulCancel(p, b);
    assert p / b * (c * b) == (p / b * b) * c;
  }

  /**
   * If `s` is `p` moved from weight `a` to `b`, `t` is `s` moved from `b` to `c`
   * and `u` is `p` moved from `a` to `c`, then `t == u`.
   */
  lemma ChainOfWeights(p: real, s: real, t: real, u: real, a: real, b: real, c: real)
    requires a != 0.0 && b != 0.0
    requires s * a == p * b && t * b == s * c && u * a == p * c
    ensures t == u
  {
    assert t * b * a == s * a * c;
    assert u * a * b == p * c * b;
    assert s * a * c == p * b * c;
    MulNonzero(a, b);
    assert t * (a * b) == u * (a * b);
    MulInjective(t, u, a * b);
  }

  /** If `r` weighs `x` at weight `b` where `v` weighs it at weight 1, then `r == v * b`. */
  lemma Reweigh(r: real, v: real, x: real, a: real, b: real)
    requires a != 0.0 && r * a == x * b && v * a == x
    ensures r == v * b
  {
    assert (v * b) * a == (v * a) * b;
    MulInjective(r, v * b, a);
  }

  /** Dividing by a nonzero `c` undoes multiplying by it. */
  lemma MulDivCancel(x: real, c: real)
    requires c != 0.0
    ensures x * c / c == x
  {
    DivMulCancel(x * c, c);
    MulInjective(x * c / c, x, c);
  }

  /** Dividing by a quotient multiplies by its denominator. */
  lemma DivByQuotient(e: real, b: real, q: real)
    requires b != 0.0 && q != 0.0
    ensures b / q != 0.0
    ensures e / (b / q) == e * q / b
  {
    DivMulCancel(b, q);
    var t := b / q;
    assert t != 0.0;
    DivMulCancel(e, t);
    DivMulCancel(e * q, b);
    assert e / t * b == e / t * (t * q);
    assert e / t * b == e * q;
    MulInjective(e / t, e * q / b, b);
  }

  /** The cast from `int` to `real` respects multiplication. */
  lemma CastMul(x: int, y: int)
    ensures (x * y) as real == x as real * y as real
  {
  }

  /** Multiplying by a positive `c` keeps the sign. */
  lemma MulPositiveSign(x: real, c: real)
    requires c > 0.0
    ensures x * c > 0.0 <==> x > 0.0
    ensures x * c < 0.0 <==> x < 0.0
    ensures x * c == 0.0 <==> x == 0.0
  {
  }

  /** A quotient is positive exactly when its operands have the same sign. */
  lemma QuotientSign(x: real, y: real)
    requires y != 0.0
    ensures x / y > 0.0 <==> (x > 0.0 && y > 0.0) || (x < 0.0 && y < 0.0)
    ensures x / y == 0.0 <==> x == 0.0
  {
    DivMulCancel(x, y);
  }

  /** Multiplying and dividing commute. */
  lemma MulDivSwap(x: real, c: real, y: real)
    requires y != 0.0
    ensures x * c / y == x / y * c
  {
    DivMulCancel(x * c, y);
    DivMulCancel(x, y);
    assert x / y * c * y == (x / y * y) * c;
    MulInjective(x * c / y, x / y * c, y);
  }

  /** The powers of ten the price code uses. */
  lemma Pow10Values()
    ensures Pow10(0) == 1
    ensures Pow10(2) == 100
    ensures Pow10(6) == 1000000
    ensures Pow10(8) == 100000000
    ensures Pow10(10) == 10000000000
    ensures Pow10(18) == 1000000000000000000
  {
    assert Pow10(1) == 10;
    assert Pow10(2) == 100;
    assert Pow10(4) == 10000;
    assert Pow10(6) == 1000000;
    assert Pow10(8) == 100000000;
    assert Pow10(10) == 10000000000;
    assert Pow10(12) == 1000000000000;
    assert Pow10(14) == 100000000000000;
    assert Pow10(16) == 10000000000000000;
  }

  /** A common nonzero factor cancels from a quotient. */
  lemma DivCancel(x: real, y: real, c: real)
    requires y != 0.0 && c != 0.0
    ensures y * c != 0.0
    ensures (x * c) / (y * c) == x / y
  {
    MulNonzero(y, c);
    DivMulCancel(x * c, y * c);
    DivMulCancel(x, y);
    assert (x / y) * (y * c) == (x / y * y) * c;
    MulInjective((x * c) / (y * c), x / y, y * c);
  }

  /**
   * `w` at weight `c == a * b` and `v` at weight `a` stand for the same
   * quantity when the weighted values differ by the factor `b`: `w == v`.
   */
  lemma CancelCommon(w: real, v: real, x: real, y: real, a: real, b: real, c: real)
    requires a != 0.0 && b != 0.0
    requires w * c == y && c == a * b && y == x * b && v * a == x
    ensures w == v
  {
    assert (w * a) * b == (v * a) * b;
    MulInjective(w * a, v * a, b);
    MulInjective(w, v, a);
  }

  /** A multiple `d == x * s` divided by `s` gives `x` back. */
  lemma Unscale(d: real, x: real, s: real)
    requires s != 0.0 && d == x * s
    ensures d / s == x
  {
    MulDivCancel(x, s);
  }
}
