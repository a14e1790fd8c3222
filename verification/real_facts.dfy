/** Facts about products and quotients of reals, each stated over plain
    variables so that the solver meets one non-linear step at a time. */
module RealFacts {

  /** Multiplying by a non-negative factor preserves `<=`. */
  lemma MulLeRight(a: real, b: real, c: real)
    requires a <= b && 0.0 <= c
    ensures a * c <= b * c
  {}

  /** A product of two pairs of ordered non-negative reals is ordered. */
  lemma MulLeBoth(a: real, b: real, c: real, d: real)
    requires 0.0 <= a <= b && 0.0 <= c <= d
    ensures a * c <= b * d
  {
    MulLeRight(a, b, c);
    MulLeRight(c, d, b);
  }

  /** A product of two positive reals is positive. */
  lemma MulPos(a: real, b: real)
    requires 0.0 < a && 0.0 < b
    ensures 0.0 < a * b
  {}

  /** A product of two non-negative reals is non-negative. */
  lemma MulNonNeg(a: real, b: real)
    requires 0.0 <= a && 0.0 <= b
    ensures 0.0 <= a * b
  {}

  /** A positive factor can be cancelled from both sides of `<=`. */
  lemma MulLeCancel(c: real, a: real, b: real)
    requires 0.0 < c
    ensures c * a <= c * b <==> a <= b
  {
    if a <= b {
      MulLeRight(a, b, c);
    } else {
      MulLeRight(b, a, c);
      assert c * a != c * b;
    }
  }

  /** Scaling one operand of a product scales the product. */
  lemma ScaleFactor(k: real, a: real, a': real, c: real, c': real)
    requires a' == k * a && c' == c
    ensures a' * c' == k * (a * c)
  {}

  /** Scaling the first operand of a three-way product scales the product. */
  lemma ScaleProduct(k: real, a: real, a': real, b: real, b': real, c: real, c': real)
    requires a' == k * a && b' == b && c' == c
    ensures a' * b' * c' == k * (a * b * c)
  {}

  /** A factor on the dividend can be pulled out of a quotient. */
  lemma ScaleQuotient(k: real, x: real, d: real)
    requires d != 0.0
    ensures (k * x) / d == k * (x / d)
  {}

  /** Dividing a non-negative amount by a divisor between one and ten gives
      at most the amount and at least a tenth of it. */
  lemma QuotientBounds(x: real, d: real)
    requires 0.0 <= x && 1.0 <= d <= 10.0
    ensures x / 10.0 <= x / d <= x
  {
    var q := x / d;
    assert q * d == x;
    assert 0.0 <= q;
    MulLeRight(1.0, d, q);
    assert q <= x;
    MulLeRight(d, 10.0, q);
    assert x <= 10.0 * q;
  }

  /** Two three-way products that share their first two operands can swap
      their last operands across a further factor. */
  lemma SwapLast(a: real, b: real, s: real, q: real, c: real)
    ensures ((a * b * q) * c) * s == ((a * b * s) * c) * q
  {}
}
