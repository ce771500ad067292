/** Facts about products and quotients of reals, each stated over variables so
    that the solver meets every product term up front. */
module RealArith {

  lemma ProductPositive(a: real, b: real, m: real)
    requires a > 0.0 && b > 0.0 && m == a * b
    ensures m > 0.0
  {
  }

  lemma ProductNonNegative(a: real, b: real, m: real)
    requires a >= 0.0 && b >= 0.0 && m == a * b
    ensures m >= 0.0
  {
  }

  /** A square is non-negative and vanishes only at zero. */
  lemma SquareFacts(d: real, m: real)
    requires m == d * d
    ensures m >= 0.0
    ensures m == 0.0 <==> d == 0.0
  {
    if d > 0.0 {
      ProductPositive(d, d, m);
    } else if d < 0.0 {
      ProductPositive(-d, -d, m);
    }
  }

  /** Dividing by a positive number keeps the sign and zero. */
  lemma QuotientFacts(m: real, e: real, t: real)
    requires e > 0.0 && t == m / e
    ensures m >= 0.0 ==> t >= 0.0
    ensures m > 0.0 ==> t > 0.0
    ensures t == 0.0 <==> m == 0.0
  {
    assert t * e == m;
    if t < 0.0 {
      assert t * e < 0.0;
    } else if t > 0.0 {
      assert t * e > 0.0;
    }
  }

  /** Multiplying a non-negative number by n >= 1 does not make it smaller. */
  lemma ScaleUp(p: real, n: real, m: real)
    requires p >= 0.0 && n >= 1.0 && m == p * n
    ensures p <= m
  {
    var k := p * (n - 1.0);
    ProductNonNegative(p, n - 1.0, k);
    assert m == p + k;
  }

  /** Dividing a non-negative number by n >= 1 does not make it larger. */
  lemma ScaleDown(a: real, n: real, q: real)
    requires a >= 0.0 && n >= 1.0 && q == a / n
    ensures 0.0 <= q <= a
  {
    QuotientFacts(a, n, q);
    var k := q * (n - 1.0);
    ProductNonNegative(q, n - 1.0, k);
    assert q * n == a;
    assert a == q + k;
  }
}
