/** Facts about real multiplication and division, each proved on its own.
    Products are passed in as a separate value `p` so that callers reason
    about them linearly. */
module RealFacts {
  function Abs(x: real): (r: real)
    ensures r >= 0.0 && (r == x || r == -x)
  {
    if x < 0.0 then -x else x
  }

  lemma MulPos(a: real, b: real, p: real)
    requires p == a * b && a > 0.0 && b > 0.0
    ensures p > 0.0
  {
  }

  lemma NegSquare(e: real)
    ensures (-e) * (-e) == e * e
  {
  }

  /** A non-zero number has a positive square. */
  lemma PosSquare(e: real, s: real)
    requires s == e * e && e != 0.0
    ensures s > 0.0
  {
    if e > 0.0 {
      MulPos(e, e, s);
    } else {
      NegSquare(e);
      MulPos(-e, -e, s);
    }
  }

  lemma SquareNonNeg(e: real, s: real)
    requires s == e * e
    ensures s >= 0.0
  {
    if e == 0.0 {
      assert s == 0.0 * 0.0;
    } else {
      PosSquare(e, s);
    }
  }

  /** A square plus something non-negative is zero only when both are. */
  lemma SquarePlusZero(e: real, s: real, rest: real)
    requires s == e * e && rest >= 0.0
    ensures s + rest == 0.0 <==> e == 0.0 && rest == 0.0
  {
    if e == 0.0 {
      assert s == 0.0 * 0.0;
    } else {
      PosSquare(e, s);
    }
  }

  /** A non-negative root of m is zero exactly when m is. */
  lemma RootZero(r: real, m: real)
    requires r >= 0.0 && r * r == m
    ensures r == 0.0 <==> m == 0.0
  {
    if r == 0.0 {
      assert m == 0.0 * 0.0;
    } else {
      PosSquare(r, m);
    }
  }

  lemma QuotientSign(x: real, n: real)
    requires x >= 0.0 && n > 0.0
    ensures x / n >= 0.0
    ensures x / n == 0.0 <==> x == 0.0
  {
    assert x / n * n == x;
  }

  lemma NegQuotient(a: real, b: real)
    requires b != 0.0
    ensures (-a) / b == -(a / b) && a / (-b) == -(a / b)
  {
  }

  /** |a / b| = |a| / |b|. */
  lemma AbsQuotient(a: real, b: real)
    requires b != 0.0
    ensures Abs(a / b) == Abs(a) / Abs(b)
  {
    NegQuotient(a, b);
    NegQuotient(-a, b);
    if a >= 0.0 && b > 0.0 {
      QuotientSign(a, b);
    } else if a < 0.0 && b > 0.0 {
      QuotientSign(-a, b);
    } else if a >= 0.0 {
      QuotientSign(a, -b);
    } else {
      QuotientSign(-a, -b);
      assert (-a) / (-b) == a / b;
    }
  }
}
