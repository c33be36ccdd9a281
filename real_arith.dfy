/** Facts about products of reals that the solver does not find alone. */
module RealArith {

  lemma MulNonNeg(a: real, b: real)
    requires 0.0 <= a && 0.0 <= b
    ensures 0.0 <= a * b
  {
  }

  lemma MulStrict(a: real, b: real, c: real)
    requires a < b && 0.0 < c
    ensures a * c < b * c
  {
  }

  lemma SquareNonNeg(a: real)
    ensures 0.0 <= a * a
  {
    if a < 0.0 {
      MulNonNeg(-a, -a);
    } else {
      MulNonNeg(a, a);
    }
  }

  lemma MulMono(a: real, b: real, c: real, d: real)
    requires 0.0 <= a <= c && 0.0 <= b <= d
    ensures a * b <= c * d
  {
    assert a * b <= c * b;
    assert c * b <= c * d;
  }

  /** Comparing two distances is comparing their squares. */
  lemma CloserIffSquared(d1: real, d2: real)
    requires 0.0 <= d1 && 0.0 <= d2
    ensures d1 < d2 <==> d1 * d1 < d2 * d2
  {
    if d1 < d2 {
      MulStrict(d1, d2, d1 + d2);
      assert (d1 + d2) * (d2 - d1) == d2 * d2 - d1 * d1;
    } else {
      MulMono(d2, d2, d1, d1);
    }
  }
}
