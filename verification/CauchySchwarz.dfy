/** One step of the Cauchy-Schwarz inequality, and what it says about a normalised sum of products. */
module CauchySchwarz {
  import opened RealAlgebra

  /** A sum of products against the two sums of squares. */
  ghost predicate Bounded(dot: real, a: real, b: real) {
    a >= 0.0 && b >= 0.0 && Square(dot) <= Times(a, b)
  }

  lemma TwiceAtMostSum(z: real, p: real, q: real)
    requires p >= 0.0 && q >= 0.0 && Square(z) <= Times(p, q)
    ensures 2.0 * z <= p + q
  {
    SquareNonNegative(p - q);
    assert Square(p + q) == 4.0 * Times(p, q) + Square(p - q);
    assert Square(2.0 * z) == 4.0 * Square(z);
    AbsoluteBound(2.0 * z, p + q);
  }

  lemma CrossTerms(d: real, a: real, b: real, x: real, y: real)
    ensures Square(Times(d, Times(x, y))) == Times(Square(d), Square(Times(x, y)))
    ensures Times(Times(a, Square(y)), Times(b, Square(x))) == Times(Times(a, b), Square(Times(x, y)))
  {
  }

  lemma ExpandSquare(d: real, x: real, y: real)
    ensures Square(d + Times(x, y)) == Square(d) + 2.0 * Times(d, Times(x, y)) + Square(Times(x, y))
  {
  }

  lemma ExpandProduct(a: real, b: real, x: real, y: real)
    ensures Times(a + Square(x), b + Square(y))
         == Times(a, b) + Times(a, Square(y)) + Times(b, Square(x)) + Square(Times(x, y))
  {
  }

  /** One more coordinate keeps the inequality. */
  lemma Extend(d: real, a: real, b: real, x: real, y: real)
    requires Bounded(d, a, b)
    ensures Bounded(d + Times(x, y), a + Square(x), b + Square(y))
  {
    var z, p, q := Times(d, Times(x, y)), Times(a, Square(y)), Times(b, Square(x));
    SquareNonNegative(x);
    SquareNonNegative(y);
    SquareNonNegative(Times(x, y));
    TimesNonNegative(a, Square(y));
    TimesNonNegative(b, Square(x));
    TimesMonotone(Square(d), Times(a, b), Square(Times(x, y)));
    CrossTerms(d, a, b, x, y);
    TwiceAtMostSum(z, p, q);
    ExpandSquare(d, x, y);
    ExpandProduct(a, b, x, y);
  }

  /** A bounded sum of products, divided by the two norms, lies within [-1, 1] and keeps its sign. */
  lemma NormalisedBound(dot: real, m: real, n: real)
    requires m > 0.0 && n > 0.0 && Bounded(dot, Square(m), Square(n))
    ensures Times(m, n) > 0.0
    ensures -1.0 <= Ratio(dot, Times(m, n)) <= 1.0
    ensures Ratio(dot, Times(m, n)) > 0.0 <==> dot > 0.0
    ensures Ratio(dot, Times(m, n)) < 0.0 <==> dot < 0.0
  {
    var y := Times(m, n);
    TimesPositive(m, n);
    SquareOfTimes(m, n);
    AbsoluteBound(dot, y);
    RatioCompares(dot, y, 1.0);
    RatioCompares(dot, y, -1.0);
    RatioCompares(dot, y, 0.0);
    assert Times(1.0, y) == y && Times(-1.0, y) == -y && Times(0.0, y) == 0.0;
  }
}
