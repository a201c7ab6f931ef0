/** Products and quotients of reals by name, so that facts about them are used as facts about functions. */
module RealAlgebra {
  function Times(a: real, b: real): real {
    a * b
  }

  function Square(a: real): real {
    Times(a, a)
  }

  function Ratio(x: real, y: real): real
    requires y != 0.0
  {
    x / y
  }

  lemma TimesCommutes(a: real, b: real)
    ensures Times(a, b) == Times(b, a)
  {
  }

  lemma TimesDistributes(a: real, b: real, y: real)
    ensures Times(a + b, y) == Times(a, y) + Times(b, y)
    ensures Times(a - b, y) == Times(a, y) - Times(b, y)
  {
  }

  lemma TimesPositive(a: real, b: real)
    requires a > 0.0 && b > 0.0
    ensures Times(a, b) > 0.0
  {
  }

  lemma TimesNonNegative(a: real, b: real)
    requires a >= 0.0 && b >= 0.0
    ensures Times(a, b) >= 0.0
  {
  }

  lemma TimesNonZero(a: real, b: real)
    requires a != 0.0 && b != 0.0
    ensures Times(a, b) != 0.0
  {
  }

  lemma SquareNonNegative(a: real)
    ensures Square(a) >= 0.0 && Square(-a) == Square(a)
  {
  }

  lemma TimesMonotone(a: real, b: real, c: real)
    requires a <= b && c >= 0.0
    ensures Times(a, c) <= Times(b, c)
  {
    TimesNonNegative(b - a, c);
    TimesDistributes(b, a, c);
  }

  lemma SquareGrows(a: real, b: real)
    requires 0.0 <= a < b
    ensures Square(a) < Square(b)
  {
    TimesPositive(b - a, b + a);
    assert Times(b - a, b + a) == Square(b) - Square(a);
  }

  lemma AbsoluteBound(x: real, y: real)
    requires y >= 0.0 && Square(x) <= Square(y)
    ensures -y <= x <= y
  {
    SquareNonNegative(x);
    if x > y {
      SquareGrows(y, x);
    } else if x < -y {
      SquareGrows(y, -x);
    }
  }

  lemma SquareOfTimes(a: real, b: real)
    ensures Square(Times(a, b)) == Times(Square(a), Square(b))
  {
  }

  /** A positive factor keeps the sign. */
  lemma SignOfTimes(q: real, y: real)
    requires y > 0.0
    ensures (Times(q, y) > 0.0 <==> q > 0.0) && (Times(q, y) < 0.0 <==> q < 0.0)
  {
    if q > 0.0 {
      TimesPositive(q, y);
    } else if q < 0.0 {
      TimesPositive(-q, y);
      assert Times(-q, y) == -Times(q, y);
    }
  }

  lemma RatioTimes(x: real, y: real)
    requires y != 0.0
    ensures Times(Ratio(x, y), y) == x
  {
  }

  lemma RatioCompares(x: real, y: real, c: real)
    requires y > 0.0
    ensures (Ratio(x, y) > c <==> x > Times(c, y)) && (Ratio(x, y) < c <==> x < Times(c, y))
  {
    RatioTimes(x, y);
    SignOfTimes(Ratio(x, y) - c, y);
    TimesDistributes(Ratio(x, y), c, y);
  }

  ghost predicate IsSquareRoot(sqrt: real -> real) {
    forall x: real :: x >= 0.0 ==> sqrt(x) >= 0.0 && Square(sqrt(x)) == x
  }
}
