/** The cosine of two embedding vectors, over real arithmetic. The square root is a parameter. */
module VectorSimilarity {
  import opened RealAlgebra
  import opened CauchySchwarz

  function Dot(a: seq<real>, b: seq<real>): real
    requires |a| == |b|
  {
    if a == [] then 0.0 else Dot(a[1..], b[1..]) + Times(a[0], b[0])
  }

  lemma {:induction false} DotBounded(a: seq<real>, b: seq<real>)
    requires |a| == |b|
    ensures Bounded(Dot(a, b), Dot(a, a), Dot(b, b))
    decreases |a|
  {
    if a != [] {
      DotBounded(a[1..], b[1..]);
      Extend(Dot(a[1..], b[1..]), Dot(a[1..], a[1..]), Dot(b[1..], b[1..]), a[0], b[0]);
    }
  }

  function Shared(left: seq<real>, right: seq<real>): nat {
    if |left| <= |right| then |left| else |right|
  }

  /** The score of two vectors, over the coordinates they share; 0 when either has no length there. */
  function CosineSimilarity(left: seq<real>, right: seq<real>, sqrt: real -> real): real {
    if left == [] || right == [] then 0.0 else
      var l, r := left[..Shared(left, right)], right[..Shared(left, right)];
      var leftNorm, rightNorm := sqrt(Dot(l, l)), sqrt(Dot(r, r));
      if leftNorm == 0.0 || rightNorm == 0.0 then 0.0 else
        TimesNonZero(leftNorm, rightNorm);
        Ratio(Dot(l, r), Times(leftNorm, rightNorm))
  }

  /** Whatever the vectors and their lengths, the score is one a retrieved chunk may carry. */
  lemma ScoreWithinRange(left: seq<real>, right: seq<real>, sqrt: real -> real)
    requires IsSquareRoot(sqrt)
    ensures -1.0 <= CosineSimilarity(left, right, sqrt) <= 1.0
  {
    if left != [] && right != [] {
      var l, r := left[..Shared(left, right)], right[..Shared(left, right)];
      DotBounded(l, r);
      var m, n := sqrt(Dot(l, l)), sqrt(Dot(r, r));
      if m != 0.0 && n != 0.0 {
        NormalisedBound(Dot(l, r), m, n);
      }
    }
  }

  /** A vector that is not zero has the highest score against itself. */
  lemma SelfScore(v: seq<real>, sqrt: real -> real)
    requires IsSquareRoot(sqrt) && Dot(v, v) > 0.0
    ensures CosineSimilarity(v, v, sqrt) == 1.0
  {
    assert v[..|v|] == v;
    var n := sqrt(Dot(v, v));
    assert Square(n) == Dot(v, v);
    RatioCompares(Dot(v, v), Times(n, n), 1.0);
  }

  function Negated(v: seq<real>): (r: seq<real>)
    ensures |r| == |v|
  {
    if v == [] then [] else [-v[0]] + Negated(v[1..])
  }

  lemma {:induction false} DotNegated(a: seq<real>, b: seq<real>)
    requires |a| == |b|
    ensures Dot(a, Negated(b)) == -Dot(a, b) && Dot(Negated(b), Negated(b)) == Dot(b, b)
    decreases |a|
  {
    if a != [] {
      DotNegated(a[1..], b[1..]);
      var n := Negated(b);
      assert n[0] == -b[0] && n[1..] == Negated(b[1..]);
      assert Times(a[0], -b[0]) == -Times(a[0], b[0]) && Times(-b[0], -b[0]) == Times(b[0], b[0]);
    }
  }

  /** Turning a vector round turns its score round: the opposite of a vector has the lowest score against it. */
  lemma OppositeScore(left: seq<real>, right: seq<real>, sqrt: real -> real)
    requires |left| == |right| && IsSquareRoot(sqrt)
    ensures CosineSimilarity(left, Negated(right), sqrt) == -CosineSimilarity(left, right, sqrt)
    ensures Dot(left, left) > 0.0 ==> CosineSimilarity(left, Negated(left), sqrt) == -1.0
  {
    OppositeOfEqualLength(left, right, sqrt);
    OppositeOfEqualLength(left, left, sqrt);
    if Dot(left, left) > 0.0 {
      SelfScore(left, sqrt);
    }
  }

  /** A product of two vectors divided by their lengths. */
  function Normalised(dot: real, m: real, n: real): real {
    if m == 0.0 || n == 0.0 then 0.0 else
      TimesNonZero(m, n);
      Ratio(dot, Times(m, n))
  }

  lemma ScoreOfEqualLength(left: seq<real>, right: seq<real>, sqrt: real -> real)
    requires |left| == |right| > 0
    ensures CosineSimilarity(left, right, sqrt) == Normalised(Dot(left, right), sqrt(Dot(left, left)), sqrt(Dot(right, right)))
  {
    assert left[..|left|] == left && right[..|right|] == right;
  }

  lemma OppositeOfEqualLength(left: seq<real>, right: seq<real>, sqrt: real -> real)
    requires |left| == |right|
    ensures CosineSimilarity(left, Negated(right), sqrt) == -CosineSimilarity(left, right, sqrt)
  {
    if left != [] {
      DotNegated(left, right);
      DotNegated(right, right);
      ScoreOfEqualLength(left, right, sqrt);
      ScoreOfEqualLength(left, Negated(right), sqrt);
      NormalisedNegated(Dot(left, right), Dot(left, Negated(right)), sqrt(Dot(left, left)),
                        sqrt(Dot(right, right)), sqrt(Dot(Negated(right), Negated(right))));
    }
  }

  lemma NormalisedNegated(dot: real, opposite: real, m: real, n: real, n': real)
    requires opposite == -dot && n' == n
    ensures Normalised(opposite, m, n') == -Normalised(dot, m, n)
  {
    if m != 0.0 && n != 0.0 {
      TimesNonZero(m, n);
      NegatedRatio(dot, Times(m, n));
    }
  }

  lemma NegatedRatio(x: real, y: real)
    requires y != 0.0
    ensures Ratio(-x, y) == -Ratio(x, y)
  {
  }

  /** The score is the cosine: times the lengths of the two vectors it is their product. */
  lemma ScoreIsCosine(left: seq<real>, right: seq<real>, sqrt: real -> real) returns (m: real, n: real)
    requires |left| == |right| && IsSquareRoot(sqrt) && Dot(left, left) > 0.0 && Dot(right, right) > 0.0
    ensures m > 0.0 && n > 0.0 && m * m == Dot(left, left) && n * n == Dot(right, right)
    ensures Times(CosineSimilarity(left, right, sqrt), Times(m, n)) == Dot(left, right)
  {
    assert left[..|left|] == left && right[..|right|] == right;
    m, n := sqrt(Dot(left, left)), sqrt(Dot(right, right));
    assert Square(m) == Dot(left, left) && Square(n) == Dot(right, right);
    RootPositive(m);
    RootPositive(n);
    TimesNonZero(m, n);
    RatioTimes(Dot(left, right), Times(m, n));
  }

  lemma RootPositive(m: real)
    requires m >= 0.0 && Square(m) > 0.0
    ensures m > 0.0
  {
    assert Square(0.0) == 0.0;
  }
}
