/** The idf-weighted cosine of two token counts, over real arithmetic. Square root and logarithm are parameters. */
module TokenSimilarity {
  import opened Sets
  import opened RealAlgebra
  import opened CauchySchwarz

  /** How often each token occurs; a token that does not occur is not a key. */
  type Counts = map<string, nat>

  ghost predicate IsCounter(c: Counts) {
    forall t :: t in c ==> c[t] > 0
  }

  ghost function Sum(tokens: set<string>, f: string -> real): real {
    if tokens == {} then 0.0 else
      var t :| t in tokens;
      f(t) + Sum(tokens - {t}, f)
  }

  lemma {:induction false} SumRemove(tokens: set<string>, f: string -> real, t: string)
    requires t in tokens
    ensures Sum(tokens, f) == f(t) + Sum(tokens - {t}, f)
    decreases |tokens|
  {
    var u :| u in tokens && Sum(tokens, f) == f(u) + Sum(tokens - {u}, f);
    if u != t {
      SumRemove(tokens - {u}, f, t);
      SumRemove(tokens - {t}, f, u);
      assert tokens - {u} - {t} == tokens - {t} - {u};
    }
  }

  /** A sum of nonnegative terms is nonnegative, and grows with the set. */
  lemma {:induction false} SumGrows(tokens: set<string>, more: set<string>, f: string -> real)
    requires tokens <= more && forall t :: t in more ==> f(t) >= 0.0
    ensures 0.0 <= Sum(tokens, f) <= Sum(more, f)
    decreases |more|
  {
    if more != {} {
      var t :| t in more;
      SumRemove(more, f, t);
      if t in tokens {
        SumRemove(tokens, f, t);
        SumGrows(tokens - {t}, more - {t}, f);
      } else {
        SumGrows(tokens, more - {t}, f);
      }
    }
  }

  lemma {:induction false} SumEqual(tokens: set<string>, f: string -> real, g: string -> real)
    requires forall t :: t in tokens ==> f(t) == g(t)
    ensures Sum(tokens, f) == Sum(tokens, g)
    decreases |tokens|
  {
    if tokens != {} {
      var t :| t in tokens;
      SumRemove(tokens, f, t);
      SumRemove(tokens, g, t);
      SumEqual(tokens - {t}, f, g);
    }
  }

  /**
   An induction principle for three sums taken together: what holds of (0, 0, 0) and is kept by adding the
   terms of any one token holds of the sums.
   */
  lemma {:induction false} SumsKeep(tokens: set<string>, p: string -> real, q: string -> real, r: string -> real,
                                    keeps: (real, real, real) -> bool)
    requires keeps(0.0, 0.0, 0.0)
    requires forall t, a, b, c :: t in tokens && keeps(a, b, c) ==> keeps(a + p(t), b + q(t), c + r(t))
    ensures keeps(Sum(tokens, p), Sum(tokens, q), Sum(tokens, r))
    decreases |tokens|
  {
    if tokens != {} {
      var t :| t in tokens;
      SumsKeep(tokens - {t}, p, q, r, keeps);
      SumRemove(tokens, p, t);
      SumRemove(tokens, q, t);
      SumRemove(tokens, r, t);
    }
  }

  function Product(f: string -> real, g: string -> real): string -> real {
    t => Times(f(t), g(t))
  }

  lemma SumBounded(tokens: set<string>, f: string -> real, g: string -> real)
    ensures Bounded(Sum(tokens, Product(f, g)), Sum(tokens, Product(f, f)), Sum(tokens, Product(g, g)))
  {
    var keeps := (a: real, b: real, c: real) => b >= 0.0 && c >= 0.0 && Square(a) <= Times(b, c);
    forall t, a, b, c | t in tokens && keeps(a, b, c)
      ensures keeps(a + Product(f, g)(t), b + Product(f, f)(t), c + Product(g, g)(t))
    {
      Extend(a, b, c, f(t), g(t));
    }
    SumsKeep(tokens, Product(f, g), Product(f, f), Product(g, g), keeps);
  }

  function Weight(idf: map<string, real>, t: string): real {
    if t in idf then idf[t] else 1.0
  }

  function CountOf(c: Counts, t: string): real {
    if t in c then c[t] as real else 0.0
  }

  /** A token's coordinate: its weighted count. */
  function Coordinate(c: Counts, idf: map<string, real>): string -> real {
    t => Times(CountOf(c, t), Weight(idf, t))
  }

  ghost function Norm(c: Counts, idf: map<string, real>, sqrt: real -> real): real {
    sqrt(Sum(c.Keys, Product(Coordinate(c, idf), Coordinate(c, idf))))
  }

  /** The term of a shared token: the product of its counts and the square of its weight. */
  function Term(left: Counts, right: Counts, idf: map<string, real>): string -> real {
    t => Times(Times(CountOf(left, t), CountOf(right, t)), Square(Weight(idf, t)))
  }

  ghost function Numerator(left: Counts, right: Counts, idf: map<string, real>): real {
    Sum(left.Keys * right.Keys, Term(left, right, idf))
  }

  ghost function Cosine(left: Counts, right: Counts, idf: map<string, real>, sqrt: real -> real): real {
    if left == map[] || right == map[] then 0.0 else
      var m, n := Norm(left, idf, sqrt), Norm(right, idf, sqrt);
      if m == 0.0 || n == 0.0 then 0.0 else
        TimesNonZero(m, n);
        Ratio(Numerator(left, right, idf), Times(m, n))
  }

  function KeywordOverlap(left: Counts, right: Counts): real {
    if |left.Keys| == 0 then 0.0 else Ratio(|left.Keys * right.Keys| as real, |left.Keys| as real)
  }

  ghost function Combined(query: Counts, chunk: Counts, idf: map<string, real>, sqrt: real -> real): real {
    Cosine(query, chunk, idf, sqrt) + 0.05 * KeywordOverlap(query, chunk)
  }

  lemma Rearrange(a: real, b: real, w: real)
    ensures Times(Times(a, b), Square(w)) == Times(Times(a, w), Times(b, w))
  {
  }

  lemma NumeratorIsProduct(left: Counts, right: Counts, idf: map<string, real>)
    ensures Numerator(left, right, idf)
         == Sum(left.Keys * right.Keys, Product(Coordinate(left, idf), Coordinate(right, idf)))
  {
    forall t ensures Term(left, right, idf)(t) == Product(Coordinate(left, idf), Coordinate(right, idf))(t) {
      Rearrange(CountOf(left, t), CountOf(right, t), Weight(idf, t));
    }
    SumEqual(left.Keys * right.Keys, Term(left, right, idf), Product(Coordinate(left, idf), Coordinate(right, idf)));
  }

  lemma SquaresNonNegative(f: string -> real)
    ensures forall t :: Product(f, f)(t) >= 0.0
  {
    forall t ensures Product(f, f)(t) >= 0.0 {
      SquareNonNegative(f(t));
    }
  }

  lemma BoundedGrows(d: real, a: real, b: real, a': real, b': real)
    requires Bounded(d, a, b) && a <= a' && b <= b'
    ensures Bounded(d, a', b')
  {
    TimesMonotone(a, a', b);
    TimesMonotone(b, b', a');
    TimesCommutes(a', b);
    TimesCommutes(b', a');
  }

  /** Only shared tokens count in the numerator, all tokens in the norms. */
  lemma NumeratorBounded(left: Counts, right: Counts, idf: map<string, real>)
    ensures Bounded(Numerator(left, right, idf),
                    Sum(left.Keys, Product(Coordinate(left, idf), Coordinate(left, idf))),
                    Sum(right.Keys, Product(Coordinate(right, idf), Coordinate(right, idf))))
  {
    var f, g := Coordinate(left, idf), Coordinate(right, idf);
    var common := left.Keys * right.Keys;
    NumeratorIsProduct(left, right, idf);
    SumBounded(common, f, g);
    SquaresNonNegative(f);
    SquaresNonNegative(g);
    SumGrows(common, left.Keys, Product(f, f));
    SumGrows(common, right.Keys, Product(g, g));
    BoundedGrows(Numerator(left, right, idf), Sum(common, Product(f, f)), Sum(common, Product(g, g)),
                 Sum(left.Keys, Product(f, f)), Sum(right.Keys, Product(g, g)));
  }

  ghost predicate PositiveWeights(idf: map<string, real>) {
    forall t :: t in idf ==> idf[t] > 0.0
  }

  lemma PositiveTerm(left: Counts, right: Counts, idf: map<string, real>, t: string)
    requires IsCounter(left) && IsCounter(right) && PositiveWeights(idf) && t in left.Keys * right.Keys
    ensures Term(left, right, idf)(t) > 0.0
  {
    var a, b, w := CountOf(left, t), CountOf(right, t), Weight(idf, t);
    assert a > 0.0 && b > 0.0 && w > 0.0;
    TimesPositive(w, w);
    TimesPositive(a, b);
    TimesPositive(Times(a, b), Square(w));
  }

  lemma NumeratorSign(left: Counts, right: Counts, idf: map<string, real>)
    requires IsCounter(left) && IsCounter(right) && PositiveWeights(idf)
    ensures Numerator(left, right, idf) >= 0.0
    ensures Numerator(left, right, idf) > 0.0 <==> left.Keys * right.Keys != {}
  {
    var common, term := left.Keys * right.Keys, Term(left, right, idf);
    forall t | t in common ensures term(t) > 0.0 {
      PositiveTerm(left, right, idf, t);
    }
    SumGrows({}, common, term);
    if common != {} {
      var t :| t in common;
      SumRemove(common, term, t);
      SumGrows({}, common - {t}, term);
    }
  }

  lemma NormPositive(c: Counts, idf: map<string, real>, sqrt: real -> real)
    requires IsCounter(c) && PositiveWeights(idf) && IsSquareRoot(sqrt) && c != map[]
    ensures Norm(c, idf, sqrt) > 0.0
    ensures Square(Norm(c, idf, sqrt)) == Sum(c.Keys, Product(Coordinate(c, idf), Coordinate(c, idf)))
  {
    NumeratorSign(c, c, idf);
    NumeratorIsProduct(c, c, idf);
    assert c.Keys * c.Keys == c.Keys;
    var k :| k in c;
    var x := Sum(c.Keys, Product(Coordinate(c, idf), Coordinate(c, idf)));
    assert x > 0.0 && Square(0.0) == 0.0;
  }

  /** The weighted cosine lies within [0, 1], and is positive exactly when the two share a token. */
  lemma CosineWithinRange(left: Counts, right: Counts, idf: map<string, real>, sqrt: real -> real)
    requires IsCounter(left) && IsCounter(right) && PositiveWeights(idf) && IsSquareRoot(sqrt)
    ensures 0.0 <= Cosine(left, right, idf, sqrt) <= 1.0
    ensures Cosine(left, right, idf, sqrt) > 0.0 <==> left.Keys * right.Keys != {}
  {
    if left != map[] && right != map[] {
      NormPositive(left, idf, sqrt);
      NormPositive(right, idf, sqrt);
      NumeratorBounded(left, right, idf);
      NumeratorSign(left, right, idf);
      NormalisedBound(Numerator(left, right, idf), Norm(left, idf, sqrt), Norm(right, idf, sqrt));
    }
  }

  /** The score a chunk is ranked by is at most 1.05, and positive exactly when it shares a token with the question. */
  lemma CombinedWithinRange(query: Counts, chunk: Counts, idf: map<string, real>, sqrt: real -> real)
    requires IsCounter(query) && IsCounter(chunk) && PositiveWeights(idf) && IsSquareRoot(sqrt)
    ensures 0.0 <= Combined(query, chunk, idf, sqrt) <= 1.05
    ensures Combined(query, chunk, idf, sqrt) > 0.0 <==> query.Keys * chunk.Keys != {}
  {
    CosineWithinRange(query, chunk, idf, sqrt);
    if |query.Keys| != 0 {
      SmallerSet(query.Keys * chunk.Keys, query.Keys);
      var n := |query.Keys| as real;
      RatioCompares(|query.Keys * chunk.Keys| as real, n, 0.0);
      RatioCompares(|query.Keys * chunk.Keys| as real, n, 1.0);
      assert Times(0.0, n) == 0.0 && Times(1.0, n) == n;
    }
  }

  /** A counter that is not empty is as similar to itself as can be. */
  lemma SelfCombined(c: Counts, idf: map<string, real>, sqrt: real -> real)
    requires IsCounter(c) && PositiveWeights(idf) && IsSquareRoot(sqrt) && c != map[]
    ensures Cosine(c, c, idf, sqrt) == 1.0 && Combined(c, c, idf, sqrt) == 1.05
  {
    NormPositive(c, idf, sqrt);
    NumeratorIsProduct(c, c, idf);
    assert c.Keys * c.Keys == c.Keys;
    var n := Norm(c, idf, sqrt);
    var k :| k in c;
    assert k in c.Keys;
    TimesPositive(n, n);
    RatioOfEqual(Times(n, n));
    RatioOfEqual(|c.Keys| as real);
  }

  lemma RatioOfEqual(x: real)
    requires x > 0.0
    ensures Ratio(x, x) == 1.0
  {
  }

  /**
   Times the two norms, the cosine is the sum of the weighted products of the counts over the shared tokens;
   times the number of the question's tokens, the overlap is the number of shared ones.
   */
  lemma CosineIsWeighted(query: Counts, chunk: Counts, idf: map<string, real>, sqrt: real -> real)
    requires IsCounter(query) && IsCounter(chunk) && PositiveWeights(idf) && IsSquareRoot(sqrt)
    requires query != map[] && chunk != map[]
    ensures Times(Cosine(query, chunk, idf, sqrt), Times(Norm(query, idf, sqrt), Norm(chunk, idf, sqrt)))
         == Sum(query.Keys * chunk.Keys, Product(Coordinate(query, idf), Coordinate(chunk, idf)))
    ensures Times(KeywordOverlap(query, chunk), |query.Keys| as real) == |query.Keys * chunk.Keys| as real
    ensures Combined(query, chunk, idf, sqrt) == Cosine(query, chunk, idf, sqrt) + 0.05 * KeywordOverlap(query, chunk)
  {
    CosineTimesNorms(query, chunk, idf, sqrt);
    OverlapTimesTokens(query, chunk);
  }

  lemma CosineTimesNorms(query: Counts, chunk: Counts, idf: map<string, real>, sqrt: real -> real)
    requires IsCounter(query) && IsCounter(chunk) && PositiveWeights(idf) && IsSquareRoot(sqrt)
    requires query != map[] && chunk != map[]
    ensures Times(Cosine(query, chunk, idf, sqrt), Times(Norm(query, idf, sqrt), Norm(chunk, idf, sqrt)))
         == Sum(query.Keys * chunk.Keys, Product(Coordinate(query, idf), Coordinate(chunk, idf)))
  {
    NormPositive(query, idf, sqrt);
    NormPositive(chunk, idf, sqrt);
    NumeratorIsProduct(query, chunk, idf);
    var m, n, sum := Norm(query, idf, sqrt), Norm(chunk, idf, sqrt), Numerator(query, chunk, idf);
    TimesNonZero(m, n);
    assert Cosine(query, chunk, idf, sqrt) == Ratio(sum, Times(m, n));
    RatioTimes(sum, Times(m, n));
  }

  lemma OverlapTimesTokens(query: Counts, chunk: Counts)
    requires query != map[]
    ensures Times(KeywordOverlap(query, chunk), |query.Keys| as real) == |query.Keys * chunk.Keys| as real
  {
    var k :| k in query;
    assert k in query.Keys;
    RatioTimes(|query.Keys * chunk.Keys| as real, |query.Keys| as real);
  }

  // ---- the weights --------------------------------------------------------------------------------

  /** In how many of the vectors a token occurs. */
  function Frequency(vectors: seq<Counts>, t: string): (n: nat)
    ensures n <= |vectors|
  {
    if vectors == [] then 0 else (if t in vectors[0] then 1 else 0) + Frequency(vectors[1..], t)
  }

  function Tokens(vectors: seq<Counts>): set<string> {
    if vectors == [] then {} else vectors[0].Keys + Tokens(vectors[1..])
  }

  function Idf(vectors: seq<Counts>, log: real -> real): map<string, real> {
    map t | t in Tokens(vectors) :: log(Ratio((1 + |vectors|) as real, (1 + Frequency(vectors, t)) as real)) + 1.0
  }

  /** The weights of an index are at least one, so the range of the combined score holds for every index. */
  lemma IdfAtLeastOne(vectors: seq<Counts>, log: real -> real)
    requires forall x: real :: x >= 1.0 ==> log(x) >= 0.0
    ensures forall t :: t in Idf(vectors, log) ==> Idf(vectors, log)[t] >= 1.0
    ensures PositiveWeights(Idf(vectors, log))
  {
    forall t | t in Tokens(vectors)
      ensures Ratio((1 + |vectors|) as real, (1 + Frequency(vectors, t)) as real) >= 1.0
    {
      var a, b := (1 + |vectors|) as real, (1 + Frequency(vectors, t)) as real;
      RatioCompares(a, b, 1.0);
      assert Times(1.0, b) == b;
    }
  }

  lemma RatioShrinks(x: real, y: real, y': real)
    requires x > 0.0 && 0.0 < y <= y'
    ensures Ratio(x, y) >= Ratio(x, y')
  {
    RatioCompares(x, y', Ratio(x, y));
    RatioTimes(x, y);
    RatioCompares(x, y, 0.0);
    assert Times(0.0, y) == 0.0;
    TimesMonotone(y, y', Ratio(x, y));
    TimesCommutes(y, Ratio(x, y));
    TimesCommutes(y', Ratio(x, y));
  }

  /** A token of the index that occurs in fewer of its chunks weighs at least as much; one that occurs in all weighs one. */
  lemma RarerTokensWeighMore(vectors: seq<Counts>, log: real -> real, t: string, u: string)
    requires forall x: real, y: real :: 0.0 < x <= y ==> log(x) <= log(y)
    requires t in Tokens(vectors) && u in Tokens(vectors) && Frequency(vectors, t) <= Frequency(vectors, u)
    ensures Idf(vectors, log)[t] >= Idf(vectors, log)[u]
    ensures Frequency(vectors, u) == |vectors| ==> Idf(vectors, log)[u] == log(1.0) + 1.0
  {
    var n := (1 + |vectors|) as real;
    LogOfRatios(n, (1 + Frequency(vectors, t)) as real, (1 + Frequency(vectors, u)) as real, log);
    IdfIs(vectors, log, t);
    IdfIs(vectors, log, u);
    if Frequency(vectors, u) == |vectors| {
      RatioOfEqual(n);
    }
  }

  lemma IdfIs(vectors: seq<Counts>, log: real -> real, t: string)
    requires t in Tokens(vectors)
    ensures Idf(vectors, log)[t] == log(Ratio((1 + |vectors|) as real, (1 + Frequency(vectors, t)) as real)) + 1.0
  {
  }

  lemma LogOfRatios(x: real, a: real, b: real, log: real -> real)
    requires forall x: real, y: real :: 0.0 < x <= y ==> log(x) <= log(y)
    requires x > 0.0 && 0.0 < a <= b
    ensures log(Ratio(x, a)) >= log(Ratio(x, b))
  {
    RatioShrinks(x, a, b);
    RatioCompares(x, b, 0.0);
    assert Times(0.0, b) == 0.0;
  }
}
