/**
 Answering a question from the RAG index: every chunk is scored against the question, and the best are
 selected. The tokens of a text, its counter, are a parameter; so is the index's weight of a token.
 */
module RagQuery {
  import opened Text
  import opened RealAlgebra
  import opened Ranking
  import opened TokenSimilarity

  datatype Result = Selected(ranks: seq<Scored>) | ValueError(message: string)

  const NO_QUESTION := "question must not be empty"
  const BAD_TOP_K := "top_k must be positive"

  type Vectorizer = string -> Counts

  method SumOver(tokens: set<string>, f: string -> real) returns (sum: real)
    ensures sum == Sum(tokens, f)
  {
    sum := 0.0;
    var rest := tokens;
    while rest != {}
      invariant rest <= tokens && sum + Sum(rest, f) == Sum(tokens, f)
      decreases |rest|
    {
      var t :| t in rest;
      SumRemove(rest, f, t);
      sum := sum + f(t);
      rest := rest - {t};
    }
  }

  method CosineOf(left: Counts, right: Counts, idf: map<string, real>, sqrt: real -> real) returns (score: real)
    ensures score == Cosine(left, right, idf, sqrt)
  {
    if left == map[] || right == map[] {
      return 0.0;
    }
    var numerator := SumOver(left.Keys * right.Keys, Term(left, right, idf));
    var leftSum := SumOver(left.Keys, Product(Coordinate(left, idf), Coordinate(left, idf)));
    var rightSum := SumOver(right.Keys, Product(Coordinate(right, idf), Coordinate(right, idf)));
    var leftNorm, rightNorm := sqrt(leftSum), sqrt(rightSum);
    if leftNorm == 0.0 || rightNorm == 0.0 {
      return 0.0;
    }
    TimesNonZero(leftNorm, rightNorm);
    return Ratio(numerator, Times(leftNorm, rightNorm));
  }

  method CombinedOf(query: Counts, chunk: Counts, idf: map<string, real>, sqrt: real -> real) returns (score: real)
    ensures score == Combined(query, chunk, idf, sqrt)
  {
    var cosine := CosineOf(query, chunk, idf, sqrt);
    return cosine + 0.05 * KeywordOverlap(query, chunk);
  }

  function Tabulate(f: nat -> real, n: nat): (r: seq<real>)
    ensures |r| == n
  {
    if n == 0 then [] else Tabulate(f, n - 1) + [f(n - 1)]
  }

  lemma {:induction false} TabulateAt(f: nat -> real, n: nat, i: nat)
    requires i < n
    ensures Tabulate(f, n)[i] == f(i)
  {
    if i < n - 1 {
      TabulateAt(f, n - 1, i);
    }
  }

  /** What each chunk scores against the question. */
  ghost function ScoreOf(query: Counts, vectors: seq<Counts>, idf: map<string, real>, sqrt: real -> real): nat -> real {
    (i: nat) => if i < |vectors| then Combined(query, vectors[i], idf, sqrt) else 0.0
  }

  ghost function ChunkScores(query: Counts, vectors: seq<Counts>, idf: map<string, real>, sqrt: real -> real): seq<real> {
    Tabulate(ScoreOf(query, vectors, idf, sqrt), |vectors|)
  }

  method ScoreChunks(query: Counts, vectors: seq<Counts>, idf: map<string, real>, sqrt: real -> real)
    returns (scores: seq<real>)
    ensures scores == ChunkScores(query, vectors, idf, sqrt)
  {
    scores := [];
    ghost var f := ScoreOf(query, vectors, idf, sqrt);
    for i := 0 to |vectors|
      invariant scores == Tabulate(f, i)
    {
      var score := CombinedOf(query, vectors[i], idf, sqrt);
      assert score == f(i);
      scores := scores + [score];
    }
  }

  method Query(question: string, topK: int, vectors: seq<Counts>, vectorize: Vectorizer, idf: map<string, real>,
               sqrt: real -> real) returns (r: Result)
    ensures Strip(question) == "" ==> r == ValueError(NO_QUESTION)
    ensures Strip(question) != "" && topK <= 0 ==> r == ValueError(BAD_TOP_K)
    ensures Strip(question) != "" && topK > 0 ==>
              r.Selected? && IsTopPositive(ChunkScores(vectorize(Strip(question)), vectors, idf, sqrt), topK, r.ranks)
  {
    var normalized := Strip(question);
    if normalized == "" {
      return ValueError(NO_QUESTION);
    }
    if topK <= 0 {
      return ValueError(BAD_TOP_K);
    }
    var scores := ScoreChunks(vectorize(normalized), vectors, idf, sqrt);
    var ranks := TopPositive(scores, topK);
    return Selected(ranks);
  }

  /**
   What a selection means for the reader: every selected chunk shares a token with the question and scores
   at most 1.05; and unless the selection is full, every chunk that shares a token is in it.
   */
  lemma SelectionSharesTokens(query: Counts, vectors: seq<Counts>, idf: map<string, real>, sqrt: real -> real,
                              k: nat, ranks: seq<Scored>)
    requires IsTopPositive(ChunkScores(query, vectors, idf, sqrt), k, ranks)
    requires IsCounter(query) && (forall i :: 0 <= i < |vectors| ==> IsCounter(vectors[i]))
    requires PositiveWeights(idf) && IsSquareRoot(sqrt)
    ensures forall x :: x in ranks ==>
              x.index < |vectors| && x.score <= 1.05 && query.Keys * vectors[x.index].Keys != {}
    ensures |ranks| < k ==>
              forall i: nat :: i < |vectors| && query.Keys * vectors[i].Keys != {} ==> exists x :: x in ranks && x.index == i
  {
    forall x | x in ranks ensures x.score <= 1.05 && query.Keys * vectors[x.index].Keys != {} {
      TabulateAt(ScoreOf(query, vectors, idf, sqrt), |vectors|, x.index);
      CombinedWithinRange(query, vectors[x.index], idf, sqrt);
    }
    if |ranks| < k {
      forall i: nat | i < |vectors| && query.Keys * vectors[i].Keys != {} ensures exists x :: x in ranks && x.index == i {
        TabulateAt(ScoreOf(query, vectors, idf, sqrt), |vectors|, i);
        CombinedWithinRange(query, vectors[i], idf, sqrt);
        assert Scored(ChunkScores(query, vectors, idf, sqrt)[i], i) in ranks;
      }
    }
  }
}
