/** The in-memory vector index: similarity scores, ranked. */
module VectorIndex {
  import opened RealAlgebra
  import opened VectorSimilarity
  import opened Ranking

  datatype EmbeddedChunk = EmbeddedChunk(id: string, text: string, metadata: map<string, string>, embedding: seq<real>)

  /** The record demands of its score that it lie within [-1, 1]. */
  datatype RetrievedChunk = RetrievedChunk(id: string, text: string, score: real, metadata: map<string, string>)

  function ScoreOf(c: EmbeddedChunk, embedding: seq<real>, i: nat, sqrt: real -> real): Scored {
    Scored(CosineSimilarity(embedding, c.embedding, sqrt), i)
  }

  function RecordsOf(chunks: seq<EmbeddedChunk>, ranks: seq<Scored>): seq<RetrievedChunk>
    requires forall j :: 0 <= j < |ranks| ==> ranks[j].index < |chunks|
  {
    seq(|ranks|, j requires 0 <= j < |ranks| =>
      RecordOf(chunks[ranks[j].index], ranks[j].score))
  }

  function RecordOf(c: EmbeddedChunk, score: real): RetrievedChunk {
    RetrievedChunk(c.id, c.text, score, c.metadata)
  }

  /** How many of n items Python's `[:k]` keeps: a negative `k` cuts off that many at the end. */
  function Kept(n: nat, k: int): (kept: nat)
    ensures kept <= n && (0 <= k <= n ==> kept == k) && (k < 0 ==> kept == if n + k < 0 then 0 else n + k)
  {
    if k >= n then n else if k >= 0 then k else if n + k >= 0 then n + k else 0
  }

  /** The ranking of all chunks that qualify. */
  function Qualifying(chunks: seq<EmbeddedChunk>, embedding: seq<real>, minScore: real, sqrt: real -> real): seq<Scored> {
    AtLeast(SortDescending(ScoresOf(chunks, embedding, sqrt)), minScore)
  }

  /** The answer for any `k` is that for the number it stands for. */
  function Best(chunks: seq<EmbeddedChunk>, embedding: seq<real>, k: int, minScore: real, sqrt: real -> real): seq<Scored> {
    var all := Qualifying(chunks, embedding, minScore, sqrt);
    all[..Kept(|all|, k)]
  }

  lemma BestIsSearch(chunks: seq<EmbeddedChunk>, embedding: seq<real>, k: int, minScore: real, sqrt: real -> real)
    ensures var n := if k >= 0 then k else Kept(|Qualifying(chunks, embedding, minScore, sqrt)|, k);
            Best(chunks, embedding, k, minScore, sqrt) == Search(ScoresOf(chunks, embedding, sqrt), n, minScore)
  {
    var all := Qualifying(chunks, embedding, minScore, sqrt);
    assert all[..|all|] == all;
  }

  /** The scores of all chunks, in their order. */
  function ScoresOf(chunks: seq<EmbeddedChunk>, embedding: seq<real>, sqrt: real -> real): seq<Scored> {
    seq(|chunks|, i requires 0 <= i < |chunks| => ScoreOf(chunks[i], embedding, i, sqrt))
  }

  /** A score of a chunk that qualifies, and that the record accepts. */
  ghost predicate IsAnswer(chunks: seq<EmbeddedChunk>, embedding: seq<real>, minScore: real, sqrt: real -> real, x: Scored) {
    && x.index < |chunks| && x == ScoreOf(chunks[x.index], embedding, x.index, sqrt)
    && minScore <= x.score && -1.0 <= x.score <= 1.0
  }

  /**
   The answers are ranked, every one is a qualifying chunk's score that the record accepts, and a chunk
   that qualifies is left out only when the answer is full of chunks ahead of it.
   */
  lemma BestAreAnswers(chunks: seq<EmbeddedChunk>, embedding: seq<real>, k: nat, minScore: real, sqrt: real -> real)
    requires IsSquareRoot(sqrt)
    ensures var scores := ScoresOf(chunks, embedding, sqrt);
            var best := Search(scores, k, minScore);
            && |best| <= k
            && (forall i, j :: 0 <= i < j < |best| ==>
                  best[i].score > best[j].score || (best[i].score == best[j].score && best[i].index < best[j].index))
            && (forall j :: 0 <= j < |best| ==> IsAnswer(chunks, embedding, minScore, sqrt, best[j]))
            && forall i :: 0 <= i < |chunks| && scores[i].score >= minScore && scores[i] !in best ==>
                 |best| == k && forall y :: y in best ==>
                   y.score > scores[i].score || (y.score == scores[i].score && y.index < i)
  {
    var scores := ScoresOf(chunks, embedding, sqrt);
    SearchIsTopK(scores, k, minScore);
    var best := Search(scores, k, minScore);
    forall j | 0 <= j < |best| ensures IsAnswer(chunks, embedding, minScore, sqrt, best[j]) {
      assert best[j] in best;
      var i :| 0 <= i < |scores| && scores[i] == best[j];
      ScoreWithinRange(embedding, chunks[i].embedding, sqrt);
    }
    forall i | 0 <= i < |chunks| ensures scores[i] in scores {
    }
  }

  class InMemoryVectorIndex {
    var chunks: seq<EmbeddedChunk>

    constructor ()
      ensures chunks == []
    {
      chunks := [];
    }

    method Clear()
      modifies this
      ensures chunks == []
    {
      chunks := [];
    }

    method Add(more: seq<EmbeddedChunk>)
      modifies this
      ensures chunks == old(chunks) + more
    {
      chunks := chunks + more;
    }

    /** The best chunks, best first, ties in the order of addition. */
    method Search(embedding: seq<real>, k: int, minScore: real, sqrt: real -> real) returns (r: seq<RetrievedChunk>)
      requires IsSquareRoot(sqrt)
      ensures var best := Best(chunks, embedding, k, minScore, sqrt);
              && (forall j :: 0 <= j < |best| ==> best[j].index < |chunks| && -1.0 <= best[j].score <= 1.0)
              && r == RecordsOf(chunks, best) && |r| == |best|
              && forall j :: 0 <= j < |best| ==>
                   var c := chunks[best[j].index];
                   && r[j].id == c.id && r[j].text == c.text && r[j].metadata == c.metadata
                   && r[j].score == CosineSimilarity(embedding, c.embedding, sqrt) >= minScore
    {
      var scored: seq<Scored> := [];
      var n := 0;
      while n < |chunks|
        invariant n <= |chunks| && |scored| == n
        invariant forall i :: 0 <= i < n ==> scored[i] == ScoreOf(chunks[i], embedding, i, sqrt)
      {
        scored := scored + [ScoreOf(chunks[n], embedding, n, sqrt)];
        n := n + 1;
      }
      assert scored == ScoresOf(chunks, embedding, sqrt);
      BestIsSearch(chunks, embedding, k, minScore, sqrt);
      var qualifying := AtLeast(SortDescending(scored), minScore);
      var best := qualifying[..Kept(|qualifying|, k)];
      BestAreAnswers(chunks, embedding, if k >= 0 then k else Kept(|qualifying|, k), minScore, sqrt);
      assert forall j :: 0 <= j < |best| ==> IsAnswer(chunks, embedding, minScore, sqrt, best[j]);
      return RecordsOf(chunks, best);
    }
  }
}
