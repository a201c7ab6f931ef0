/**
 The truncation of a single message to a token budget. Its shortening loop does not end for every
 message; the module says exactly for which ones.
 */
module Truncation {
  import opened Numbers
  import opened Text
  import opened Shortening
  import opened Tokens
  import Greedy

  const MARKER := "[truncated]"

  function WithMarker(content: string): string {
    WithMark(content, MARKER)
  }

  lemma MarkerIsAWord()
    ensures IsWord(MARKER) && |MARKER| == 11 && ' ' !in MARKER
  {
  }

  lemma MarkerAlone()
    ensures Estimate(MARKER) == 3 && Estimate(WithMarker("")) == 3
  {
    MarkerIsAWord();
    WordCost(MARKER);
    assert WithMarker("") == " " + MARKER;
    EstimateOfMarked(" ", MARKER);
    LStripWords(" " + MARKER);
    assert LStrip(" " + MARKER) == MARKER;
  }

  /** Appending the marker to a stripped, non-empty text costs at most three tokens. */
  lemma MarkerCostsAtMostThree(content: string)
    requires Solid(content)
    ensures Estimate(WithMarker(content)) <= Estimate(content) + 3
  {
    MarkerIsAWord();
    AppendWord(content, MARKER);
  }

  // ---- the greedy word prefix ---------------------------------------------------------------------

  predicate Fits(words: seq<string>, n: nat, budget: int)
    requires n <= |words|
  {
    Estimate(Join(words[..n])) + 3 <= budget
  }

  /** How many words the loop keeps, having already kept `n`. */
  function KeptFrom(words: seq<string>, n: nat, budget: int): (k: nat)
    requires n <= |words|
    ensures n <= k <= |words|
  {
    Greedy.Run((m: nat) => m <= |words| && Fits(words, m, budget), n, |words|)
  }

  predicate AllWords(words: seq<string>) {
    forall i :: 0 <= i < |words| ==> IsWord(words[i])
  }

  /** More words never lower the estimate. */
  lemma {:induction false} JoinCostsMonotone(words: seq<string>, m: nat, n: nat)
    requires AllWords(words) && 0 < m <= n <= |words|
    ensures Estimate(Join(words[..m])) <= Estimate(Join(words[..n]))
    decreases n
  {
    if m < n {
      JoinCostsMonotone(words, m, n - 1);
      assert words[..n][..n - 1] == words[..n - 1];
      JoinIsSolid(words[..n - 1]);
      AppendWord(Join(words[..n - 1]), words[n - 1]);
    }
  }

  /** The kept prefix is the longest one that fits, not just the first that cannot be extended. */
  lemma KeptIsMaximal(words: seq<string>, budget: int, m: nat)
    requires AllWords(words) && 0 < m <= |words|
    ensures m <= KeptFrom(words, 0, budget) <==> Fits(words, m, budget)
  {
    var passes := (m: nat) => m <= |words| && Fits(words, m, budget);
    forall i: nat, j: nat | 0 < i <= j <= |words| && passes(j) ensures passes(i) {
      JoinCostsMonotone(words, i, j);
    }
    Greedy.RunIsMaximal(passes, |words|, m);
    assert Greedy.Run(passes, 0, |words|) == KeptFrom(words, 0, budget);
  }

  // ---- the whole truncation -----------------------------------------------------------------------

  function Cut(content: string, limit: int): string
    requires limit >= 0
  {
    Strip(if |content| <= limit then content else content[..limit])
  }

  /** What the loop starts from: the kept words or a cut of the text, marked if that changed the text. */
  function Start(content: string, maxTokens: int): string
    requires maxTokens > 4
  {
    var words := Words(content);
    var kept := Strip(Join(words[..KeptFrom(words, 0, maxTokens - 4)]));
    var text := if kept != "" then kept else Cut(content, Max(16, (maxTokens - 4) * 4));
    if text != content then WithMarker(text) else text
  }

  /** The messages and budgets for which the source's loop never ends. */
  predicate RunsForever(content: string, maxTokens: int) {
    maxTokens > 4 && LoopsForever(Estimate, Start(content, maxTokens), MARKER, maxTokens - 4)
  }

  function Truncated(content: string, maxTokens: int): string
    requires !RunsForever(content, maxTokens)
  {
    if maxTokens <= 4 then MARKER else
      var r := Shrunk(Estimate, Start(content, maxTokens), MARKER, maxTokens - 4);
      if 4 + Estimate(r) > maxTokens then MARKER else r
  }

  method TruncateMessage(content: string, maxTokens: int) returns (r: string)
    requires !RunsForever(content, maxTokens)
    ensures r == Truncated(content, maxTokens)
    ensures 4 + Estimate(r) <= maxTokens || r == MARKER
  {
    if maxTokens <= 4 {
      return MARKER;
    }
    var budget := maxTokens - 4;
    var words := Words(content);
    var kept := KeepWords(words, budget);
    r := Strip(Join(kept));
    if r == "" {
      r := Cut(content, Max(16, budget * 4));
    }
    if r != content {
      r := WithMarker(r);
    }
    r := ShrinkLoop(r, maxTokens);
    if 4 + Estimate(r) > maxTokens {
      r := MARKER;
    }
  }

  method ShrinkLoop(content: string, maxTokens: int) returns (r: string)
    requires !LoopsForever(Estimate, content, MARKER, maxTokens - 4)
    ensures r == Shrunk(Estimate, content, MARKER, maxTokens - 4)
  {
    ghost var budget := maxTokens - 4;
    r := content;
    while 4 + Estimate(r) > maxTokens && ' ' in r
      invariant !LoopsForever(Estimate, r, MARKER, budget)
      invariant Shrunk(Estimate, r, MARKER, budget) == Shrunk(Estimate, content, MARKER, budget)
      decreases Measure(r, MARKER)
    {
      MeasureDecreases(Estimate, r, MARKER, budget);
      r := Shrink(r, MARKER);
    }
  }

  method KeepWords(words: seq<string>, budget: int) returns (kept: seq<string>)
    ensures kept == words[..KeptFrom(words, 0, budget)]
  {
    kept := [];
    MarkerAlone();
    while |kept| < |words|
      invariant |kept| <= |words| && kept == words[..|kept|]
      invariant KeptFrom(words, 0, budget) == KeptFrom(words, |kept|, budget)
      decreases |words| - |kept|
    {
      var word := words[|kept|];
      var candidate := Join(kept + [word]);
      assert kept + [word] == words[..|kept| + 1];
      if Estimate(candidate) + Estimate(WithMarker("")) > budget {
        break;
      }
      kept := kept + [word];
    }
  }

  /** The source's loop ends on a message exactly when `RunsForever` does not hold of it. */
  lemma TruncationEndsIff(content: string, maxTokens: int)
    requires maxTokens > 4
    ensures (exists n: nat :: !TooLong(Estimate, Iterate(Start(content, maxTokens), MARKER, n), maxTokens - 4))
       <==> !RunsForever(content, maxTokens)
  {
    MarkerIsAWord();
    EstimateBottomIsCheapest(MARKER);
    LoopEndsIff(Estimate, Start(content, maxTokens), MARKER, maxTokens - 4);
  }

  /**
   When the first word and the marker fit, the loop is never entered: the result is the longest word
   prefix that leaves room for the marker, with the marker unless nothing was lost, and it fits.
   */
  lemma FirstWordFits(content: string, maxTokens: int)
    requires maxTokens > 4 && Words(content) != [] && Estimate(Words(content)[0]) + 3 <= maxTokens - 4
    ensures !RunsForever(content, maxTokens) && !TooLong(Estimate, Start(content, maxTokens), maxTokens - 4)
    ensures var words := Words(content);
            var budget := maxTokens - 4;
            var k := KeptFrom(words, 0, budget);
            && k >= 1
            && (forall m: nat :: 0 < m <= |words| && Fits(words, m, budget) ==> m <= k)
            && Fits(words, k, budget)
            && Truncated(content, maxTokens)
               == (if Join(words[..k]) == content then content else WithMarker(Join(words[..k])))
    ensures 4 + Estimate(Truncated(content, maxTokens)) <= maxTokens
  {
    var words, budget := Words(content), maxTokens - 4;
    var k := KeptFrom(words, 0, budget);
    WordsAreWords("", content);
    assert words[..1] == [words[0]];
    assert Fits(words, 1, budget);
    forall m | 0 < m <= |words| && Fits(words, m, budget) ensures m <= k {
      KeptIsMaximal(words, budget, m);
    }
    KeptIsMaximal(words, budget, k);
    JoinIsSolid(words[..k]);
    var kept := Join(words[..k]);
    assert Strip(kept) == kept;
    MarkerCostsAtMostThree(kept);
    assert Start(content, maxTokens) == if kept == content then content else WithMarker(kept);
  }
}
