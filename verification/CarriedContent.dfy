/** What a mandatory message carries in a fitted conversation, as a function of the room that it met. */
module CarriedContent {
  import opened Numbers
  import opened Text
  import opened Shortening
  import opened Tokens
  import opened Truncation
  import opened TruncationLimits

  /** The first `k` words of the original, single spaces between them, and the marker: the most words that fit. */
  ghost predicate IsLongestWords(original: string, budget: int, content: string, k: nat) {
    var words := Words(original);
    && 1 <= k <= |words|
    && content == Join(words[..k]) + " " + "[truncated]"
    && Estimate(Join(words[..k])) + 3 <= budget
    && forall m :: k < m <= |words| ==> Estimate(Join(words[..m])) + 3 > budget
  }

  ghost predicate CarriesWords(original: string, budget: int, content: string) {
    exists k: nat :: IsLongestWords(original, budget, content, k)
  }

  predicate IsPieceEnd(text: string, p: nat) {
    p <= |text| && (p == |text| || text[p] == ' ')
  }

  /** The text up to the end `p` of one of its space-separated pieces, and the marker: the longest that fits. */
  ghost predicate IsLongestPieces(text: string, budget: int, content: string, p: nat) {
    && IsPieceEnd(text, p)
    && content == text[..p] + " " + "[truncated]" && Estimate(content) <= budget
    && forall q :: p < q <= |text| && IsPieceEnd(text, q) ==> Estimate(text[..q] + " " + "[truncated]") > budget
  }

  ghost predicate CarriesPieces(text: string, budget: int, content: string) {
    exists p: nat :: IsLongestPieces(text, budget, content, p)
  }

  /**
   What a mandatory message carries when it met `room` tokens: itself if it fits; else the most words that
   leave room for the marker, if one does; else the bare marker. Only a message that begins with a blank is
   cut by characters first.
   */
  ghost predicate Carries(original: string, room: int, content: string) {
    var words := Words(original);
    if 4 + Estimate(original) <= room then
      content == original
    else if words != [] && Estimate(words[0]) + 3 <= room - 4 then
      CarriesWords(original, room - 4, content)
    else if room > 4 && original != "" && IsSpace(original[0]) then
      var limit := if room <= 8 then 16 else 4 * (room - 4);
      CarriesPieces(Strip(if |original| <= limit then original else original[..limit]), room - 4, content)
    else
      content == "[truncated]"
  }

  lemma ShrinkMarked(text: string)
    ensures ' ' in WithMarker(text)
    ensures Shrink(WithMarker(text), MARKER) == WithMarker(if LastSpace(text) < 0 then text else text[..LastSpace(text)])
  {
    MarkerIsAWord();
    var c := WithMarker(text);
    assert c[|text|] == ' ' && c[|text| + 1..] == MARKER;
    LastSpaceIs(c);
    forall j | |text| < j < |c| ensures c[j] != ' ' {
      assert c[j] == MARKER[j - |text| - 1];
    }
    assert c[..LastSpace(c)] == text;
  }

  lemma {:induction false} ShrunkIsLongestPieces(text: string, budget: int) returns (p: nat)
    requires ' ' !in MARKER && !LoopsForever(Estimate, WithMarker(text), MARKER, budget)
    ensures IsLongestPieces(text, budget, Shrunk(Estimate, WithMarker(text), MARKER, budget), p)
    decreases |text|
  {
    var c := WithMarker(text);
    ShrinkMarked(text);
    assert text[..|text|] == text;
    p := |text|;
    if TooLong(Estimate, c, budget) {
      MeasureDecreases(Estimate, c, MARKER, budget);
      var j := LastSpace(text);
      assert j >= 0;
      p := ShrunkIsLongestPieces(text[..j], budget);
      LongestOfLonger(text, budget, Shrunk(Estimate, c, MARKER, budget), p);
    }
  }

  lemma LongestOfLonger(text: string, budget: int, content: string, p: nat)
    requires Estimate(text + " " + "[truncated]") > budget
    requires LastSpace(text) >= 0 && IsLongestPieces(text[..LastSpace(text)], budget, content, p)
    ensures IsLongestPieces(text, budget, content, p)
  {
    var j := LastSpace(text);
    LastSpaceIs(text);
    assert text[..|text|] == text;
    assert forall q :: 0 <= q <= j ==> text[..j][..q] == text[..q];
    assert IsPieceEnd(text[..j], j);
  }

  lemma StartFromABlank(original: string, maxTokens: int)
    requires original != "" && IsSpace(original[0]) && maxTokens > 4 && !FirstWordFitsIn(original, maxTokens - 4)
    ensures Start(original, maxTokens) == WithMarker(Cut(original, Max(16, (maxTokens - 4) * 4)))
  {
    if Words(original) != [] {
      NothingKept(original, maxTokens - 4);
    }
    assert Words(original)[..0] == [] && Strip(Join([])) == "";
    CutIsStripped(original, Max(16, (maxTokens - 4) * 4));
  }

  lemma TruncatedCarriesWords(original: string, room: int)
    requires 4 + Estimate(original) > room > 4 && FirstWordFitsIn(original, room - 4)
    ensures !RunsForever(original, room) && CarriesWords(original, room - 4, Truncated(original, room))
  {
    FirstWordFits(original, room);
    var words := Words(original);
    var k := KeptFrom(words, 0, room - 4);
    assert Join(words[..k]) != original;
    forall m | k < m <= |words| ensures Estimate(Join(words[..m])) + 3 > room - 4 {
      assert !Fits(words, m, room - 4);
    }
    assert IsLongestWords(original, room - 4, Truncated(original, room), k);
  }

  lemma TruncatedCarriesPieces(original: string, room: int)
    requires room > 4 && original != "" && IsSpace(original[0]) && !FirstWordFitsIn(original, room - 4)
    requires !RunsForever(original, room)
    ensures CarriesPieces(Cut(original, Max(16, (room - 4) * 4)), room - 4, Truncated(original, room))
  {
    StartFromABlank(original, room);
    ShrunkCarriesPieces(original, Cut(original, Max(16, (room - 4) * 4)), room);
  }

  lemma ShrunkCarriesPieces(original: string, text: string, room: int)
    requires room > 4 && !RunsForever(original, room) && Start(original, room) == WithMarker(text)
    ensures CarriesPieces(text, room - 4, Truncated(original, room))
  {
    MarkerIsAWord();
    var p := ShrunkIsLongestPieces(text, room - 4);
    assert Truncated(original, room) == Shrunk(Estimate, WithMarker(text), MARKER, room - 4);
  }

  lemma TruncatedCarriesMarker(original: string, room: int)
    requires 4 + Estimate(original) > room > 4 && original != "" && !IsSpace(original[0])
    requires !FirstWordFitsIn(original, room - 4) && !RunsForever(original, room)
    ensures Truncated(original, room) == MARKER
  {
    MarkerIsAWord();
    FirstWordIs("", original);
    RunsForeverIff(original, room);
    StartWithoutFirstWord(original, room);
  }

  lemma TruncatedCarries(original: string, room: int)
    requires 4 + Estimate(original) > room && !RunsForever(original, room)
    ensures Carries(original, room, Truncated(original, room))
  {
    if room > 4 {
      if FirstWordFitsIn(original, room - 4) {
        TruncatedCarriesWords(original, room);
      } else if IsSpace(original[0]) {
        TruncatedCarriesPieces(original, room);
      } else {
        TruncatedCarriesMarker(original, room);
      }
    }
  }

  /** A message and a room leave no choice of content. */
  lemma CarriedIsUnique(original: string, room: int, a: string, b: string)
    requires Carries(original, room, a) && Carries(original, room, b)
    ensures a == b
  {
    if 4 + Estimate(original) > room {
      if Words(original) != [] && Estimate(Words(original)[0]) + 3 <= room - 4 {
        LongestWordsUnique(original, room - 4, a, b);
      } else if room > 4 && original != "" && IsSpace(original[0]) {
        LongestPiecesUnique(Cut(original, Max(16, (room - 4) * 4)), room - 4, a, b);
      }
    }
  }

  lemma LongestWordsUnique(original: string, budget: int, a: string, b: string)
    requires CarriesWords(original, budget, a) && CarriesWords(original, budget, b)
    ensures a == b
  {
    var j: nat :| IsLongestWords(original, budget, a, j);
    var k: nat :| IsLongestWords(original, budget, b, k);
    assert j == k;
  }

  lemma LongestPiecesUnique(text: string, budget: int, a: string, b: string)
    requires CarriesPieces(text, budget, a) && CarriesPieces(text, budget, b)
    ensures a == b
  {
    var p: nat :| IsLongestPieces(text, budget, a, p);
    var q: nat :| IsLongestPieces(text, budget, b, q);
    assert p == q;
  }
}
