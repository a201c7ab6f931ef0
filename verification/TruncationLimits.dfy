/** For which messages the truncation never returns. */
module TruncationLimits {
  import opened Numbers
  import opened Text
  import opened Shortening
  import opened Tokens
  import opened Truncation
  import Greedy

  function FirstBlank(s: string): nat {
    if s == "" || IsSpace(s[0]) then 0 else 1 + FirstBlank(s[1..])
  }

  lemma {:induction false} FirstBlankIs(s: string)
    ensures FirstBlank(s) <= |s| && (FirstBlank(s) < |s| ==> IsSpace(s[FirstBlank(s)]))
    ensures forall i :: 0 <= i < FirstBlank(s) ==> !IsSpace(s[i])
    ensures FirstBlank(s) <= |FirstField(s)| <= |s|
    ensures FirstField(s) == s[..|FirstField(s)|]
    decreases |s|
  {
    if s != "" && !IsSpace(s[0]) {
      FirstBlankIs(s[1..]);
    } else {
      FirstFieldIsPrefix(s);
    }
  }

  lemma {:induction false} FirstFieldIsPrefix(s: string)
    ensures |FirstField(s)| <= |s| && FirstField(s) == s[..|FirstField(s)|]
    decreases |s|
  {
    if s != "" && s[0] != ' ' {
      FirstFieldIsPrefix(s[1..]);
    }
  }

  lemma {:induction false} FirstWordIs(word: string, s: string)
    requires word != "" || (s != "" && !IsSpace(s[0]))
    ensures FirstBlank(s) <= |s| && WordsFrom(word, s) != [] && WordsFrom(word, s)[0] == word + s[..FirstBlank(s)]
    decreases |s|
  {
    if s != "" && !IsSpace(s[0]) {
      FirstWordIs(word + [s[0]], s[1..]);
      assert word + [s[0]] + s[1..][..FirstBlank(s[1..])] == word + s[..FirstBlank(s)];
    } else {
      assert word + s[..0] == word;
    }
  }

  /** A cut of a message that begins with a word keeps that word, or as much of it as the limit allows. */
  lemma CutKeepsFirstWord(content: string, limit: int)
    requires content != "" && !IsSpace(content[0]) && limit > 0
    ensures var text := Cut(content, limit);
            && text != "" && |text| <= |content| && text == content[..|text|]
            && (text == content <==> |content| <= limit && Strip(content) == content)
            && |FirstField(text)| >= if FirstBlank(content) <= limit then FirstBlank(content) else limit
  {
    var slice := if |content| <= limit then content else content[..limit];
    var text := Cut(content, limit);
    assert LStrip(slice) == slice;
    RStripCuts(slice);
    FirstBlankIs(content);
    FirstBlankIs(text);
    var n := if FirstBlank(content) <= limit then FirstBlank(content) else limit;
    assert n > 0 && slice[n - 1] == content[n - 1];
    assert n <= |text|;
    assert forall i :: 0 <= i < n ==> text[i] == content[i] && !IsSpace(text[i]);
  }

  lemma MarkedFieldCosts(f: string, mark: string)
    requires f != "" && !IsSpace(f[0]) && IsWord(mark) && |mark| == 11
    ensures Estimate(WithMark(f, mark)) >= (|f| + 15) / 4
  {
    var s := f + " " + mark;
    assert s == (f + " ") + mark;
    EstimateOfMarked(f + " ", mark);
  }

  /** Nothing is kept when the first word does not fit. */
  lemma NothingKept(content: string, budget: int)
    requires Words(content) != [] && Estimate(Words(content)[0]) + 3 > budget
    ensures KeptFrom(Words(content), 0, budget) == 0
  {
    var words := Words(content);
    assert words[..1] == [words[0]];
    assert !Fits(words, 1, budget);
  }

  /** What the loop starts from when nothing is kept, and what even its fixed point costs. */
  lemma StartWithoutFirstWord(content: string, maxTokens: int)
    requires content != "" && !IsSpace(content[0]) && maxTokens > 4
    requires Words(content) != [] && Estimate(Words(content)[0]) + 3 > maxTokens - 4
    ensures var limit := Max(16, (maxTokens - 4) * 4);
            var text := Cut(content, limit);
            && Start(content, maxTokens) == (if text == content then content else WithMarker(text))
            && (text == content <==> |content| <= limit && Strip(content) == content)
            && Estimate(WithMarker(FirstField(text))) > maxTokens - 4
  {
    var budget, limit := maxTokens - 4, Max(16, (maxTokens - 4) * 4);
    FirstWordIs("", content);
    WordsAreWords("", content);
    var word := Words(content)[0];
    assert word == content[..FirstBlank(content)];
    NothingKept(content, budget);
    assert Words(content)[..0] == [] && Strip(Join([])) == "";
    CutKeepsFirstWord(content, limit);
    var text := Cut(content, limit);
    FirstBlankIs(text);
    WordCost(word);
    MarkerIsAWord();
    MarkedFieldCosts(FirstField(text), MARKER);
  }

  lemma LoopsForeverFrom(content: string, text: string, budget: int)
    requires Estimate(WithMarker(FirstField(text))) > budget
    ensures LoopsForever(Estimate, WithMarker(text), MARKER, budget)
    ensures text == content ==> (LoopsForever(Estimate, text, MARKER, budget) <==> TooLong(Estimate, text, budget))
  {
    MarkerIsAWord();
    EstimateBottomIsCheapest(MARKER);
    FirstFieldBeforeSpace(text, MARKER);
    assert WithMarker(text)[|text|] == ' ';
    assert Bottom(WithMarker(text), MARKER) == WithMarker(FirstField(text)) == Bottom(text, MARKER);
    assert Estimate(Bottom(WithMark(text, MARKER), MARKER)) <= Estimate(WithMark(text, MARKER));
  }

  predicate FirstWordFitsIn(content: string, budget: int) {
    Words(content) != [] && Estimate(Words(content)[0]) + 3 <= budget
  }

  /** For a message that begins with a word: it is long or untrimmed, or over budget with a space in it. */
  predicate Unfit(content: string, maxTokens: int) {
    || |content| > Max(16, (maxTokens - 4) * 4)
    || Strip(content) != content
    || (4 + Estimate(content) > maxTokens && ' ' in content)
  }

  /** The marked first field of what is cut off a message when none of its words is kept: the loop's last stop. */
  function LastStop(content: string, maxTokens: int): string {
    WithMarker(FirstField(Cut(content, Max(16, (maxTokens - 4) * 4))))
  }

  lemma FromAWord(content: string, maxTokens: int)
    requires content != "" && !IsSpace(content[0]) && maxTokens > 4
    ensures RunsForever(content, maxTokens) <==> !FirstWordFitsIn(content, maxTokens - 4) && Unfit(content, maxTokens)
  {
    FirstWordIs("", content);
    if FirstWordFitsIn(content, maxTokens - 4) {
      FirstWordFits(content, maxTokens);
    } else {
      StartWithoutFirstWord(content, maxTokens);
      LoopsForeverFrom(content, Cut(content, Max(16, (maxTokens - 4) * 4)), maxTokens - 4);
    }
  }

  /** A message that begins with a blank is never its own cut, so what the loop starts from is marked. */
  lemma FromABlank(content: string, maxTokens: int)
    requires content != "" && IsSpace(content[0]) && maxTokens > 4
    ensures RunsForever(content, maxTokens)
       <==> !FirstWordFitsIn(content, maxTokens - 4) && Estimate(LastStop(content, maxTokens)) > maxTokens - 4
  {
    var budget := maxTokens - 4;
    if FirstWordFitsIn(content, budget) {
      FirstWordFits(content, maxTokens);
    } else {
      var text := Cut(content, Max(16, budget * 4));
      if Words(content) != [] {
        NothingKept(content, budget);
      }
      assert Words(content)[..0] == [] && Strip(Join([])) == "";
      CutIsStripped(content, Max(16, budget * 4));
      assert Start(content, maxTokens) == WithMarker(text);
      FirstFieldBeforeSpace(text, MARKER);
      assert Bottom(WithMarker(text), MARKER) == LastStop(content, maxTokens);
      if Estimate(LastStop(content, maxTokens)) > budget {
        LoopsForeverFrom(content, text, budget);
      }
    }
  }

  lemma CutIsStripped(content: string, limit: int)
    requires content != "" && IsSpace(content[0]) && limit > 0
    ensures Cut(content, limit) != content
  {
    var lo, hi := StripCuts(if |content| <= limit then content else content[..limit]);
  }

  /**
   For every message: the truncation runs forever exactly when the first word with the marker exceeds the
   budget and, if the message begins with a word, it is not both short and trimmed or else is over budget
   and has a space; if it begins with a blank, what is cut off it does not fit even shortened to one field.
   */
  lemma RunsForeverIff(content: string, maxTokens: int)
    ensures RunsForever(content, maxTokens)
       <==> && maxTokens > 4 && content != "" && !FirstWordFitsIn(content, maxTokens - 4)
            && if IsSpace(content[0]) then Estimate(LastStop(content, maxTokens)) > maxTokens - 4
               else Unfit(content, maxTokens)
  {
    if maxTokens > 4 && content != "" {
      if IsSpace(content[0]) {
        FromABlank(content, maxTokens);
      } else {
        FromAWord(content, maxTokens);
      }
    } else if maxTokens > 4 {
      assert Words("") == [] && Start("", maxTokens) == "";
    }
  }

  /** One long word, a space and another word: with a budget of six tokens the truncation never returns. */
  lemma TruncationCanHang()
    ensures var long := seq(40, _ => 'x'); RunsForever(long + " y", 6)
  {
    var long: string := seq(40, _ => 'x');
    var content := long + " y";
    RunsForeverIff(content, 6);
    WordsSplitAt("", long, ' ', "y");
    WordCost(long);
    assert content == long + [' '] + "y";
  }
}
