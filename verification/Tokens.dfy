/** Token estimates, and how the cost of a text changes when words or a marker are added to it. */
module Tokens {
  import opened Numbers
  import opened Text
  import opened Shortening

  /** About four characters a token, and at least one token a word. */
  function Estimate(text: string): nat {
    EstimateStripped(Strip(text))
  }

  function EstimateStripped(s: string): nat {
    if s == "" then 0 else Max(1, Max((|s| + 3) / 4, |Words(s)|))
  }

  lemma EstimateSolid(s: string)
    requires Solid(s)
    ensures Estimate(s) == Max(1, Max((|s| + 3) / 4, |Words(s)|))
  {
  }

  lemma {:induction false} OneWord(word: string, s: string)
    requires forall i :: 0 <= i < |s| ==> !IsSpace(s[i])
    requires word + s != ""
    ensures WordsFrom(word, s) == [word + s]
    decreases |s|
  {
    if s == "" {
      assert word + s == word;
    } else {
      OneWord(word + [s[0]], s[1..]);
      assert word + [s[0]] + s[1..] == word + s;
    }
  }

  lemma WordCost(w: string)
    requires IsWord(w)
    ensures Words(w) == [w] && Solid(w) && Estimate(w) == Max(1, (|w| + 3) / 4)
  {
    OneWord("", w);
    assert "" + w == w;
    EstimateSolid(w);
  }

  /** The estimate is the least number of tokens that allows four characters each, blanks at the ends aside, and one a word. */
  lemma EstimateIsLeast(text: string, n: nat)
    ensures n >= Estimate(text) <==> |Strip(text)| <= 4 * n && |Words(text)| <= n
  {
    LStripWords(text);
    RStripWords(LStrip(text));
    BlankHasNoWords(text);
    if Strip(text) == "" {
      assert Words("") == [];
    }
  }

  /** Words joined by single spaces are split again as they were. */
  lemma {:induction false} WordsOfJoin(words: seq<string>)
    requires forall i :: 0 <= i < |words| ==> IsWord(words[i])
    ensures Words(Join(words)) == words
    decreases |words|
  {
    if words == [] {
    } else if |words| == 1 {
      WordCost(words[0]);
    } else {
      var front, last := words[..|words| - 1], words[|words| - 1];
      WordsOfJoin(front);
      WordsSplitAt("", Join(front), ' ', last);
      WordCost(last);
      assert Join(words) == Join(front) + [' '] + last;
    }
  }

  /** A stripped text followed by one more word: both of its measures grow by that word's. */
  lemma AppendWord(s: string, w: string)
    requires Solid(s) && IsWord(w)
    ensures Solid(s + " " + w) && Words(s + " " + w) == Words(s) + [w]
    ensures Estimate(s) <= Estimate(s + " " + w)
    ensures Estimate(s + " " + w) <= Estimate(s) + Max(1, (|w| + 4) / 4)
  {
    WordsSplitAt("", s, ' ', w);
    assert s + " " + w == s + [' '] + w;
    WordCost(w);
    EstimateSolid(s);
    EstimateSolid(s + " " + w);
  }

  /** Ending in a word, only the left side can be stripped, and the word stays. */
  lemma {:induction false} LStripKeepsMark(s: string, mark: string)
    requires IsWord(mark)
    ensures |LStrip(s + mark)| >= |mark| && Solid(LStrip(s + mark))
    decreases |s|
  {
    if s == "" {
      assert s + mark == mark;
    } else {
      assert (s + mark)[0] == s[0] && (s + mark)[1..] == s[1..] + mark;
      if IsSpace(s[0]) {
        LStripKeepsMark(s[1..], mark);
      }
    }
  }

  /** A text that only has blanks on its left is measured without them. */
  lemma EstimateBehindBlanks(text: string)
    requires Solid(LStrip(text))
    ensures Estimate(text) == Max(1, Max((|LStrip(text)| + 3) / 4, |Words(text)|))
  {
    assert RStrip(LStrip(text)) == LStrip(text);
    LStripWords(text);
  }

  lemma EstimateOfMarked(s: string, mark: string)
    requires IsWord(mark)
    ensures Estimate(s + mark) == Max(1, Max((|LStrip(s + mark)| + 3) / 4, |Words(s + mark)|))
  {
    var text := s + mark;
    assert Solid(LStrip(text)) by {
      LStripKeepsMark(s, mark);
    }
    EstimateBehindBlanks(text);
  }

  lemma {:induction false} LongerAfterField(f: string, rest: string, mark: string)
    requires IsWord(mark)
    ensures |LStrip(f + " " + mark)| <= |LStrip(f + " " + rest + mark)|
    decreases |f|
  {
    var a, b := f + " " + mark, f + " " + rest + mark;
    if f == "" {
      assert a[0] == ' ' && a[1..] == mark;
      assert b[0] == ' ' && b[1..] == rest + mark;
      LStripKeepsMark(rest, mark);
    } else {
      assert a[0] == f[0] && a[1..] == f[1..] + " " + mark;
      assert b[0] == f[0] && b[1..] == f[1..] + " " + rest + mark;
      if IsSpace(f[0]) {
        LongerAfterField(f[1..], rest, mark);
      }
    }
  }

  lemma MarkedFieldIsCheaper(f: string, x: string, mark: string)
    requires IsWord(mark)
    ensures Estimate(WithMark(f, mark)) <= Estimate(WithMark(f + " " + x, mark))
  {
    var rest := x + " ";
    assert WithMark(f + " " + x, mark) == (f + " " + rest) + mark == f + [' '] + (rest + mark);
    assert WithMark(f, mark) == (f + " ") + mark == f + [' '] + mark;
    assert rest + mark == x + [' '] + mark;
    EstimateOfMarked(f + " " + rest, mark);
    EstimateOfMarked(f + " ", mark);
    LongerAfterField(f, rest, mark);
    WordsSplitAt("", f, ' ', rest + mark);
    WordsSplitAt("", f, ' ', mark);
    WordsSplitAt("", x, ' ', mark);
    WordCost(mark);
  }

  /** Estimates satisfy what the shortening loop's analysis asks of a cost. */
  lemma EstimateBottomIsCheapest(mark: string)
    requires IsWord(mark)
    ensures BottomIsCheapest(Estimate, mark)
  {
    forall h: string ensures Estimate(Bottom(WithMark(h, mark), mark)) <= Estimate(WithMark(h, mark)) {
      FirstFieldBeforeSpace(h, mark);
      if ' ' in h {
        FirstFieldSplits(h);
        MarkedFieldIsCheaper(FirstField(h), h[|FirstField(h)| + 1..], mark);
      } else {
        NoSpaces(h);
      }
    }
  }
}
