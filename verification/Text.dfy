/** Python's string primitives that the text algorithms rely on: whitespace, strip, split, join. */
module Text {
  import opened Options

  /** The characters `str.isspace` accepts, which are those `strip()` and `split()` treat as blank. */
  predicate IsSpace(c: char) {
    var n := c as int;
    || 0x09 <= n <= 0x0D || 0x1C <= n <= 0x20 || n == 0x85 || n == 0xA0 || n == 0x1680
    || 0x2000 <= n <= 0x200A || n == 0x2028 || n == 0x2029 || n == 0x202F || n == 0x205F || n == 0x3000
  }

  function LStrip(s: string): string {
    if s != "" && IsSpace(s[0]) then LStrip(s[1..]) else s
  }

  function RStrip(s: string): string {
    if s != "" && IsSpace(s[|s| - 1]) then RStrip(s[..|s| - 1]) else s
  }

  function Strip(s: string): string {
    RStrip(LStrip(s))
  }

  /** No blank at either end, and not empty. */
  predicate Solid(s: string) {
    s != "" && !IsSpace(s[0]) && !IsSpace(s[|s| - 1])
  }

  /** Stripping removes blanks only, from the two ends. */
  lemma StripCuts(s: string) returns (lo: nat, hi: nat)
    ensures lo <= hi <= |s| && Strip(s) == s[lo..hi]
    ensures forall i :: 0 <= i < |s| && !IsSpace(s[i]) ==> lo <= i < hi
    ensures Strip(s) == "" || Solid(Strip(s))
  {
    var l := LStrip(s);
    var r := RStrip(l);
    LStripCuts(s);
    RStripCuts(l);
    lo, hi := |s| - |l|, |s| - |l| + |r|;
    forall i | 0 <= i < |s| && !IsSpace(s[i]) ensures lo <= i < hi {
      if i >= lo {
        assert l[i - lo] == s[i];
      }
    }
  }

  lemma {:induction false} LStripCuts(s: string)
    ensures var l := LStrip(s);
            && |l| <= |s| && l == s[|s| - |l|..] && (l != "" ==> !IsSpace(l[0]))
            && forall i :: 0 <= i < |s| - |l| ==> IsSpace(s[i])
    decreases |s|
  {
    if s != "" && IsSpace(s[0]) {
      LStripCuts(s[1..]);
      assert forall i :: 1 <= i < |s| ==> s[i] == s[1..][i - 1];
    }
  }

  lemma {:induction false} RStripCuts(s: string)
    ensures var r := RStrip(s);
            && |r| <= |s| && r == s[..|r|] && (r != "" ==> !IsSpace(r[|r| - 1]))
            && forall i :: |r| <= i < |s| ==> IsSpace(s[i])
    decreases |s|
  {
    if s != "" && IsSpace(s[|s| - 1]) {
      RStripCuts(s[..|s| - 1]);
    }
  }

  /** Words of `s` when `word` is what has been read of the current one. */
  function WordsFrom(word: string, s: string): seq<string>
    decreases |s|
  {
    if s == "" then
      if word == "" then [] else [word]
    else if IsSpace(s[0]) then
      (if word == "" then [] else [word]) + WordsFrom("", s[1..])
    else
      WordsFrom(word + [s[0]], s[1..])
  }

  /** `s.split()`. */
  function Words(s: string): seq<string> {
    WordsFrom("", s)
  }

  predicate IsWord(w: string) {
    w != "" && forall i :: 0 <= i < |w| ==> !IsSpace(w[i])
  }

  lemma {:induction false} WordsAreWords(word: string, s: string)
    requires word == "" || IsWord(word)
    ensures forall i :: 0 <= i < |WordsFrom(word, s)| ==> IsWord(WordsFrom(word, s)[i])
    decreases |s|
  {
    if s == "" {
    } else if IsSpace(s[0]) {
      WordsAreWords("", s[1..]);
    } else {
      WordsAreWords(word + [s[0]], s[1..]);
    }
  }

  /** A blank separates: the words of both sides, side by side. */
  lemma {:induction false} WordsSplitAt(word: string, a: string, c: char, b: string)
    requires IsSpace(c)
    ensures WordsFrom(word, a + [c] + b) == WordsFrom(word, a) + Words(b)
    decreases |a|
  {
    var s := a + [c] + b;
    if a == "" {
      assert s[0] == c && s[1..] == b;
    } else {
      assert s[0] == a[0] && s[1..] == a[1..] + [c] + b;
      if IsSpace(a[0]) {
        WordsSplitAt("", a[1..], c, b);
      } else {
        WordsSplitAt(word + [a[0]], a[1..], c, b);
      }
    }
  }

  lemma {:induction false} LStripWords(s: string)
    ensures Words(LStrip(s)) == Words(s)
    decreases |s|
  {
    if s != "" && IsSpace(s[0]) { LStripWords(s[1..]); }
  }

  lemma {:induction false} RStripWords(s: string)
    ensures Words(RStrip(s)) == Words(s)
    decreases |s|
  {
    if s != "" && IsSpace(s[|s| - 1]) {
      RStripWords(s[..|s| - 1]);
      WordsSplitAt("", s[..|s| - 1], s[|s| - 1], "");
      assert s == s[..|s| - 1] + [s[|s| - 1]] + "";
    }
  }

  lemma {:induction false} BlankHasNoWords(s: string)
    ensures LStrip(s) == "" ==> Words(s) == []
    ensures LStrip(s) != "" ==> |Words(s)| > 0
    decreases |s|
  {
    if s == "" {
    } else if IsSpace(s[0]) {
      BlankHasNoWords(s[1..]);
    } else {
      OpenWordCounts([s[0]], s[1..]);
      assert "" + [s[0]] == [s[0]];
    }
  }

  lemma {:induction false} OpenWordCounts(word: string, s: string)
    requires word != ""
    ensures |WordsFrom(word, s)| > 0
    decreases |s|
  {
    if s != "" && !IsSpace(s[0]) {
      OpenWordCounts(word + [s[0]], s[1..]);
    }
  }

  /** `" ".join(words)`. */
  function Join(words: seq<string>): string {
    if words == [] then "" else if |words| == 1 then words[0] else Join(words[..|words| - 1]) + " " + words[|words| - 1]
  }

  lemma {:induction false} JoinIsSolid(words: seq<string>)
    requires words != [] && forall i :: 0 <= i < |words| ==> IsWord(words[i])
    ensures Solid(Join(words))
    decreases |words|
  {
    if |words| > 1 {
      JoinIsSolid(words[..|words| - 1]);
    }
  }

  // ---- searching ----------------------------------------------------------------------------------

  predicate OccursAt(s: string, part: string, i: nat) {
    i + |part| <= |s| && s[i..i + |part|] == part
  }

  /** The first position of `part` in `s`, as `str.find` reports it. */
  function Find(s: string, part: string, from: nat): (r: Option<nat>)
    requires from <= |s|
    ensures r.Some? ==> from <= r.value && OccursAt(s, part, r.value)
    ensures forall i: nat :: from <= i && OccursAt(s, part, i) ==> r.Some? && r.value <= i
    decreases |s| - from
  {
    if OccursAt(s, part, from) then Some(from)
    else if from == |s| then None
    else Find(s, part, from + 1)
  }
}
