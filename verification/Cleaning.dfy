/** Normalising the text of a loaded page before it is cut into chunks. */
module Cleaning {
  import opened Text

  /** `replace("\r\n", "\n")`. */
  function UnixLines(s: string): string {
    if s == "" then ""
    else if |s| > 1 && s[0] == '\r' && s[1] == '\n' then "\n" + UnixLines(s[2..])
    else [s[0]] + UnixLines(s[1..])
  }

  /** `replace("\r", "\n")`. */
  function LoneReturns(s: string): string {
    if s == "" then "" else [if s[0] == '\r' then '\n' else s[0]] + LoneReturns(s[1..])
  }

  predicate IsBlank(c: char) {
    c == ' ' || c == '\t'
  }

  /** Every run of spaces and tabs becomes one space. */
  function SqueezeBlanks(s: string): string {
    if s == "" then ""
    else if !IsBlank(s[0]) then [s[0]] + SqueezeBlanks(s[1..])
    else if |s| > 1 && IsBlank(s[1]) then SqueezeBlanks(s[1..])
    else [' '] + SqueezeBlanks(s[1..])
  }

  predicate ThreeBreaks(s: string, i: nat) {
    i + 2 < |s| && s[i] == '\n' && s[i + 1] == '\n' && s[i + 2] == '\n'
  }

  /** Every run of three or more line breaks becomes two. */
  function SqueezeBreaks(s: string): string {
    if s == "" then ""
    else if ThreeBreaks(s, 0) then SqueezeBreaks(s[1..])
    else [s[0]] + SqueezeBreaks(s[1..])
  }

  function CleanText(text: string): string {
    Strip(SqueezeBreaks(SqueezeBlanks(LoneReturns(UnixLines(text)))))
  }

  // ---- what clean text looks like -------------------------------------------------------------------

  ghost predicate Lacks(s: string, c: char) {
    forall i :: 0 <= i < |s| ==> s[i] != c
  }

  predicate TwoSpaces(s: string, i: nat) {
    i + 1 < |s| && s[i] == ' ' && s[i + 1] == ' '
  }

  ghost predicate SpacesSingle(s: string) {
    forall i: nat :: !TwoSpaces(s, i)
  }

  ghost predicate BreaksDouble(s: string) {
    forall i: nat :: !ThreeBreaks(s, i)
  }

  /** No carriage return or tab, no two spaces or three line breaks in a row, no blank at either end. */
  ghost predicate IsClean(s: string) {
    Lacks(s, '\r') && Lacks(s, '\t') && SpacesSingle(s) && BreaksDouble(s) && (s == "" || Solid(s))
  }

  /** Clean texts are exactly the ones that cleaning leaves alone, and exactly the ones it produces. */
  lemma CleanIffFixed(s: string)
    ensures IsClean(s) <==> CleanText(s) == s
    ensures IsClean(CleanText(s))
  {
    CleanTextIsClean(s);
    if IsClean(s) {
      UnixLinesKeeps(s);
      LoneReturnsKeeps(s);
      SqueezeBlanksKeeps(s);
      SqueezeBreaksKeeps(s);
    }
  }

  lemma CleaningIsIdempotent(text: string)
    ensures CleanText(CleanText(text)) == CleanText(text)
  {
    CleanIffFixed(text);
    CleanIffFixed(CleanText(text));
  }

  lemma CleanTextIsClean(text: string)
    ensures IsClean(CleanText(text))
  {
    var a := LoneReturns(UnixLines(text));
    LoneReturnsRemoves(UnixLines(text));
    var b := SqueezeBlanks(a);
    SqueezeBlanksSingles(a);
    SqueezeBlanksLacks(a, '\r');
    SqueezeBlanksLacks(a, '\t');
    var c := SqueezeBreaks(b);
    SqueezeBreaksDoubles(b);
    SqueezeBreaksLacks(b, '\r');
    SqueezeBreaksLacks(b, '\t');
    SqueezeBreaksSingles(b);
    var lo, hi := StripCuts(c);
    CutStaysClean(c, lo, hi);
  }

  lemma CutStaysClean(s: string, lo: nat, hi: nat)
    requires lo <= hi <= |s| && Lacks(s, '\r') && Lacks(s, '\t') && SpacesSingle(s) && BreaksDouble(s)
    ensures var t := s[lo..hi]; Lacks(t, '\r') && Lacks(t, '\t') && SpacesSingle(t) && BreaksDouble(t)
  {
    var t := s[lo..hi];
    forall i: nat ensures !TwoSpaces(t, i) && !ThreeBreaks(t, i) {
      assert !TwoSpaces(s, lo + i) && !ThreeBreaks(s, lo + i);
    }
  }

  lemma {:induction false} LoneReturnsRemoves(s: string)
    ensures Lacks(LoneReturns(s), '\r')
    decreases |s|
  {
    if s != "" { LoneReturnsRemoves(s[1..]); }
  }

  lemma {:induction false} SqueezeBlanksLacks(s: string, c: char)
    requires c == '\t' || (c != ' ' && Lacks(s, c))
    ensures Lacks(SqueezeBlanks(s), c)
    decreases |s|
  {
    if s != "" { SqueezeBlanksLacks(s[1..], c); }
  }

  lemma {:induction false} SqueezeBlanksSingles(s: string)
    ensures var r := SqueezeBlanks(s);
            SpacesSingle(r) && (r == "" <==> s == "") && (r != "" ==> (r[0] == ' ' <==> IsBlank(s[0])))
    decreases |s|
  {
    if s != "" {
      SqueezeBlanksSingles(s[1..]);
      var r, t := SqueezeBlanks(s), SqueezeBlanks(s[1..]);
      forall i: nat ensures !TwoSpaces(r, i) {
        if i > 0 { assert !TwoSpaces(t, i - 1); }
        assert !TwoSpaces(t, i);
      }
    }
  }

  lemma {:induction false} SqueezeBreaksLacks(s: string, c: char)
    requires Lacks(s, c)
    ensures Lacks(SqueezeBreaks(s), c)
    decreases |s|
  {
    if s != "" { SqueezeBreaksLacks(s[1..], c); }
  }

  /** The first two characters stay, so what precedes a squeezed run does not see it. */
  lemma {:induction false} SqueezeBreaksHead(s: string)
    ensures var r := SqueezeBreaks(s);
            |r| <= |s| && (|s| > 0 ==> |r| > 0 && r[0] == s[0]) && (|s| > 1 ==> |r| > 1 && r[1] == s[1])
    decreases |s|
  {
    if s != "" { SqueezeBreaksHead(s[1..]); }
  }

  lemma {:induction false} SqueezeBreaksDoubles(s: string)
    ensures BreaksDouble(SqueezeBreaks(s))
    decreases |s|
  {
    if s != "" {
      SqueezeBreaksDoubles(s[1..]);
      SqueezeBreaksHead(s[1..]);
      var r, t := SqueezeBreaks(s), SqueezeBreaks(s[1..]);
      forall i: nat ensures !ThreeBreaks(r, i) {
        if i > 0 { assert !ThreeBreaks(t, i - 1); }
        assert !ThreeBreaks(t, i);
      }
    }
  }

  lemma {:induction false} SqueezeBreaksSingles(s: string)
    requires SpacesSingle(s)
    ensures SpacesSingle(SqueezeBreaks(s))
    decreases |s|
  {
    if s != "" {
      forall i: nat ensures !TwoSpaces(s[1..], i) { assert !TwoSpaces(s, i + 1); }
      SqueezeBreaksSingles(s[1..]);
      SqueezeBreaksHead(s[1..]);
      assert !TwoSpaces(s, 0);
      var r, t := SqueezeBreaks(s), SqueezeBreaks(s[1..]);
      forall i: nat ensures !TwoSpaces(r, i) {
        if i > 0 { assert !TwoSpaces(t, i - 1); }
        assert !TwoSpaces(t, i);
      }
    }
  }

  lemma {:induction false} UnixLinesKeeps(s: string)
    requires Lacks(s, '\r')
    ensures UnixLines(s) == s
    decreases |s|
  {
    if s != "" { UnixLinesKeeps(s[1..]); }
  }

  lemma {:induction false} LoneReturnsKeeps(s: string)
    requires Lacks(s, '\r')
    ensures LoneReturns(s) == s
    decreases |s|
  {
    if s != "" { LoneReturnsKeeps(s[1..]); }
  }

  lemma {:induction false} SqueezeBlanksKeeps(s: string)
    requires Lacks(s, '\t') && SpacesSingle(s)
    ensures SqueezeBlanks(s) == s
    decreases |s|
  {
    if s != "" {
      forall i: nat ensures !TwoSpaces(s[1..], i) { assert !TwoSpaces(s, i + 1); }
      assert !TwoSpaces(s, 0);
      SqueezeBlanksKeeps(s[1..]);
    }
  }

  lemma {:induction false} SqueezeBreaksKeeps(s: string)
    requires BreaksDouble(s)
    ensures SqueezeBreaks(s) == s
    decreases |s|
  {
    if s != "" {
      forall i: nat ensures !ThreeBreaks(s[1..], i) { assert !ThreeBreaks(s, i + 1); }
      SqueezeBreaksKeeps(s[1..]);
    }
  }

  // ---- what cleaning does not change ----------------------------------------------------------------

  /** Cleaning loses, joins and splits no word. */
  lemma CleaningKeepsWords(text: string)
    ensures Words(CleanText(text)) == Words(text)
  {
    var a := UnixLines(text);
    UnixLinesWords("", text);
    var b := LoneReturns(a);
    LoneReturnsWords("", a);
    var c := SqueezeBlanks(b);
    SqueezeBlanksWords("", b);
    var d := SqueezeBreaks(c);
    SqueezeBreaksWords("", c);
    LStripWords(d);
    RStripWords(LStrip(d));
  }

  lemma {:induction false} UnixLinesWords(word: string, s: string)
    ensures WordsFrom(word, UnixLines(s)) == WordsFrom(word, s)
    decreases |s|
  {
    if s == "" {
    } else if |s| > 1 && s[0] == '\r' && s[1] == '\n' {
      assert s[1..][1..] == s[2..];
      UnixLinesWords("", s[2..]);
    } else {
      UnixLinesWords("", s[1..]);
      UnixLinesWords(word + [s[0]], s[1..]);
    }
  }

  lemma {:induction false} LoneReturnsWords(word: string, s: string)
    ensures WordsFrom(word, LoneReturns(s)) == WordsFrom(word, s)
    decreases |s|
  {
    if s != "" {
      LoneReturnsWords("", s[1..]);
      LoneReturnsWords(word + [s[0]], s[1..]);
    }
  }

  lemma {:induction false} SqueezeBlanksWords(word: string, s: string)
    ensures WordsFrom(word, SqueezeBlanks(s)) == WordsFrom(word, s)
    decreases |s|
  {
    if s != "" {
      SqueezeBlanksWords("", s[1..]);
      SqueezeBlanksWords(word, s[1..]);
      SqueezeBlanksWords(word + [s[0]], s[1..]);
    }
  }

  lemma {:induction false} SqueezeBreaksWords(word: string, s: string)
    ensures WordsFrom(word, SqueezeBreaks(s)) == WordsFrom(word, s)
    decreases |s|
  {
    if s != "" {
      SqueezeBreaksWords("", s[1..]);
      SqueezeBreaksWords(word, s[1..]);
      SqueezeBreaksWords(word + [s[0]], s[1..]);
    }
  }
}
