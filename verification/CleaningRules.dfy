/**
 Cleaning as rewriting: six rules keep the cleaned text, and with the clean texts they leave no other way
 to clean.
 */
module CleaningRules {
  import opened Text
  import opened Cleaning

  /** Between `a` and `b`, `from` may be replaced by `to`. */
  ghost predicate Rewrites(a: string, from: string, to: string, b: string) {
    || (from == "\r\n" && to == "\n" && Lacks(a, '\r'))
    || (from == "\r" && to == "\n" && Lacks(a, '\r') && (b == "" || b[0] != '\n'))
    || (from == "\t" && to == " ")
    || (from == "  " && to == " ")
    || (from == "\n\n\n" && to == "\n\n" && Lacks(a, '\r'))
    || (|from| == 1 && IsSpace(from[0]) && from != "\r" && to == "" && Lacks(a, '\r') && (a == "" || b == ""))
  }

  /** No line end is cut in two between `a` and `b`. */
  predicate Apart(a: string, b: string) {
    a == "" || a[|a| - 1] != '\r' || b == "" || b[0] != '\n'
  }

  // ---- each step on a text in two parts -------------------------------------------------------------------

  lemma {:induction false} UnixLinesSplits(a: string, b: string)
    requires Apart(a, b)
    ensures UnixLines(a + b) == UnixLines(a) + UnixLines(b)
    decreases |a|
  {
    var s := a + b;
    if a == "" {
      assert s == b;
    } else if |a| > 1 && a[0] == '\r' && a[1] == '\n' {
      assert s[0] == a[0] && s[1] == a[1] && s[2..] == a[2..] + b;
      UnixLinesSplits(a[2..], b);
    } else {
      assert s[0] == a[0] && s[1..] == a[1..] + b;
      UnixLinesSplits(a[1..], b);
      assert UnixLines(s) == [s[0]] + UnixLines(s[1..]) by {
        if |s| > 1 && s[0] == '\r' {
          assert s[1] == if |a| > 1 then a[1] else b[0];
        }
      }
    }
  }

  lemma {:induction false} LoneReturnsSplits(a: string, b: string)
    ensures LoneReturns(a + b) == LoneReturns(a) + LoneReturns(b)
    decreases |a|
  {
    if a == "" {
      assert a + b == b;
    } else {
      assert (a + b)[0] == a[0] && (a + b)[1..] == a[1..] + b;
      LoneReturnsSplits(a[1..], b);
    }
  }

  /** The text with every line end a line feed. */
  function Normal(s: string): string {
    LoneReturns(UnixLines(s))
  }

  lemma NormalSplits(a: string, b: string)
    requires Apart(a, b)
    ensures Normal(a + b) == Normal(a) + Normal(b)
  {
    UnixLinesSplits(a, b);
    LoneReturnsSplits(UnixLines(a), UnixLines(b));
  }

  lemma NormalOf(c: char)
    ensures Normal([c]) == [if c == '\r' then '\n' else c]
  {
    assert [c][1..] == "";
    assert UnixLines([c]) == [c] + UnixLines("") == [c];
    assert LoneReturns([c]) == [if c == '\r' then '\n' else c] + LoneReturns("");
  }

  lemma NormalCases()
    ensures Normal("\r\n") == "\n" && Normal("\r") == "\n" && Normal("\n") == "\n" && Normal("\t") == "\t"
    ensures Normal(" ") == " " && Normal("  ") == "  " && Normal("\n\n") == "\n\n" && Normal("\n\n\n") == "\n\n\n"
  {
    NormalOf('\r');
    NormalOf('\n');
    NormalOf('\t');
    NormalOf(' ');
    assert "\r\n"[2..] == "" && UnixLines("\r\n") == "\n" + UnixLines("");
    assert UnixLines("\r\n") == "\n";
    NormalSplits(" ", " ");
    assert " " + " " == "  ";
    NormalSplits("\n", "\n");
    assert "\n" + "\n" == "\n\n";
    NormalSplits("\n\n", "\n");
    assert "\n\n" + "\n" == "\n\n\n";
  }

  lemma NormalOfThree(a: string, m: string, b: string)
    requires Apart(a, m + b) && Apart(m, b)
    ensures Normal(a + m + b) == Normal(a) + Normal(m) + Normal(b)
  {
    assert a + m + b == a + (m + b);
    NormalSplits(a, m + b);
    NormalSplits(m, b);
  }

  lemma {:induction false} BlanksMerge(a: string, from: string, b: string)
    requires from == "\t" || from == "  "
    ensures SqueezeBlanks(a + from + b) == SqueezeBlanks(a + " " + b)
    decreases |a|
  {
    var s, t := a + from + b, a + " " + b;
    if a == "" {
      assert t[0] == ' ' && t[1..] == b && s[0] == from[0];
      if from == "\t" {
        assert s[1..] == b;
      } else {
        assert s[1] == ' ' && s[1..] == t;
      }
    } else {
      assert s[0] == t[0] == a[0] && s[1..] == a[1..] + from + b && t[1..] == a[1..] + " " + b;
      BlanksMerge(a[1..], from, b);
      assert IsBlank(s[1]) <==> IsBlank(t[1]);
    }
  }

  lemma {:induction false} BlanksSplit(a: string, b: string)
    requires b == "" || !IsBlank(b[0])
    ensures SqueezeBlanks(a + b) == SqueezeBlanks(a) + SqueezeBlanks(b)
    decreases |a|
  {
    var s := a + b;
    if a == "" {
      assert s == b;
    } else {
      assert s[0] == a[0] && s[1..] == a[1..] + b;
      BlanksSplit(a[1..], b);
    }
  }

  /** Behind a character that is no blank, the rest is squeezed on its own. */
  lemma BlanksSplitBehind(a: string, c: char, b: string)
    requires !IsBlank(c)
    ensures SqueezeBlanks(a + [c] + b) == SqueezeBlanks(a) + [c] + SqueezeBlanks(b)
  {
    assert a + [c] + b == a + ([c] + b);
    BlanksSplit(a, [c] + b);
    assert ([c] + b)[0] == c && ([c] + b)[1..] == b;
    assert SqueezeBlanks(a) + ([c] + SqueezeBlanks(b)) == SqueezeBlanks(a) + [c] + SqueezeBlanks(b);
  }

  lemma BlanksAroundTwoBreaks(a: string, b: string)
    ensures SqueezeBlanks(a + "\n\n" + b) == SqueezeBlanks(a) + "\n\n" + SqueezeBlanks(b)
  {
    var rest := "\n" + b;
    assert a + "\n\n" + b == a + ['\n'] + rest && rest == "" + ['\n'] + b;
    BlanksSplitBehind("", '\n', b);
    BlanksSplitBehind(a, '\n', rest);
    var x, y := SqueezeBlanks(a), SqueezeBlanks(b);
    assert x + ['\n'] + ("" + ['\n'] + y) == x + "\n\n" + y;
  }

  lemma BlanksAroundThreeBreaks(a: string, b: string)
    ensures SqueezeBlanks(a + "\n\n\n" + b) == SqueezeBlanks(a) + "\n\n\n" + SqueezeBlanks(b)
  {
    var rest := "\n\n" + b;
    assert a + "\n\n\n" + b == a + ['\n'] + rest && rest == "" + "\n\n" + b;
    BlanksAroundTwoBreaks("", b);
    BlanksSplitBehind(a, '\n', rest);
    var x, y := SqueezeBlanks(a), SqueezeBlanks(b);
    assert x + ['\n'] + ("" + "\n\n" + y) == x + "\n\n\n" + y;
  }

  lemma {:induction false} BreaksMerge(a: string, b: string)
    ensures SqueezeBreaks(a + "\n\n\n" + b) == SqueezeBreaks(a + "\n\n" + b)
    decreases |a|
  {
    var s, t := a + "\n\n\n" + b, a + "\n\n" + b;
    if a == "" {
      assert s[0] == s[1] == s[2] == '\n' && s[1..] == t;
    } else {
      assert s[0] == t[0] == a[0] && s[1..] == a[1..] + "\n\n\n" + b && t[1..] == a[1..] + "\n\n" + b;
      BreaksMerge(a[1..], b);
      assert s[1] == t[1] && s[2] == t[2];
    }
  }

  // ---- a blank at an end of the text ------------------------------------------------------------------------

  lemma LeadingBlank(c: char, s: string)
    requires IsSpace(c)
    ensures Strip(SqueezeBreaks(SqueezeBlanks([c] + s))) == Strip(SqueezeBreaks(SqueezeBlanks(s)))
  {
    assert ([c] + s)[0] == c && ([c] + s)[1..] == s;
    var w := SqueezeBlanks(s);
    if SqueezeBlanks([c] + s) != w {
      var d := if IsBlank(c) then ' ' else c;
      assert SqueezeBlanks([c] + s) == [d] + w;
      assert ([d] + w)[0] == d && ([d] + w)[1..] == w;
      var v := SqueezeBreaks(w);
      if SqueezeBreaks([d] + w) != v {
        assert SqueezeBreaks([d] + w) == [d] + v;
        assert ([d] + v)[0] == d && ([d] + v)[1..] == v;
        assert LStrip([d] + v) == LStrip(v);
      }
    }
  }

  /** A blank put behind a text is dropped, or stays as one blank character. */
  ghost predicate AtMostOneMore(longer: string, shorter: string) {
    longer == shorter || (|longer| == |shorter| + 1 && longer[..|shorter|] == shorter && IsSpace(longer[|shorter|]))
  }

  lemma {:induction false} TrailingBlank(s: string, c: char)
    requires IsSpace(c)
    ensures AtMostOneMore(SqueezeBlanks(s + [c]), SqueezeBlanks(s))
    decreases |s|
  {
    var t := s + [c];
    if s == "" {
      assert t[0] == c && t[1..] == "";
      assert SqueezeBlanks(t) == [if IsBlank(c) then ' ' else c];
    } else {
      assert t[0] == s[0] && t[1..] == s[1..] + [c];
      TrailingBlank(s[1..], c);
      if |s| == 1 {
        assert s[1..] == "" && t[1] == c;
      } else {
        assert t[1] == s[1];
      }
    }
  }

  lemma MoreBehind(c: char, longer: string, shorter: string)
    requires AtMostOneMore(longer, shorter)
    ensures AtMostOneMore([c] + longer, [c] + shorter)
  {
    if longer != shorter {
      assert ([c] + longer)[..|shorter| + 1] == [c] + longer[..|shorter|];
    }
  }

  lemma {:induction false} TrailingBreak(s: string, c: char)
    requires IsSpace(c)
    ensures AtMostOneMore(SqueezeBreaks(s + [c]), SqueezeBreaks(s))
    decreases |s|
  {
    var t := s + [c];
    if s == "" {
      assert t[0] == c && t[1..] == "";
      assert SqueezeBreaks(t) == [c] + SqueezeBreaks("") == [c];
    } else if s == "\n\n" && c == '\n' {
      assert s[1..] == "\n" && s[1..][1..] == "" && t[1..] == s;
      assert ThreeBreaks(t, 0) && SqueezeBreaks(t) == SqueezeBreaks(s);
    } else {
      assert t[0] == s[0] && t[1..] == s[1..] + [c];
      TrailingBreak(s[1..], c);
      assert |s| == 2 ==> s == [t[0], t[1]] && c == t[2];
      assert ThreeBreaks(t, 0) <==> ThreeBreaks(s, 0);
      MoreBehind(s[0], SqueezeBreaks(s[1..] + [c]), SqueezeBreaks(s[1..]));
    }
  }

  lemma {:induction false} LStripOfMore(s: string, c: char)
    requires IsSpace(c)
    ensures LStrip(s + [c]) == if LStrip(s) == "" then "" else LStrip(s) + [c]
    decreases |s|
  {
    var t := s + [c];
    if s == "" {
      assert t[0] == c && t[1..] == "";
    } else {
      assert t[0] == s[0] && t[1..] == s[1..] + [c];
      LStripOfMore(s[1..], c);
    }
  }

  lemma StripOfMore(longer: string, shorter: string)
    requires AtMostOneMore(longer, shorter)
    ensures Strip(longer) == Strip(shorter)
  {
    if longer != shorter {
      var c := longer[|shorter|];
      assert longer == shorter + [c];
      LStripOfMore(shorter, c);
      var l := LStrip(shorter);
      if l != "" {
        assert (l + [c])[|l + [c]| - 1] == c && (l + [c])[..|l + [c]| - 1] == l;
      }
    }
  }

  lemma TrailingSqueezed(s: string, c: char)
    requires IsSpace(c)
    ensures Strip(SqueezeBreaks(SqueezeBlanks(s + [c]))) == Strip(SqueezeBreaks(SqueezeBlanks(s)))
  {
    TrailingBlank(s, c);
    var longer, shorter := SqueezeBlanks(s + [c]), SqueezeBlanks(s);
    if longer != shorter {
      var d := longer[|shorter|];
      assert longer == shorter + [d];
      TrailingBreak(shorter, d);
      StripOfMore(SqueezeBreaks(longer), SqueezeBreaks(shorter));
    }
  }

  // ---- the rules hold ---------------------------------------------------------------------------------------

  lemma LineEndsAgree(a: string, from: string, b: string)
    requires from == "\r\n" || (from == "\r" && (b == "" || b[0] != '\n'))
    requires Lacks(a, '\r')
    ensures CleanText(a + from + b) == CleanText(a + "\n" + b)
  {
    NormalCases();
    assert (from + b)[0] == '\r';
    NormalOfThree(a, from, b);
    NormalOfThree(a, "\n", b);
  }

  lemma BlanksAgree(a: string, from: string, b: string)
    requires from == "\t" || from == "  "
    ensures CleanText(a + from + b) == CleanText(a + " " + b)
  {
    NormalCases();
    assert (from + b)[0] == from[0] && (" " + b)[0] == ' ';
    NormalOfThree(a, from, b);
    NormalOfThree(a, " ", b);
    BlanksMerge(Normal(a), from, Normal(b));
  }

  lemma BreaksAgree(a: string, b: string)
    requires Lacks(a, '\r')
    ensures CleanText(a + "\n\n\n" + b) == CleanText(a + "\n\n" + b)
  {
    NormalCases();
    NormalOfThree(a, "\n\n\n", b);
    NormalOfThree(a, "\n\n", b);
    BlanksAroundTwoBreaks(Normal(a), Normal(b));
    BlanksAroundThreeBreaks(Normal(a), Normal(b));
    BreaksMerge(SqueezeBlanks(Normal(a)), SqueezeBlanks(Normal(b)));
  }

  lemma EndsAgree(a: string, c: char, b: string)
    requires IsSpace(c) && c != '\r' && Lacks(a, '\r') && (a == "" || b == "")
    ensures CleanText(a + [c] + b) == CleanText(a + "" + b)
  {
    NormalOf(c);
    NormalOfThree(a, [c], b);
    if a == "" {
      assert Normal(a + [c] + b) == [c] + Normal(b);
      assert a + "" + b == b;
      LeadingBlank(c, Normal(b));
    } else {
      assert Normal(a + [c] + b) == Normal(a) + [c];
      assert a + "" + b == a;
      TrailingSqueezed(Normal(a), c);
    }
  }

  /** Rewriting a text by a rule does not change what it is cleaned to. */
  lemma RulesKeepCleaned(a: string, from: string, to: string, b: string)
    requires Rewrites(a, from, to, b)
    ensures CleanText(a + from + b) == CleanText(a + to + b)
  {
    if from == "\r\n" || from == "\r" {
      LineEndsAgree(a, from, b);
    } else if from == "\t" || from == "  " {
      if to == " " {
        BlanksAgree(a, from, b);
      } else {
        EndsAgree(a, from[0], b);
        assert from == [from[0]];
      }
    } else if from == "\n\n\n" {
      BreaksAgree(a, b);
    } else {
      EndsAgree(a, from[0], b);
      assert from == [from[0]];
    }
  }

  // ---- and there are no others ------------------------------------------------------------------------------

  function Weight(s: string): nat {
    if s == "" then 0 else (if s[0] == '\r' || s[0] == '\t' then 2 else 1) + Weight(s[1..])
  }

  lemma {:induction false} WeightAdds(a: string, b: string)
    ensures Weight(a + b) == Weight(a) + Weight(b)
    decreases |a|
  {
    if a == "" {
      assert a + b == b;
    } else {
      assert (a + b)[0] == a[0] && (a + b)[1..] == a[1..] + b;
      WeightAdds(a[1..], b);
    }
  }

  lemma RewritesLighten(a: string, from: string, to: string, b: string)
    requires Rewrites(a, from, to, b)
    ensures Weight(a + to + b) < Weight(a + from + b)
  {
    WeightAdds(a + to, b);
    WeightAdds(a, to);
    WeightAdds(a + from, b);
    WeightAdds(a, from);
    WeightsOfRules();
  }

  lemma WeightsOfRules()
    ensures Weight("\r\n") == 3 && Weight("\r") == 2 && Weight("\t") == 2
    ensures Weight("\n") == 1 && Weight(" ") == 1 && Weight("") == 0
    ensures Weight("  ") == 2 && Weight("\n\n") == 2 && Weight("\n\n\n") == 3
  {
    assert "\r\n"[1..] == "\n" && "  "[1..] == " " && "\n\n\n"[1..] == "\n\n" && "\n\n"[1..] == "\n";
    assert Weight("\n") == 1 + Weight("") && Weight(" ") == 1 + Weight("");
  }

  lemma {:induction false} FirstReturn(s: string) returns (i: nat)
    requires !Lacks(s, '\r')
    ensures i < |s| && s[i] == '\r' && Lacks(s[..i], '\r')
    decreases |s|
  {
    i := |s| - 1;
    if !Lacks(s[..|s| - 1], '\r') {
      i := FirstReturn(s[..|s| - 1]);
      assert s[..|s| - 1][..i] == s[..i];
    } else {
      assert forall k :: 0 <= k < |s| - 1 ==> s[..|s| - 1][k] == s[k];
    }
  }

  lemma Parts(s: string, i: nat, j: nat)
    requires i <= j <= |s|
    ensures s == s[..i] + s[i..j] + s[j..]
  {
  }

  /** A text that is not clean can be rewritten. */
  lemma CanRewrite(s: string) returns (a: string, from: string, to: string, b: string)
    requires !IsClean(s)
    ensures s == a + from + b && Rewrites(a, from, to, b)
  {
    var i: nat, n: nat;
    if !Lacks(s, '\r') {
      i := FirstReturn(s);
      n, to := if i + 1 < |s| && s[i + 1] == '\n' then 2 else 1, "\n";
    } else if !Lacks(s, '\t') {
      i :| i < |s| && s[i] == '\t';
      n, to := 1, " ";
    } else if !SpacesSingle(s) {
      i :| TwoSpaces(s, i);
      n, to := 2, " ";
    } else if !BreaksDouble(s) {
      i :| ThreeBreaks(s, i);
      n, to := 3, "\n\n";
    } else {
      i := if IsSpace(s[0]) then 0 else |s| - 1;
      n, to := 1, "";
    }
    a, from, b := s[..i], s[i..i + n], s[i + n..];
    Parts(s, i, i + n);
    SliceOf(s, i, n);
  }

  lemma SliceOf(s: string, i: nat, n: nat)
    requires 1 <= n <= 3 && i + n <= |s|
    ensures s[i..i + n] == if n == 1 then [s[i]] else if n == 2 then [s[i], s[i + 1]] else [s[i], s[i + 1], s[i + 2]]
  {
  }

  ghost predicate Respects(f: string -> string) {
    && (forall a, from, to, b :: Rewrites(a, from, to, b) ==> f(a + from + b) == f(a + to + b))
    && forall s :: IsClean(s) ==> f(s) == s
  }

  /** Whatever keeps to the rules and leaves clean texts alone cleans every text as this cleaning does. */
  lemma {:induction false} OnlyOneWayToClean(f: string -> string, text: string)
    requires Respects(f)
    ensures f(text) == CleanText(text)
    decreases Weight(text)
  {
    if IsClean(text) {
      CleanIffFixed(text);
    } else {
      var a, from, to, b := CanRewrite(text);
      RewritesLighten(a, from, to, b);
      RulesKeepCleaned(a, from, to, b);
      OnlyOneWayToClean(f, a + to + b);
    }
  }
}
