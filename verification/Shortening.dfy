/**
 The loop that shortens a marked text until it is cheap enough: it drops the last space-separated piece
 before the marker and puts the marker back. The cost of a text is a parameter, so that the loop can be
 understood without the details of token estimates.
 */
module Shortening {

  type Cost = string -> nat

  function WithMark(content: string, mark: string): string {
    content + " " + mark
  }

  function LastSpace(s: string): (i: int)
    ensures -1 <= i < |s|
  {
    if s == "" then -1 else if s[|s| - 1] == ' ' then |s| - 1 else LastSpace(s[..|s| - 1])
  }

  lemma {:induction false} LastSpaceIs(s: string)
    ensures LastSpace(s) >= 0 ==> s[LastSpace(s)] == ' '
    ensures forall j :: LastSpace(s) < j < |s| ==> s[j] != ' '
    decreases |s|
  {
    if s != "" && s[|s| - 1] != ' ' {
      LastSpaceIs(s[..|s| - 1]);
    }
  }

  /** `s.rsplit(' ', 2)[0]`: what precedes the last two spaces, or the only one. */
  function BeforeLastSpaces(s: string): string
    requires ' ' in s
  {
    var i := LastSpace(s);
    LastSpaceIs(s);
    var j := LastSpace(s[..i]);
    if j < 0 then s[..i] else s[..j]
  }

  function Shrink(content: string, mark: string): string
    requires ' ' in content
  {
    WithMark(BeforeLastSpaces(content), mark)
  }

  /** The loop's guard. */
  predicate TooLong(cost: Cost, content: string, budget: int) {
    cost(content) > budget && ' ' in content
  }

  /** The text before the first space character. */
  function FirstField(s: string): string {
    if s == "" || s[0] == ' ' then "" else [s[0]] + FirstField(s[1..])
  }

  function Spaces(s: string): nat {
    if s == "" then 0 else (if s[0] == ' ' then 1 else 0) + Spaces(s[1..])
  }

  /** The shortest text the loop can reach, and its fixed point. */
  function Bottom(content: string, mark: string): string {
    WithMark(FirstField(content), mark)
  }

  lemma {:induction false} FirstFieldBeforeSpace(a: string, b: string)
    ensures FirstField(a + " " + b) == FirstField(a)
    decreases |a|
  {
    var s := a + " " + b;
    if a == "" {
      assert s[0] == ' ';
    } else {
      assert s[0] == a[0] && s[1..] == a[1..] + " " + b;
      FirstFieldBeforeSpace(a[1..], b);
    }
  }

  lemma {:induction false} FirstFieldSplits(s: string)
    requires ' ' in s
    ensures |FirstField(s)| < |s| && s == FirstField(s) + " " + s[|FirstField(s)| + 1..]
    decreases |s|
  {
    if s[0] != ' ' {
      FirstFieldSplits(s[1..]);
    }
  }

  lemma {:induction false} SpacesAdd(a: string, b: string)
    ensures Spaces(a + b) == Spaces(a) + Spaces(b)
    decreases |a|
  {
    if a == "" {
      assert a + b == b;
    } else {
      assert (a + b)[0] == a[0] && (a + b)[1..] == a[1..] + b;
      SpacesAdd(a[1..], b);
    }
  }

  lemma SpacesOfPieces(a: string, b: string)
    ensures Spaces(a + " " + b) == Spaces(a) + 1 + Spaces(b)
  {
    SpacesAdd(a + " ", b);
    SpacesAdd(a, " ");
    assert Spaces(" ") == 1 + Spaces("");
  }

  lemma {:induction false} NoSpaces(s: string)
    requires ' ' !in s
    ensures Spaces(s) == 0 && FirstField(s) == s
    decreases |s|
  {
    if s != "" {
      NoSpaces(s[1..]);
    }
  }

  /** Cutting at any space and marking keeps the first field. */
  lemma CutAndMark(h: string, t: string, mark: string)
    requires ' ' !in mark
    ensures ' ' in WithMark(h, mark) && Bottom(WithMark(h, mark), mark) == Bottom(h + " " + t, mark)
    ensures Spaces(h + " " + t) == Spaces(h) + 1 + Spaces(t) && Spaces(WithMark(h, mark)) == Spaces(h) + 1
  {
    assert WithMark(h, mark)[|h|] == ' ';
    FirstFieldBeforeSpace(h, t);
    FirstFieldBeforeSpace(h, mark);
    SpacesOfPieces(h, t);
    SpacesOfPieces(h, mark);
    NoSpaces(mark);
  }

  /** Each step keeps the first field and drops a space, until a single one is left before the mark. */
  lemma ShrinkStep(c: string, mark: string)
    requires ' ' in c && ' ' !in mark
    ensures ' ' in Shrink(c, mark) && Bottom(Shrink(c, mark), mark) == Bottom(c, mark)
    ensures Spaces(c) >= 2 ==> Spaces(Shrink(c, mark)) < Spaces(c)
    ensures Spaces(c) < 2 ==> Spaces(Shrink(c, mark)) == Spaces(c) && Shrink(c, mark) == Bottom(c, mark)
  {
    var i := LastSpace(c);
    LastSpaceIs(c);
    var j := LastSpace(c[..i]);
    LastSpaceIs(c[..i]);
    if j < 0 {
      assert c == c[..i] + " " + c[i + 1..];
      CutAndMark(c[..i], c[i + 1..], mark);
      NoSpaces(c[..i]);
      NoSpaces(c[i + 1..]);
      FirstFieldBeforeSpace(c[..i], c[i + 1..]);
    } else {
      var t := c[j + 1..i] + " " + c[i + 1..];
      assert c == c[..j] + " " + t;
      CutAndMark(c[..j], t, mark);
      SpacesOfPieces(c[j + 1..i], c[i + 1..]);
    }
  }

  /** The loop's condition for never ending: it has to shrink, and even the fixed point is too long. */
  predicate LoopsForever(cost: Cost, content: string, mark: string, budget: int) {
    TooLong(cost, content, budget) && cost(Bottom(content, mark)) > budget
  }

  /** The text after `n` steps; a text without a space stays. */
  ghost function Iterate(content: string, mark: string, n: nat): string {
    if n == 0 then content else
      var c := Iterate(content, mark, n - 1);
      if ' ' in c then Shrink(c, mark) else c
  }

  /** The fixed point is the cheapest of the marked texts that share a first field. */
  ghost predicate BottomIsCheapest(cost: Cost, mark: string) {
    forall h: string :: cost(Bottom(WithMark(h, mark), mark)) <= cost(WithMark(h, mark))
  }

  lemma {:induction false} ForeverTooLong(cost: Cost, content: string, mark: string, budget: int, n: nat)
    requires ' ' !in mark && BottomIsCheapest(cost, mark) && LoopsForever(cost, content, mark, budget)
    ensures LoopsForever(cost, Iterate(content, mark, n), mark, budget)
    decreases n
  {
    if n > 0 {
      ForeverTooLong(cost, content, mark, budget, n - 1);
      var c := Iterate(content, mark, n - 1);
      ShrinkStep(c, mark);
      assert Shrink(c, mark) == WithMark(BeforeLastSpaces(c), mark);
    }
  }

  function Measure(content: string, mark: string): nat {
    2 * Spaces(content) + if content == Bottom(content, mark) then 0 else 1
  }

  lemma MeasureDecreases(cost: Cost, content: string, mark: string, budget: int)
    requires ' ' !in mark && TooLong(cost, content, budget) && !LoopsForever(cost, content, mark, budget)
    ensures Measure(Shrink(content, mark), mark) < Measure(content, mark)
    ensures !LoopsForever(cost, Shrink(content, mark), mark, budget)
  {
    ShrinkStep(content, mark);
  }

  lemma {:induction false} IterateShifts(content: string, mark: string, n: nat)
    requires ' ' in content
    ensures Iterate(Shrink(content, mark), mark, n) == Iterate(content, mark, n + 1)
    decreases n
  {
    if n > 0 {
      IterateShifts(content, mark, n - 1);
    }
  }

  lemma {:induction false} EventuallyShort(cost: Cost, content: string, mark: string, budget: int) returns (n: nat)
    requires ' ' !in mark && !LoopsForever(cost, content, mark, budget)
    ensures !TooLong(cost, Iterate(content, mark, n), budget)
    decreases Measure(content, mark)
  {
    n := 0;
    if TooLong(cost, content, budget) {
      MeasureDecreases(cost, content, mark, budget);
      var next := Shrink(content, mark);
      var m := EventuallyShort(cost, next, mark, budget);
      IterateShifts(content, mark, m);
      n := m + 1;
    }
  }

  /** The loop ends exactly when it need not run, or its fixed point is within budget. */
  lemma LoopEndsIff(cost: Cost, content: string, mark: string, budget: int)
    requires ' ' !in mark && BottomIsCheapest(cost, mark)
    ensures (exists n: nat :: !TooLong(cost, Iterate(content, mark, n), budget))
       <==> !LoopsForever(cost, content, mark, budget)
  {
    if LoopsForever(cost, content, mark, budget) {
      forall n: nat ensures TooLong(cost, Iterate(content, mark, n), budget) {
        ForeverTooLong(cost, content, mark, budget, n);
      }
    } else {
      var n := EventuallyShort(cost, content, mark, budget);
    }
  }

  /** What the loop ends with. */
  function Shrunk(cost: Cost, content: string, mark: string, budget: int): (r: string)
    requires ' ' !in mark && !LoopsForever(cost, content, mark, budget)
    ensures !TooLong(cost, r, budget)
    decreases Measure(content, mark)
  {
    if TooLong(cost, content, budget) then
      MeasureDecreases(cost, content, mark, budget);
      Shrunk(cost, Shrink(content, mark), mark, budget)
    else content
  }
}
