/** Ranking by score, highest first, as Python's stable sort with `reverse=True` does it. */
module Ranking {

  datatype Scored = Scored(score: real, index: nat)

  /** A comes before b: a higher score, or the same score and an earlier position. */
  predicate Ahead(a: Scored, b: Scored) {
    a.score > b.score || (a.score == b.score && a.index < b.index)
  }

  ghost predicate Ranked(s: seq<Scored>) {
    forall i, j :: 0 <= i < j < |s| ==> Ahead(s[i], s[j])
  }

  /** Insert an element that comes later in the list than all those in `s`. */
  function Insert(s: seq<Scored>, x: Scored): seq<Scored> {
    if s == [] || s[|s| - 1].score >= x.score then s + [x] else Insert(s[..|s| - 1], x) + [s[|s| - 1]]
  }

  function SortDescending(s: seq<Scored>): seq<Scored> {
    if s == [] then [] else Insert(SortDescending(s[..|s| - 1]), s[|s| - 1])
  }

  lemma {:induction false} InsertMembers(s: seq<Scored>, x: Scored)
    ensures multiset(Insert(s, x)) == multiset(s) + multiset{x}
    decreases |s|
  {
    if s != [] && s[|s| - 1].score < x.score {
      InsertMembers(s[..|s| - 1], x);
      assert s == s[..|s| - 1] + [s[|s| - 1]];
    }
  }

  lemma RankedAppend(s: seq<Scored>, x: Scored)
    requires Ranked(s) && forall i :: 0 <= i < |s| ==> Ahead(s[i], x)
    ensures Ranked(s + [x])
  {
  }

  lemma {:induction false} InsertRanks(s: seq<Scored>, x: Scored)
    requires Ranked(s) && forall i :: 0 <= i < |s| ==> s[i].index < x.index
    ensures Ranked(Insert(s, x))
    decreases |s|
  {
    if s != [] && s[|s| - 1].score < x.score {
      var front, last := s[..|s| - 1], s[|s| - 1];
      InsertRanks(front, x);
      InsertMembers(front, x);
      var r := Insert(front, x);
      forall i | 0 <= i < |r| ensures Ahead(r[i], last) {
        assert r[i] in multiset(r);
        if r[i] != x {
          assert r[i] in front;
        }
      }
      RankedAppend(r, last);
    } else {
      forall i | 0 <= i < |s| ensures Ahead(s[i], x) {
        assert i < |s| - 1 ==> Ahead(s[i], s[|s| - 1]);
      }
      RankedAppend(s, x);
    }
  }

  ghost predicate InListOrder(s: seq<Scored>) {
    forall i, j :: 0 <= i < j < |s| ==> s[i].index < s[j].index
  }

  lemma {:induction false} SortRanks(s: seq<Scored>)
    requires InListOrder(s)
    ensures Ranked(SortDescending(s)) && multiset(SortDescending(s)) == multiset(s)
    decreases |s|
  {
    if s != [] {
      var front, last := s[..|s| - 1], s[|s| - 1];
      SortRanks(front);
      assert s == front + [last];
      var sorted := SortDescending(front);
      forall i | 0 <= i < |sorted| ensures sorted[i].index < last.index {
        assert sorted[i] in multiset(sorted);
        assert sorted[i] in front;
      }
      InsertRanks(sorted, last);
      InsertMembers(sorted, last);
    }
  }

  function AtLeast(s: seq<Scored>, minScore: real): seq<Scored> {
    if s == [] then [] else (if s[0].score >= minScore then [s[0]] else []) + AtLeast(s[1..], minScore)
  }

  function Take(s: seq<Scored>, k: nat): seq<Scored> {
    if |s| <= k then s else s[..k]
  }

  /** The index's answer: everything at or above the threshold among the best, at most `k` of them. */
  function Search(scores: seq<Scored>, k: nat, minScore: real): seq<Scored> {
    Take(AtLeast(SortDescending(scores), minScore), k)
  }

  lemma {:induction false} AtLeastMembers(s: seq<Scored>, minScore: real, x: Scored)
    ensures x in AtLeast(s, minScore) <==> x in s && x.score >= minScore
    decreases |s|
  {
    if s != [] {
      AtLeastMembers(s[1..], minScore, x);
      assert x in s <==> x == s[0] || x in s[1..];
    }
  }

  lemma {:induction false} AtLeastRanked(s: seq<Scored>, minScore: real)
    requires Ranked(s)
    ensures Ranked(AtLeast(s, minScore))
    decreases |s|
  {
    if s != [] {
      AtLeastRanked(s[1..], minScore);
      var rest := AtLeast(s[1..], minScore);
      forall i | 0 <= i < |rest| ensures Ahead(s[0], rest[i]) {
        AtLeastMembers(s[1..], minScore, rest[i]);
        var j :| 0 <= j < |s[1..]| && s[1..][j] == rest[i];
        assert s[j + 1] == rest[i];
      }
    }
  }

  /** Cutting a ranked list keeps what is ahead of everything cut off. */
  lemma TakeIsTop(kept: seq<Scored>, k: nat, x: Scored)
    requires Ranked(kept)
    ensures var r := Take(kept, k);
            && Ranked(r) && |r| <= k && (x in r ==> x in kept)
            && (x in kept && x !in r ==> |r| == k && forall y :: y in r ==> Ahead(y, x))
  {
    var r := Take(kept, k);
    if x in kept && x !in r {
      var j :| 0 <= j < |kept| && kept[j] == x;
      assert forall i :: 0 <= i < |r| ==> r[i] == kept[i] && r[i] in r;
      assert j >= k;
    }
  }

  lemma SortMembers(scores: seq<Scored>, minScore: real, x: Scored)
    requires InListOrder(scores)
    ensures x in AtLeast(SortDescending(scores), minScore) <==> x in scores && x.score >= minScore
  {
    SortRanks(scores);
    AtLeastMembers(SortDescending(scores), minScore, x);
    assert x in SortDescending(scores) <==> x in multiset(SortDescending(scores));
    assert x in scores <==> x in multiset(scores);
  }

  /**
   The answer is ranked, holds qualifying entries only, and leaves a qualifying entry out only when it is
   full and everything in it is ahead of that entry.
   */
  lemma SearchIsTopK(scores: seq<Scored>, k: nat, minScore: real)
    requires InListOrder(scores)
    ensures var r := Search(scores, k, minScore);
            && Ranked(r) && |r| <= k
            && (forall i, j :: 0 <= i < j < |r| ==>
                  r[i].score > r[j].score || (r[i].score == r[j].score && r[i].index < r[j].index))
            && (forall x :: x in r ==> x in scores && x.score >= minScore)
            && (forall x :: x in scores && x.score >= minScore && x !in r ==>
                  |r| == k && forall y :: y in r ==> y.score > x.score || (y.score == x.score && y.index < x.index))
  {
    SortRanks(scores);
    var kept := AtLeast(SortDescending(scores), minScore);
    AtLeastRanked(SortDescending(scores), minScore);
    TakeIsTop(kept, k, Scored(0.0, 0));
    var r := Search(scores, k, minScore);
    forall x | x in r ensures x in scores && x.score >= minScore {
      SortMembers(scores, minScore, x);
      TakeIsTop(kept, k, x);
    }
    forall x | x in scores && x.score >= minScore && x !in r
      ensures |r| == k && forall y :: y in r ==> Ahead(y, x)
    {
      SortMembers(scores, minScore, x);
      TakeIsTop(kept, k, x);
    }
  }

  /** The positive scores, best first, ties in list order; one is left out only when `k` others are ahead of it. */
  ghost predicate IsTopPositive(scores: seq<real>, k: nat, r: seq<Scored>) {
    && |r| <= k
    && (forall i, j :: 0 <= i < j < |r| ==>
          r[i].score > r[j].score || (r[i].score == r[j].score && r[i].index < r[j].index))
    && (forall x :: x in r ==> x.index < |scores| && scores[x.index] == x.score > 0.0)
    && forall i: nat :: i < |scores| && scores[i] > 0.0 && Scored(scores[i], i) !in r ==>
         |r| == k && forall y :: y in r ==> y.score > scores[i] || (y.score == scores[i] && y.index < i)
  }

  /** The RAG query keeps positive scores only, before sorting. */
  method TopPositive(scores: seq<real>, k: nat) returns (r: seq<Scored>)
    ensures IsTopPositive(scores, k, r)
  {
    var kept: seq<Scored> := [];
    var n := 0;
    while n < |scores|
      invariant n <= |scores| && InListOrder(kept)
      invariant forall x :: x in kept ==> x.index < n && scores[x.index] == x.score > 0.0
      invariant forall i: nat :: i < n && scores[i] > 0.0 ==> Scored(scores[i], i) in kept
    {
      if scores[n] > 0.0 {
        assert forall i :: 0 <= i < |kept| ==> kept[i] in kept;
        kept := kept + [Scored(scores[n], n)];
      }
      n := n + 1;
    }
    SearchIsTopK(kept, k, 0.0);
    KeepsAll(SortDescending(kept), 0.0);
    SortRanks(kept);
    forall x | x in SortDescending(kept) ensures x.score >= 0.0 {
      assert x in multiset(SortDescending(kept));
      assert x in kept;
    }
    KeepsAll(SortDescending(kept), 0.0);
    r := Take(SortDescending(kept), k);
    assert r == Search(kept, k, 0.0);
  }

  lemma {:induction false} KeepsAll(s: seq<Scored>, minScore: real)
    ensures (forall x :: x in s ==> x.score >= minScore) ==> AtLeast(s, minScore) == s
    decreases |s|
  {
    if s != [] {
      KeepsAll(s[1..], minScore);
    }
  }
}
