/**
 What the recursive splitter answers, without its own search for a separator: where a text is cut, and how
 the pieces are grouped into chunks.
 */
module SplitterGuarantees {
  import opened Options
  import opened Text
  import opened RecursiveSplitter

  predicate Occurs(part: string, text: string) {
    exists i :: 0 <= i <= |text| && OccursAt(text, part, i)
  }

  // ---- where a text is cut ----------------------------------------------------------------------------

  /**
   The pieces of a text between the occurrences of a separator, read from the left: put together again they
   are the text, and a separator does not occur in a piece nor begin in it.
   */
  ghost predicate IsCut(text: string, sep: string, pieces: seq<string>) {
    && pieces != [] && JoinWith(pieces, sep) == text
    && (forall k :: 0 <= k < |pieces| - 1 ==> BeginsAtEnd(pieces[k], sep))
    && !Occurs(sep, pieces[|pieces| - 1])
  }

  /** In the piece followed by the separator, the separator does not begin earlier than behind the piece. */
  ghost predicate BeginsAtEnd(piece: string, sep: string) {
    forall i: nat :: OccursAt(piece + sep, sep, i) ==> i >= |piece|
  }

  lemma EarlierOccurrence(piece: string, sep: string, rest: string, i: nat)
    requires i < |piece|
    ensures OccursAt(piece + sep + rest, sep, i) <==> OccursAt(piece + sep, sep, i)
  {
    assert i + |sep| <= |piece + sep| ==> (piece + sep + rest)[i..i + |sep|] == (piece + sep)[i..i + |sep|];
  }

  lemma {:induction false} SplitOnIsCut(text: string, sep: string)
    requires sep != ""
    ensures IsCut(text, sep, SplitOn(text, sep))
    decreases |text|
  {
    JoinSplit(text, sep);
    var r := Find(text, sep, 0);
    if r.Some? {
      var piece, rest := text[..r.value], text[r.value + |sep|..];
      SplitOnIsCut(rest, sep);
      assert text == piece + sep + rest;
      forall i: nat | OccursAt(piece + sep, sep, i) ensures i >= |piece| {
        if i < |piece| {
          EarlierOccurrence(piece, sep, rest, i);
        }
      }
      var pieces := SplitOn(text, sep);
      assert pieces[1..] == SplitOn(rest, sep) && pieces[0] == piece;
      assert forall k :: 1 <= k < |pieces| ==> pieces[k] == SplitOn(rest, sep)[k - 1];
    }
  }

  /** A text is cut in one way only. */
  lemma {:induction false} CutIsUnique(text: string, sep: string, pieces: seq<string>)
    requires sep != "" && IsCut(text, sep, pieces)
    ensures pieces == SplitOn(text, sep)
    decreases |pieces|
  {
    var r := Find(text, sep, 0);
    if |pieces| == 1 {
      assert pieces == [text];
    } else {
      var piece, others := pieces[0], pieces[1..];
      var rest := JoinWith(others, sep);
      assert text == piece + sep + rest;
      assert OccursAt(text, sep, |piece|);
      forall i: nat | OccursAt(text, sep, i) ensures i >= |piece| {
        assert BeginsAtEnd(pieces[0], sep);
        if i < |piece| {
          EarlierOccurrence(piece, sep, rest, i);
        }
      }
      assert r == Some(|piece|) && text[..|piece|] == piece && text[|piece| + |sep|..] == rest;
      assert forall k :: 0 <= k < |others| ==> others[k] == pieces[k + 1];
      CutIsUnique(rest, sep, others);
    }
  }

  lemma FoundIffOccurs(text: string, part: string)
    ensures Find(text, part, 0).Some? <==> Occurs(part, text)
  {
  }

  lemma ChosenIs(text: string, separators: seq<string>, k: nat)
    requires k < |separators| && (separators[k] == "" || Occurs(separators[k], text))
    requires forall j :: 0 <= j < k ==> separators[j] != "" && !Occurs(separators[j], text)
    ensures Choose(text, separators) == separators[k]
  {
    ChosenFrom(text, separators, k, 0);
  }

  lemma {:induction false} ChosenFrom(text: string, separators: seq<string>, k: nat, from: nat)
    requires from <= k < |separators| && (separators[k] == "" || Occurs(separators[k], text))
    requires forall j :: 0 <= j < k ==> separators[j] != "" && !Occurs(separators[j], text)
    ensures ChooseFrom(text, separators, from) == separators[k]
    decreases k - from
  {
    if from < k {
      FoundIffOccurs(text, separators[from]);
      ChosenFrom(text, separators, k, from + 1);
    }
  }

  /** The pieces grouped into chunks, the larger ones cut with what comes after the first separator. */
  function CutAndPacked(text: string, sep: string, size: int): seq<string> {
    Pack(if sep == "" then Characters(text) else SplitOn(text, sep), sep, "", ["\n\n", "\n", ". ", " ", ""], size)
  }

  /**
   A text within the size is its own only chunk. A longer one is cut at its paragraph breaks if it has any,
   otherwise at its line breaks, at the ends of its sentences, at its spaces, and else into characters.
   */
  lemma CutAtFirstSeparator(text: string, size: int)
    ensures var chunks := Chunks(text, SEPARATORS, size);
            chunks == if |text| <= size then [text]
                      else if Occurs("\n\n", text) then CutAndPacked(text, "\n\n", size)
                      else if Occurs("\n", text) then CutAndPacked(text, "\n", size)
                      else if Occurs(". ", text) then CutAndPacked(text, ". ", size)
                      else if Occurs(" ", text) then CutAndPacked(text, " ", size)
                      else CutAndPacked(text, "", size)
  {
    if |text| > size {
      var k := if Occurs("\n\n", text) then 0 else if Occurs("\n", text) then 1 else if Occurs(". ", text) then 2
               else if Occurs(" ", text) then 3 else 4;
      ChosenIs(text, SEPARATORS, k);
    }
  }

  // ---- how the pieces are grouped -----------------------------------------------------------------------

  /**
   The first chunk joins the pieces from `lo` up to `hi`: only empty pieces stand before them, and the next
   piece would not have fitted any more.
   */
  ghost predicate IsFirstGroup(pieces: seq<string>, sep: string, chunk: string, size: int, lo: nat, hi: nat) {
    && lo < hi <= |pieces|
    && (forall k :: 0 <= k < lo ==> pieces[k] == "") && pieces[lo] != ""
    && chunk == JoinWith(pieces[lo..hi], sep) && |chunk| <= size
    && (hi < |pieces| ==> |chunk| + |sep| + |pieces[hi]| > size)
  }

  /** The chunks are the pieces in groups, each as large as the size allows. */
  ghost predicate IsGrouping(pieces: seq<string>, sep: string, chunks: seq<string>, size: int)
    decreases |chunks|
  {
    if chunks == [] then forall k :: 0 <= k < |pieces| ==> pieces[k] == ""
    else exists lo: nat, hi: nat :: IsFirstGroup(pieces, sep, chunks[0], size, lo, hi)
                                    && IsGrouping(pieces[hi..], sep, chunks[1..], size)
  }

  lemma {:induction false} JoinAppend(pieces: seq<string>, sep: string, last: string)
    requires pieces != []
    ensures JoinWith(pieces + [last], sep) == JoinWith(pieces, sep) + sep + last
    decreases |pieces|
  {
    var all := pieces + [last];
    if |pieces| == 1 {
      assert all[1..] == [last];
    } else {
      JoinAppend(pieces[1..], sep, last);
      assert all[1..] == pieces[1..] + [last];
      var rest := JoinWith(pieces[1..], sep);
      assert JoinWith(all, sep) == pieces[0] + sep + (rest + sep + last);
    }
  }

  /** From an open chunk on: it takes the next pieces as long as they fit, and the others are grouped. */
  lemma {:induction false} OpenGroup(all: seq<string>, lo: nat, n: nat, sep: string, separators: seq<string>, size: int)
    requires lo < n <= |all| && AllWithin(all, size) && all[lo] != "" && |JoinWith(all[lo..n], sep)| <= size
    requires forall k :: 0 <= k < lo ==> all[k] == ""
    ensures JoinWith(all[lo..n], sep) != ""
    ensures IsGrouping(all, sep, Pack(all[n..], sep, JoinWith(all[lo..n], sep), separators, size), size)
    decreases |all| - lo, |all| - n
  {
    var current := JoinWith(all[lo..n], sep);
    assert all[lo..n][0] == all[lo] && |current| >= |all[lo]|;
    if n == |all| {
      assert IsFirstGroup(all, sep, current, size, lo, n);
      assert all[n..] == [];
      GroupThen(all, sep, current, [], size, lo, n);
    } else {
      var split := all[n];
      assert all[n..][0] == split && all[n..][1..] == all[n + 1..];
      assert all[lo..n + 1] == all[lo..n] + [split];
      JoinAppend(all[lo..n], sep, split);
      if |current + sep + split| <= size {
        OpenGroup(all, lo, n + 1, sep, separators, size);
      } else {
        var rest := all[n..];
        assert AllWithin(rest, size);
        Fresh(rest, 1, sep, separators, size);
        var chunks := Pack(rest[1..], sep, rest[0], separators, size);
        assert IsFirstGroup(all, sep, current, size, lo, n);
        GroupThen(all, sep, current, chunks, size, lo, n);
      }
    }
  }

  lemma GroupThen(all: seq<string>, sep: string, current: string, chunks: seq<string>, size: int, lo: nat, hi: nat)
    requires IsFirstGroup(all, sep, current, size, lo, hi) && IsGrouping(all[hi..], sep, chunks, size)
    ensures IsGrouping(all, sep, [current] + chunks, size)
  {
    var xs := [current] + chunks;
    assert xs[0] == current && xs[1..] == chunks;
    assert IsFirstGroup(all, sep, xs[0], size, lo, hi) && IsGrouping(all[hi..], sep, xs[1..], size);
  }

  /** The next piece opens a chunk, unless it is empty. */
  lemma {:induction false} Fresh(all: seq<string>, n: nat, sep: string, separators: seq<string>, size: int)
    requires 1 <= n <= |all| && AllWithin(all, size)
    requires forall k :: 0 <= k < n - 1 ==> all[k] == ""
    ensures IsGrouping(all, sep, Pack(all[n..], sep, all[n - 1], separators, size), size)
    decreases |all| - n + 1, |all|
  {
    if all[n - 1] != "" {
      assert all[n - 1..n] == [all[n - 1]];
      OpenGroup(all, n - 1, n, sep, separators, size);
    } else if n < |all| {
      assert all[n..][0] == all[n] && all[n..][1..] == all[n + 1..];
      Fresh(all, n + 1, sep, separators, size);
    }
  }

  /** Pieces within the size are grouped greedily. */
  lemma PackIsGrouping(pieces: seq<string>, sep: string, separators: seq<string>, size: int)
    requires AllWithin(pieces, size)
    ensures IsGrouping(pieces, sep, Pack(pieces, sep, "", separators, size), size)
  {
    if pieces != [] {
      Fresh(pieces, 1, sep, separators, size);
    }
  }

  /** There is only one such grouping. */
  lemma {:induction false} GroupingIsUnique(pieces: seq<string>, sep: string, a: seq<string>, b: seq<string>, size: int)
    requires IsGrouping(pieces, sep, a, size) && IsGrouping(pieces, sep, b, size)
    ensures a == b
    decreases |a|
  {
    if a != [] && b != [] {
      var lo: nat, hi: nat :| IsFirstGroup(pieces, sep, a[0], size, lo, hi) && IsGrouping(pieces[hi..], sep, a[1..], size);
      var lo': nat, hi': nat :| IsFirstGroup(pieces, sep, b[0], size, lo', hi') && IsGrouping(pieces[hi'..], sep, b[1..], size);
      assert lo == lo';
      FirstGroupUnique(pieces, sep, a[0], b[0], size, lo, hi, hi');
      GroupingIsUnique(pieces[hi..], sep, a[1..], b[1..], size);
      assert a == [a[0]] + a[1..] && b == [b[0]] + b[1..];
    }
  }

  lemma FirstGroupUnique(pieces: seq<string>, sep: string, a: string, b: string, size: int, lo: nat, hi: nat, hi': nat)
    requires IsFirstGroup(pieces, sep, a, size, lo, hi) && IsFirstGroup(pieces, sep, b, size, lo, hi')
    ensures hi == hi' && a == b
  {
    if hi < hi' {
      LongerGroup(pieces, sep, lo, hi, hi');
    } else if hi' < hi {
      LongerGroup(pieces, sep, lo, hi', hi);
    }
  }

  lemma {:induction false} LongerGroup(pieces: seq<string>, sep: string, lo: nat, hi: nat, hi': nat)
    requires lo < hi < hi' <= |pieces|
    ensures |JoinWith(pieces[lo..hi'], sep)| >= |JoinWith(pieces[lo..hi], sep)| + |sep| + |pieces[hi]|
    decreases hi'
  {
    JoinAppend(pieces[lo..hi' - 1], sep, pieces[hi' - 1]);
    assert pieces[lo..hi'] == pieces[lo..hi' - 1] + [pieces[hi' - 1]];
    if hi < hi' - 1 {
      LongerGroup(pieces, sep, lo, hi, hi' - 1);
    }
  }

  /** Two neighbouring chunks do not fit together with the separator between them. */
  lemma {:induction false} NeighboursDoNotFit(pieces: seq<string>, sep: string, chunks: seq<string>, size: int, k: nat)
    requires IsGrouping(pieces, sep, chunks, size) && k + 1 < |chunks|
    ensures |chunks[k]| <= size && |chunks[k]| + |sep| + |chunks[k + 1]| > size
    decreases |chunks|
  {
    var lo: nat, hi: nat :| IsFirstGroup(pieces, sep, chunks[0], size, lo, hi) && IsGrouping(pieces[hi..], sep, chunks[1..], size);
    if k > 0 {
      NeighboursDoNotFit(pieces[hi..], sep, chunks[1..], size, k - 1);
    } else {
      var rest := pieces[hi..];
      var lo': nat, hi': nat :| IsFirstGroup(rest, sep, chunks[1..][0], size, lo', hi')
                                && IsGrouping(rest[hi'..], sep, chunks[1..][1..], size);
      assert rest[0] == pieces[hi];
      if lo' == 0 {
        assert rest[0..hi'][0] == rest[0];
      }
    }
  }

  predicate IsChosen(text: string, sep: string) {
    || (sep == "\n\n" && Occurs("\n\n", text))
    || (sep == "\n" && Occurs("\n", text) && !Occurs("\n\n", text))
    || (sep == ". " && Occurs(". ", text) && !Occurs("\n", text) && !Occurs("\n\n", text))
    || (sep == " " && Occurs(" ", text) && !Occurs(". ", text) && !Occurs("\n", text) && !Occurs("\n\n", text))
  }

  /**
   A long text whose pieces at the first separator that occurs are all within the size: its chunks are those
   pieces in greedy groups, so no two neighbours fit together.
   */
  lemma ChunksAreGroups(text: string, sep: string, pieces: seq<string>, size: int)
    requires |text| > size && IsChosen(text, sep) && IsCut(text, sep, pieces) && AllWithin(pieces, size)
    ensures IsGrouping(pieces, sep, Chunks(text, SEPARATORS, size), size)
    ensures var chunks := Chunks(text, SEPARATORS, size);
            forall k :: 0 <= k < |chunks| - 1 ==> |chunks[k]| + |sep| + |chunks[k + 1]| > size
  {
    CutIsUnique(text, sep, pieces);
    CutAtFirstSeparator(text, size);
    PackIsGrouping(pieces, sep, ["\n\n", "\n", ". ", " ", ""], size);
    var chunks := Chunks(text, SEPARATORS, size);
    assert chunks == CutAndPacked(text, sep, size);
    forall k | 0 <= k < |chunks| - 1 ensures |chunks[k]| + |sep| + |chunks[k + 1]| > size {
      NeighboursDoNotFit(pieces, sep, chunks, size, k);
    }
  }

  /** A text of one long word is cut into slices of the size. */
  lemma LongWordIsSliced(text: string, size: int)
    requires |text| > size >= 1 && !Occurs("\n\n", text) && !Occurs("\n", text) && !Occurs(". ", text) && !Occurs(" ", text)
    ensures IsGrouping(Characters(text), "", Chunks(text, SEPARATORS, size), size)
  {
    CutAtFirstSeparator(text, size);
    PackIsGrouping(Characters(text), "", ["\n\n", "\n", ". ", " ", ""], size);
  }

  /** A first piece that is too large is cut with the separators behind the first one of the list, whichever was found. */
  lemma LongFirstPiece(text: string, sep: string, pieces: seq<string>, size: int)
    requires |text| > size && IsChosen(text, sep) && IsCut(text, sep, pieces) && |pieces[0]| > size && pieces[0] != ""
    ensures Chunks(pieces[0], ["\n", ". ", " ", ""], size) <= Chunks(text, SEPARATORS, size)
  {
    CutIsUnique(text, sep, pieces);
    CutAtFirstSeparator(text, size);
    assert SEPARATORS[1..] == ["\n", ". ", " ", ""];
  }
}
