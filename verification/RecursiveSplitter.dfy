/**
 The recursive text splitter: split on the first separator that occurs, merge neighbouring pieces up to
 the chunk size, and recurse with the remaining separators into a piece that is too large.
 */
module RecursiveSplitter {
  import opened Options
  import opened Text

  /** The separators in order of priority; the empty one splits into characters. */
  const SEPARATORS: seq<string> := ["\n\n", "\n", ". ", " ", ""]

  function SplitOn(text: string, sep: string): seq<string>
    requires sep != ""
    decreases |text|
  {
    match Find(text, sep, 0)
    case None => [text]
    case Some(i) => [text[..i]] + SplitOn(text[i + |sep|..], sep)
  }

  function Characters(text: string): seq<string> {
    seq(|text|, i requires 0 <= i < |text| => [text[i]])
  }

  function Pieces(text: string, sep: string): seq<string> {
    if sep == "" then Characters(text) else SplitOn(text, sep)
  }

  function JoinWith(pieces: seq<string>, sep: string): string {
    if pieces == [] then "" else if |pieces| == 1 then pieces[0] else pieces[0] + sep + JoinWith(pieces[1..], sep)
  }

  /** The first separator that occurs, the empty one always occurring; the first of all if none does. */
  function ChooseFrom(text: string, separators: seq<string>, k: nat): string
    requires k <= |separators|
    decreases |separators| - k
  {
    if k == |separators| then (if separators == [] then "" else separators[0])
    else if separators[k] == "" || Find(text, separators[k], 0).Some? then separators[k]
    else ChooseFrom(text, separators, k + 1)
  }

  function Choose(text: string, separators: seq<string>): string {
    ChooseFrom(text, separators, 0)
  }

  function Merged(current: string, sep: string, split: string): string {
    if current != "" then current + sep + split else split
  }

  /** The chunks of a text. */
  function Chunks(text: string, separators: seq<string>, size: int): seq<string>
    decreases |separators|, 1, 0
  {
    if |text| <= size then [text] else
      var sep := Choose(text, separators);
      Pack(Pieces(text, sep), sep, "", separators, size)
  }

  /** The chunks still to come when `current` is open and `pieces` are left. */
  function Pack(pieces: seq<string>, sep: string, current: string, separators: seq<string>, size: int): seq<string>
    decreases |separators|, 0, |pieces|
  {
    if pieces == [] then
      if current != "" then [current] else []
    else
      var split := pieces[0];
      if |Merged(current, sep, split)| <= size then
        Pack(pieces[1..], sep, Merged(current, sep, split), separators, size)
      else if current != "" then
        [current] + Pack(pieces[1..], sep, split, separators, size)
      else
        (if |separators| > 1 then Chunks(split, separators[1..], size) else [split])
        + Pack(pieces[1..], sep, "", separators, size)
  }

  method SplitText(text: string, size: int) returns (chunks: seq<string>)
    ensures chunks == Chunks(text, ["\n\n", "\n", ". ", " ", ""], size)
    ensures |text| <= size ==> chunks == [text]
  {
    chunks := SplitRecursive(text, SEPARATORS, size);
  }

  method SplitRecursive(text: string, separators: seq<string>, size: int) returns (chunks: seq<string>)
    ensures chunks == Chunks(text, separators, size)
    decreases |separators|
  {
    if |text| <= size {
      return [text];
    }
    var sep := ChooseSeparator(text, separators);
    var splits := Pieces(text, sep);
    chunks := [];
    var current := "";
    var k := 0;
    ghost var rest := splits;
    while k < |splits|
      invariant k <= |splits| && rest == splits[k..]
      invariant Pack(splits, sep, "", separators, size) == chunks + Pack(rest, sep, current, separators, size)
    {
      var split := splits[k];
      var merged := if current != "" then current + sep + split else split;
      assert rest[0] == split && merged == Merged(current, sep, split);
      rest := rest[1..];
      if |merged| > size {
        if current != "" {
          Regroup(chunks, [current], Pack(rest, sep, split, separators, size));
          chunks := chunks + [current];
          current := split;
        } else if |separators| > 1 {
          var sub := SplitRecursive(split, separators[1..], size);
          Regroup(chunks, sub, Pack(rest, sep, "", separators, size));
          chunks := chunks + sub;
        } else {
          Regroup(chunks, [split], Pack(rest, sep, "", separators, size));
          chunks := chunks + [split];
        }
      } else {
        current := merged;
      }
      k := k + 1;
    }
    if current != "" {
      chunks := chunks + [current];
    }
  }

  method ChooseSeparator(text: string, separators: seq<string>) returns (sep: string)
    ensures sep == Choose(text, separators)
  {
    sep := if separators == [] then "" else separators[0];
    var k := 0;
    while k < |separators|
      invariant k <= |separators| && sep == (if separators == [] then "" else separators[0])
      invariant Choose(text, separators) == ChooseFrom(text, separators, k)
    {
      if separators[k] == "" || Find(text, separators[k], 0).Some? {
        return separators[k];
      }
      k := k + 1;
    }
  }

  // ---- splitting loses nothing --------------------------------------------------------------------

  lemma {:induction false} JoinSplit(text: string, sep: string)
    requires sep != ""
    ensures SplitOn(text, sep) != [] && JoinWith(SplitOn(text, sep), sep) == text
    decreases |text|
  {
    var r := Find(text, sep, 0);
    if r.Some? {
      var i := r.value;
      var rest := text[i + |sep|..];
      JoinSplit(rest, sep);
      assert SplitOn(text, sep)[1..] == SplitOn(rest, sep);
      assert text == text[..i] + sep + rest;
    }
  }

  lemma {:induction false} JoinCharacters(text: string)
    ensures JoinWith(Characters(text), "") == text
    decreases |text|
  {
    if |text| > 1 {
      JoinCharacters(text[1..]);
      assert Characters(text)[1..] == Characters(text[1..]);
      assert text == [text[0]] + "" + text[1..];
    }
  }

  lemma JoinPieces(text: string, sep: string)
    ensures JoinWith(Pieces(text, sep), sep) == text
  {
    if sep == "" {
      JoinCharacters(text);
    } else {
      JoinSplit(text, sep);
    }
  }

  // ---- the chunks within the text -----------------------------------------------------------------

  predicate IsSeparator(c: char, separators: seq<string>) {
    exists k :: 0 <= k < |separators| && c in separators[k]
  }

  ghost predicate IsGap(s: string, separators: seq<string>) {
    forall i :: 0 <= i < |s| ==> IsSeparator(s[i], separators)
  }

  /** `chunk` stands in `text` at `k`, behind separator characters only. */
  ghost predicate StandsAt(text: string, chunk: string, k: nat, separators: seq<string>) {
    k + |chunk| <= |text| && text[k..k + |chunk|] == chunk && IsGap(text[..k], separators)
  }

  /** The chunks are disjoint substrings of the text, in order, and only separator characters lie around them. */
  ghost predicate InOrder(text: string, chunks: seq<string>, separators: seq<string>)
    decreases |chunks|
  {
    if chunks == [] then IsGap(text, separators) else
      exists k: nat :: StandsAt(text, chunks[0], k, separators) && InOrder(text[k + |chunks[0]|..], chunks[1..], separators)
  }

  lemma GapAppend(a: string, b: string, separators: seq<string>)
    requires IsGap(a, separators) && IsGap(b, separators)
    ensures IsGap(a + b, separators)
  {
  }

  lemma StandsBehindGap(gap: string, text: string, chunk: string, k: nat, separators: seq<string>)
    requires IsGap(gap, separators) && StandsAt(text, chunk, k, separators)
    ensures StandsAt(gap + text, chunk, |gap| + k, separators)
    ensures (gap + text)[|gap| + k + |chunk|..] == text[k + |chunk|..]
  {
    var all := gap + text;
    GapAppend(gap, text[..k], separators);
    assert all[..|gap| + k] == gap + text[..k];
    assert all[|gap| + k..|gap| + k + |chunk|] == text[k..k + |chunk|];
  }

  lemma GapThenInOrder(gap: string, text: string, chunks: seq<string>, separators: seq<string>)
    requires IsGap(gap, separators) && InOrder(text, chunks, separators)
    ensures InOrder(gap + text, chunks, separators)
  {
    if chunks == [] {
      GapAppend(gap, text, separators);
    } else {
      var k: nat :| StandsAt(text, chunks[0], k, separators) && InOrder(text[k + |chunks[0]|..], chunks[1..], separators);
      StandsBehindGap(gap, text, chunks[0], k, separators);
    }
  }

  lemma ChunkThenInOrder(chunk: string, text: string, chunks: seq<string>, separators: seq<string>)
    requires InOrder(text, chunks, separators)
    ensures InOrder(chunk + text, [chunk] + chunks, separators)
  {
    var all, xs, k: nat := chunk + text, [chunk] + chunks, 0;
    assert all[k + |xs[0]|..] == text && xs[1..] == chunks;
    assert StandsAt(all, xs[0], k, separators);
  }

  /** A lone chunk covers itself. */
  lemma ChunkInOrder(chunk: string, separators: seq<string>)
    ensures InOrder(chunk, [chunk], separators)
  {
    ChunkThenInOrder(chunk, "", [], separators);
    assert chunk + "" == chunk && [chunk] + [] == [chunk];
  }

  lemma Regroup<T>(a: seq<T>, b: seq<T>, c: seq<T>)
    ensures a + b + c == a + (b + c)
  {
  }

  lemma StandsSplits(text: string, chunk: string, k: nat, more: string)
    requires k + |chunk| <= |text| && text[k..k + |chunk|] == chunk
    ensures text + more == text[..k] + (chunk + (text[k + |chunk|..] + more))
  {
  }

  lemma AtThenInOrder(text: string, gap: string, chunk: string, rest: string, chunks: seq<string>, separators: seq<string>)
    requires text == gap + (chunk + rest) && IsGap(gap, separators) && InOrder(rest, chunks, separators)
    ensures InOrder(text, [chunk] + chunks, separators)
  {
    ChunkThenInOrder(chunk, rest, chunks, separators);
    GapThenInOrder(gap, chunk + rest, [chunk] + chunks, separators);
  }

  lemma {:induction false} InOrderAppend(a: string, xs: seq<string>, b: string, ys: seq<string>, separators: seq<string>)
    requires InOrder(a, xs, separators) && InOrder(b, ys, separators)
    ensures InOrder(a + b, xs + ys, separators)
    decreases |xs|
  {
    if xs == [] {
      GapThenInOrder(a, b, ys, separators);
      assert xs + ys == ys;
    } else {
      var k: nat :| StandsAt(a, xs[0], k, separators) && InOrder(a[k + |xs[0]|..], xs[1..], separators);
      var rest := a[k + |xs[0]|..];
      InOrderAppend(rest, xs[1..], b, ys, separators);
      StandsSplits(a, xs[0], k, b);
      AtThenInOrder(a + b, a[..k], xs[0], rest + b, xs[1..] + ys, separators);
      assert [xs[0]] + (xs[1..] + ys) == xs + ys;
    }
  }

  lemma {:induction false} MoreSeparators(text: string, chunks: seq<string>, separators: seq<string>)
    requires separators != [] && InOrder(text, chunks, separators[1..])
    ensures InOrder(text, chunks, separators)
    decreases |chunks|
  {
    forall c | IsSeparator(c, separators[1..]) ensures IsSeparator(c, separators) {
      var k :| 0 <= k < |separators[1..]| && c in separators[1..][k];
      assert c in separators[k + 1];
    }
    if chunks != [] {
      var k: nat :| StandsAt(text, chunks[0], k, separators[1..])
                    && InOrder(text[k + |chunks[0]|..], chunks[1..], separators[1..]);
      MoreSeparators(text[k + |chunks[0]|..], chunks[1..], separators);
      assert StandsAt(text, chunks[0], k, separators);
    }
  }

  /** The text that is still to be covered: the open chunk, and the pieces left. */
  function Pending(current: string, sep: string, pieces: seq<string>): string {
    if current == "" then JoinWith(pieces, sep) else if pieces == [] then current else current + sep + JoinWith(pieces, sep)
  }

  /** An empty piece cannot open a chunk: the separator behind it becomes a gap. */
  lemma OpeningGap(pieces: seq<string>, sep: string) returns (gap: string)
    requires pieces != []
    ensures JoinWith(pieces, sep) == gap + Pending(pieces[0], sep, pieces[1..]) && (gap == "" || gap == sep)
  {
    gap := if pieces[0] == "" && |pieces| > 1 then sep else "";
    if gap == sep {
      assert "" + sep + JoinWith(pieces[1..], sep) == sep + JoinWith(pieces[1..], sep);
    }
  }

  /** Opening a chunk with the next piece covers the rest of the text, up to a separator. */
  lemma OpenWith(pieces: seq<string>, sep: string, chunks: seq<string>, separators: seq<string>)
    requires pieces != [] && IsGap(sep, separators) && InOrder(Pending(pieces[0], sep, pieces[1..]), chunks, separators)
    ensures InOrder(JoinWith(pieces, sep), chunks, separators)
  {
    var gap := OpeningGap(pieces, sep);
    GapThenInOrder(gap, Pending(pieces[0], sep, pieces[1..]), chunks, separators);
  }

  /** Closing the open chunk. */
  lemma CloseInOrder(pieces: seq<string>, sep: string, current: string, chunks: seq<string>, separators: seq<string>)
    requires current != "" && pieces != [] && IsGap(sep, separators)
    requires InOrder(JoinWith(pieces, sep), chunks, separators)
    ensures InOrder(Pending(current, sep, pieces), [current] + chunks, separators)
  {
    GapThenInOrder(sep, JoinWith(pieces, sep), chunks, separators);
    ChunkThenInOrder(current, sep + JoinWith(pieces, sep), chunks, separators);
    Regroup(current, sep, JoinWith(pieces, sep));
  }

  /** Chunks of the first piece followed by chunks of the others. */
  lemma PieceThenOthers(pieces: seq<string>, sep: string, first: seq<string>, others: seq<string>, separators: seq<string>)
    requires pieces != [] && IsGap(sep, separators)
    requires InOrder(pieces[0], first, separators) && InOrder(JoinWith(pieces[1..], sep), others, separators)
    ensures InOrder(JoinWith(pieces, sep), first + others, separators)
  {
    var rest := JoinWith(pieces[1..], sep);
    if |pieces| == 1 {
      InOrderAppend(pieces[0], first, rest, others, separators);
      assert pieces[0] + rest == pieces[0];
    } else {
      GapThenInOrder(sep, rest, others, separators);
      InOrderAppend(pieces[0], first, sep + rest, others, separators);
      Regroup(pieces[0], sep, rest);
    }
  }

  lemma MergeIsPending(pieces: seq<string>, sep: string, current: string)
    requires pieces != [] && current != ""
    ensures Pending(Merged(current, sep, pieces[0]), sep, pieces[1..]) == Pending(current, sep, pieces)
  {
    var rest := pieces[1..];
    if rest != [] {
      assert current + sep + pieces[0] + sep + JoinWith(rest, sep) == current + sep + (pieces[0] + sep + JoinWith(rest, sep));
    }
  }

  lemma {:induction false} PackInOrder(pieces: seq<string>, sep: string, current: string, separators: seq<string>, size: int)
    requires IsGap(sep, separators)
    ensures InOrder(Pending(current, sep, pieces), Pack(pieces, sep, current, separators, size), separators)
    decreases |separators|, 0, |pieces|
  {
    if pieces == [] {
      if current != "" {
        ChunkInOrder(current, separators);
      }
    } else {
      var split, rest := pieces[0], pieces[1..];
      var merged := Merged(current, sep, split);
      if |merged| <= size {
        PackInOrder(rest, sep, merged, separators, size);
        if current == "" {
          OpenWith(pieces, sep, Pack(rest, sep, split, separators, size), separators);
        } else {
          MergeIsPending(pieces, sep, current);
        }
      } else if current != "" {
        PackInOrder(rest, sep, split, separators, size);
        OpenWith(pieces, sep, Pack(rest, sep, split, separators, size), separators);
        CloseInOrder(pieces, sep, current, Pack(rest, sep, split, separators, size), separators);
      } else {
        var chunks := if |separators| > 1 then Chunks(split, separators[1..], size) else [split];
        if |separators| > 1 {
          ChunksInOrder(split, separators[1..], size);
          MoreSeparators(split, chunks, separators);
        } else {
          ChunkInOrder(split, separators);
        }
        PackInOrder(rest, sep, "", separators, size);
        PieceThenOthers(pieces, sep, chunks, Pack(rest, sep, "", separators, size), separators);
      }
    }
  }

  lemma {:induction false} ChosenIsGap(text: string, separators: seq<string>, k: nat)
    requires k <= |separators|
    ensures IsGap(ChooseFrom(text, separators, k), separators)
    decreases |separators| - k
  {
    if k < |separators| {
      ChosenIsGap(text, separators, k + 1);
    }
  }

  /**
   For every text, separators and chunk size: the chunks are disjoint contiguous substrings of the text
   in their order, and every gap before, between and after them is made of separator characters.
   */
  lemma {:induction false} ChunksInOrder(text: string, separators: seq<string>, size: int)
    ensures InOrder(text, Chunks(text, separators, size), separators)
    decreases |separators|, 1, 0
  {
    if |text| <= size {
      ChunkInOrder(text, separators);
    } else {
      var sep := Choose(text, separators);
      ChosenIsGap(text, separators, 0);
      PackInOrder(Pieces(text, sep), sep, "", separators, size);
      JoinPieces(text, sep);
    }
  }

  // ---- what the reader of the chunks gets ---------------------------------------------------------

  /** A text without its separator characters. */
  function Content(s: string, separators: seq<string>): string {
    if s == "" then "" else (if IsSeparator(s[0], separators) then "" else [s[0]]) + Content(s[1..], separators)
  }

  function Concat(chunks: seq<string>): string {
    if chunks == [] then "" else chunks[0] + Concat(chunks[1..])
  }

  lemma {:induction false} ContentAppend(a: string, b: string, separators: seq<string>)
    ensures Content(a + b, separators) == Content(a, separators) + Content(b, separators)
    decreases |a|
  {
    if a == "" {
      assert a + b == b;
    } else {
      var head := if IsSeparator(a[0], separators) then "" else [a[0]];
      assert (a + b)[0] == a[0] && (a + b)[1..] == a[1..] + b;
      assert Content(a + b, separators) == head + Content(a[1..] + b, separators);
      ContentAppend(a[1..], b, separators);
      Regroup(head, Content(a[1..], separators), Content(b, separators));
    }
  }

  lemma {:induction false} GapHasNoContent(s: string, separators: seq<string>)
    requires IsGap(s, separators)
    ensures Content(s, separators) == ""
    decreases |s|
  {
    if s != "" {
      GapHasNoContent(s[1..], separators);
    }
  }

  lemma ContentBehindGap(text: string, chunk: string, k: nat, separators: seq<string>)
    requires StandsAt(text, chunk, k, separators)
    ensures Content(text, separators) == Content(chunk, separators) + Content(text[k + |chunk|..], separators)
  {
    var rest := text[k + |chunk|..];
    StandsSplits(text, chunk, k, "");
    assert text + "" == text && rest + "" == rest;
    ContentAppend(text[..k], chunk + rest, separators);
    ContentAppend(chunk, rest, separators);
    GapHasNoContent(text[..k], separators);
  }

  lemma {:induction false} InOrderKeepsContent(text: string, chunks: seq<string>, separators: seq<string>)
    requires InOrder(text, chunks, separators)
    ensures Content(Concat(chunks), separators) == Content(text, separators)
    decreases |chunks|
  {
    if chunks == [] {
      GapHasNoContent(text, separators);
    } else {
      var k: nat :| StandsAt(text, chunks[0], k, separators) && InOrder(text[k + |chunks[0]|..], chunks[1..], separators);
      ContentBehindGap(text, chunks[0], k, separators);
      InOrderKeepsContent(text[k + |chunks[0]|..], chunks[1..], separators);
      ContentAppend(chunks[0], Concat(chunks[1..]), separators);
    }
  }

  /** No character but newline, full stop and space is lost, duplicated or moved. */
  lemma SplittingKeepsContent(text: string, size: int)
    ensures Content(Concat(Chunks(text, SEPARATORS, size)), SEPARATORS) == Content(text, SEPARATORS)
    ensures forall c :: IsSeparator(c, SEPARATORS) <==> c in {'\n', '.', ' '}
  {
    ChunksInOrder(text, SEPARATORS, size);
    InOrderKeepsContent(text, Chunks(text, SEPARATORS, size), SEPARATORS);
    forall c ensures IsSeparator(c, SEPARATORS) <==> c in {'\n', '.', ' '} {
      if c in {'\n', '.', ' '} {
        assert c in SEPARATORS[1] || c in SEPARATORS[2];
      }
    }
  }

  // ---- when the chunk size is respected -----------------------------------------------------------

  /**
   A piece that is too large is met while another chunk is open, or when no finer separator is left: it
   becomes a chunk of its own, unsplit.
   */
  predicate Strands(text: string, separators: seq<string>, size: int)
    decreases |separators|, 1, 0
  {
    |text| > size &&
    var sep := Choose(text, separators);
    PackStrands(Pieces(text, sep), sep, "", separators, size)
  }

  predicate PackStrands(pieces: seq<string>, sep: string, current: string, separators: seq<string>, size: int)
    decreases |separators|, 0, |pieces|
  {
    pieces != [] &&
    var split := pieces[0];
    if |Merged(current, sep, split)| <= size then
      PackStrands(pieces[1..], sep, Merged(current, sep, split), separators, size)
    else if current != "" then
      |split| > size || PackStrands(pieces[1..], sep, split, separators, size)
    else
      || |separators| <= 1 || Strands(split, separators[1..], size)
      || PackStrands(pieces[1..], sep, "", separators, size)
  }

  ghost predicate AllWithin(chunks: seq<string>, size: int) {
    forall k :: 0 <= k < |chunks| ==> |chunks[k]| <= size
  }

  /** An open chunk that is too large is never cut again. */
  lemma OversizedStays(pieces: seq<string>, sep: string, current: string, separators: seq<string>, size: int)
    requires |current| > size && current != ""
    ensures !AllWithin(Pack(pieces, sep, current, separators, size), size)
  {
    assert Pack(pieces, sep, current, separators, size)[0] == current;
  }

  lemma WithinAppend(a: seq<string>, b: seq<string>, size: int)
    ensures AllWithin(a + b, size) <==> AllWithin(a, size) && AllWithin(b, size)
  {
    assert forall k :: 0 <= k < |a| ==> (a + b)[k] == a[k];
    assert forall k :: 0 <= k < |b| ==> (a + b)[|a| + k] == b[k];
  }

  lemma {:induction false} PackWithinIff(pieces: seq<string>, sep: string, current: string, separators: seq<string>, size: int)
    requires current == "" || |current| <= size
    ensures AllWithin(Pack(pieces, sep, current, separators, size), size)
       <==> !PackStrands(pieces, sep, current, separators, size)
    decreases |separators|, 0, |pieces|
  {
    if pieces != [] {
      var split, rest := pieces[0], pieces[1..];
      if |Merged(current, sep, split)| <= size {
        PackWithinIff(rest, sep, Merged(current, sep, split), separators, size);
      } else if current != "" {
        WithinAppend([current], Pack(rest, sep, split, separators, size), size);
        if |split| > size {
          OversizedStays(rest, sep, split, separators, size);
        } else {
          PackWithinIff(rest, sep, split, separators, size);
        }
      } else {
        var chunks := if |separators| > 1 then Chunks(split, separators[1..], size) else [split];
        if |separators| > 1 {
          SizeRespectedIff(split, separators[1..], size);
        } else {
          assert chunks[0] == split;
        }
        PackWithinIff(rest, sep, "", separators, size);
        WithinAppend(chunks, Pack(rest, sep, "", separators, size), size);
      }
    }
  }

  /**
   For every text, separators and chunk size: every chunk is within the chunk size exactly when no piece
   that is too large is met while another chunk is open or when no separator is left.
   */
  lemma {:induction false} SizeRespectedIff(text: string, separators: seq<string>, size: int)
    ensures AllWithin(Chunks(text, separators, size), size) <==> !Strands(text, separators, size)
    decreases |separators|, 1, 0
  {
    if |text| > size {
      var sep := Choose(text, separators);
      PackWithinIff(Pieces(text, sep), sep, "", separators, size);
    }
  }

  lemma {:induction false} SmallPiecesPack(pieces: seq<string>, sep: string, current: string, separators: seq<string>, size: int)
    requires AllWithin(pieces, size)
    ensures !PackStrands(pieces, sep, current, separators, size)
    decreases |pieces|
  {
    if pieces != [] {
      var split, rest := pieces[0], pieces[1..];
      assert forall k :: 0 <= k < |rest| ==> rest[k] == pieces[k + 1];
      SmallPiecesPack(rest, sep, Merged(current, sep, split), separators, size);
      SmallPiecesPack(rest, sep, split, separators, size);
    }
  }

  /** It is enough that the first separator that occurs cuts the text into pieces within the chunk size. */
  lemma SmallPiecesFit(text: string, separators: seq<string>, size: int)
    requires AllWithin(Pieces(text, Choose(text, separators)), size)
    ensures AllWithin(Chunks(text, separators, size), size)
  {
    SizeRespectedIff(text, separators, size);
    SmallPiecesPack(Pieces(text, Choose(text, separators)), Choose(text, separators), "", separators, size);
  }

  /** So a text in which no earlier separator occurs, down to single characters, is always cut to size. */
  lemma CharactersAlwaysFit(text: string, size: int)
    requires size >= 1 && Choose(text, SEPARATORS) == ""
    ensures AllWithin(Chunks(text, SEPARATORS, size), size)
  {
    SmallPiecesFit(text, SEPARATORS, size);
  }

  lemma TwoParagraphs(a: string, b: string)
    requires Find(b, "\n\n", 0) == None && (forall i :: 0 <= i < |a| ==> a[i] != '\n')
    ensures SplitOn(a + "\n\n" + b, "\n\n") == [a, b] && Choose(a + "\n\n" + b, SEPARATORS) == "\n\n"
  {
    var text := a + "\n\n" + b;
    assert OccursAt(text, "\n\n", |a|);
    forall i: nat | i < |a| ensures !OccursAt(text, "\n\n", i) {
      assert text[i] == a[i] && (i + 2 <= |text| ==> text[i..i + 2][0] == text[i]);
    }
    assert Find(text, "\n\n", 0) == Some(|a|);
    assert text[..|a|] == a && text[|a| + 2..] == b;
    assert SplitOn(b, "\n\n") == [b];
  }

  /** A short paragraph followed by a long word: the word stays whole, twice the chunk size. */
  lemma ChunkSizeCanBeExceeded()
    ensures Strands("aa" + "\n\n" + "bbbbbbbb", SEPARATORS, 4)
    ensures !AllWithin(Chunks("aa" + "\n\n" + "bbbbbbbb", SEPARATORS, 4), 4)
  {
    var a, b := "aa", "bbbbbbbb";
    assert forall k :: 0 <= k < |b| ==> b[k] == 'b';
    forall i: nat ensures !OccursAt(b, "\n\n", i) {
      if i + 2 <= |b| {
        assert b[i..i + 2][0] == b[i];
      }
    }
    TwoParagraphs(a, b);
    var pieces := [a, b];
    assert pieces[1..] == [b] && |Merged(a, "\n\n", b)| == 12;
    assert PackStrands(pieces[1..], "\n\n", a, SEPARATORS, 4);
    SizeRespectedIff(a + "\n\n" + b, SEPARATORS, 4);
  }
}
