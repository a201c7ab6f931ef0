/** The chunker that cuts by length alone. It checks neither its size nor its overlap. */
module FixedSize {
  import opened Numbers
  import opened Options
  import opened Windows

  /** Python's `s[lo:hi]` for any integers. */
  function Slice(s: string, lo: int, hi: int): string {
    var a, b := Bound(|s|, lo), Bound(|s|, hi);
    if a <= b then s[a..b] else ""
  }

  function Bound(n: nat, i: int): (r: nat)
    ensures r <= n && (0 <= i <= n ==> r == i)
  {
    if i < 0 then (if n + i < 0 then 0 else n + i) else if i > n then n else i
  }

  /** Where the loop stands after `rounds` rounds, if it has not ended. */
  function At(n: nat, size: int, overlap: int, rounds: nat): Option<int> {
    if rounds == 0 then (if 0 < n then Some(0) else None) else
      match At(n, size, overlap, rounds - 1)
      case None => None
      case Some(start) =>
        var end := Min(start + size, n);
        if end == n || end - overlap >= n then None else Some(end - overlap)
  }

  predicate RunsForever(n: nat, size: int, overlap: int) {
    n > size && n > 0 && overlap >= size
  }

  /** The loop is entered only when the text is longer than the size; it ends exactly unless the overlap keeps it from advancing. */
  lemma EndsIff(n: nat, size: int, overlap: int)
    requires n > size
    ensures (exists rounds: nat :: At(n, size, overlap, rounds) == None) <==> !RunsForever(n, size, overlap)
  {
    if RunsForever(n, size, overlap) {
      forall rounds: nat ensures At(n, size, overlap, rounds) != None { NeverAdvances(n, size, overlap, rounds); }
    } else if n > 0 {
      Advances(n, size, overlap, n);
      assert At(n, size, overlap, n) == None;
    } else {
      assert At(n, size, overlap, 0) == None;
    }
  }

  lemma {:induction false} NeverAdvances(n: nat, size: int, overlap: int, rounds: nat)
    requires RunsForever(n, size, overlap)
    ensures At(n, size, overlap, rounds).Some? && At(n, size, overlap, rounds).value <= 0
  {
    if rounds > 0 { NeverAdvances(n, size, overlap, rounds - 1); }
  }

  lemma {:induction false} Advances(n: nat, size: int, overlap: int, rounds: nat)
    requires n > size > overlap
    ensures At(n, size, overlap, rounds).Some? ==> rounds <= At(n, size, overlap, rounds).value < n
  {
    if rounds > 0 { Advances(n, size, overlap, rounds - 1); }
  }

  /** Ten characters in chunks of four that overlap by four: every round cuts off the first four again. */
  lemma {:induction false} LoopCanHang(rounds: nat)
    ensures At(10, 4, 4, rounds) == Some(0)
  {
    if rounds > 0 {
      LoopCanHang(rounds - 1);
    }
  }

  /** The slice a round cuts off. */
  function Piece(text: string, size: int, start: int): string {
    Slice(text, start, Min(start + size, |text|))
  }

  ghost predicate IsPiece(text: string, size: int, overlap: int, k: nat, chunk: string) {
    At(|text|, size, overlap, k).Some? && chunk == Piece(text, size, At(|text|, size, overlap, k).value)
  }

  /** Every chunk is the slice that begins where the loop stood. */
  ghost predicate ArePieces(text: string, size: int, overlap: int, chunks: seq<string>) {
    forall k :: 0 <= k < |chunks| ==> IsPiece(text, size, overlap, k, chunks[k])
  }

  method SplitText(text: string, size: int, overlap: int) returns (chunks: seq<string>)
    requires !RunsForever(|text|, size, overlap)
    ensures |text| <= size ==> chunks == [text]
    ensures |text| > size ==> At(|text|, size, overlap, |chunks|) == None && ArePieces(text, size, overlap, chunks)
  {
    chunks := [];
    var start := 0;
    if |text| <= size {
      return [text];
    }
    while start < |text|
      invariant start >= 0
      invariant At(|text|, size, overlap, |chunks|) == if start < |text| then Some(start) else None
      invariant ArePieces(text, size, overlap, chunks)
      decreases |text| - start
    {
      var end := Min(start + size, |text|);
      var chunk := Slice(text, start, end);
      assert IsPiece(text, size, overlap, |chunks|, chunk);
      chunks := chunks + [chunk];
      if end == |text| {
        break;
      }
      start := end - overlap;
    }
  }

  /** The first n chunks with what each shares with the one before it dropped. */
  function Rebuilt(chunks: seq<string>, n: nat, overlap: nat): string
    requires n <= |chunks|
  {
    if n == 0 then "" else if n == 1 then chunks[0] else
      Rebuilt(chunks, n - 1, overlap) + Slice(chunks[n - 1], overlap, |chunks[n - 1]|)
  }

  function WindowText(text: string, size: nat, step: nat, k: nat): string {
    Slice(text, Start(step, k), End(|text|, size, step, k))
  }

  ghost predicate AreWindows(text: string, size: nat, step: nat, chunks: seq<string>) {
    forall k :: 0 <= k < |chunks| ==> chunks[k] == WindowText(text, size, step, k)
  }

  lemma PiecesAreWindows(text: string, size: nat, overlap: nat, chunks: seq<string>)
    requires overlap < size < |text| && ArePieces(text, size, overlap, chunks)
    ensures AreWindows(text, size, size - overlap, chunks)
  {
    forall k | 0 <= k < |chunks| ensures chunks[k] == WindowText(text, size, size - overlap, k) {
      assert IsPiece(text, size, overlap, k, chunks[k]);
      AtWindow(|text|, size, overlap, k);
    }
  }

  lemma WindowsRebuildText(text: string, size: nat, overlap: nat, chunks: seq<string>)
    requires overlap < size < |text|
    requires IsCount(|text|, size, size - overlap, |chunks|) && AreWindows(text, size, size - overlap, chunks)
    ensures Rebuilt(chunks, |chunks|, overlap) == text
  {
    NeighboursEnd(|text|, size, size - overlap, |chunks|);
    RebuiltIs(text, size, overlap, chunks, |chunks|);
    assert text[..|text|] == text;
  }

  /** For a sensible overlap the chunks are windows of one size, one every size - overlap, and rebuild the text. */
  lemma ChunksRebuildText(text: string, size: nat, overlap: nat, chunks: seq<string>)
    requires overlap < size < |text|
    requires At(|text|, size, overlap, |chunks|) == None && ArePieces(text, size, overlap, chunks)
    ensures IsCount(|text|, size, size - overlap, |chunks|)
    ensures AreWindows(text, size, size - overlap, chunks)
    ensures Rebuilt(chunks, |chunks|, overlap) == text
  {
    PiecesAreCounted(text, size, overlap, chunks);
    PiecesAreWindows(text, size, overlap, chunks);
    WindowsRebuildText(text, size, overlap, chunks);
  }

  lemma NeighboursEnd(n: nat, size: nat, step: nat, count: nat)
    requires IsCount(n, size, step, count)
    ensures End(n, size, step, count - 1) == n
  {
  }

  /** The loop stands at every round up to the last one. */
  ghost predicate StandsUntil(n: nat, size: int, overlap: int, count: nat) {
    count > 0 && At(n, size, overlap, count) == None && forall k :: 0 <= k < count ==> At(n, size, overlap, k).Some?
  }

  lemma PiecesAreCounted(text: string, size: nat, overlap: nat, chunks: seq<string>)
    requires overlap < size < |text|
    requires At(|text|, size, overlap, |chunks|) == None && ArePieces(text, size, overlap, chunks)
    ensures IsCount(|text|, size, size - overlap, |chunks|)
  {
    forall k | 0 <= k < |chunks| ensures At(|text|, size, overlap, k).Some? {
      assert IsPiece(text, size, overlap, k, chunks[k]);
    }
    RoundsAreCounted(|text|, size, overlap, |chunks|);
  }

  lemma RoundsAreCounted(n: nat, size: nat, overlap: nat, count: nat)
    requires overlap < size < n && StandsUntil(n, size, overlap, count)
    ensures IsCount(n, size, size - overlap, count)
  {
    var step := size - overlap;
    AtWindow(n, size, overlap, count - 1);
    forall k: nat | k + 1 < count ensures Start(step, k) + size < n {
      AtWindow(n, size, overlap, k + 1);
    }
  }

  lemma {:induction false} AtWindow(n: nat, size: nat, overlap: nat, k: nat)
    requires overlap < size < n && At(n, size, overlap, k).Some?
    ensures At(n, size, overlap, k).value == Start(size - overlap, k) < n
    ensures k > 0 ==> Start(size - overlap, k - 1) + size < n
  {
    if k > 0 {
      AtWindow(n, size, overlap, k - 1);
      StartNext(size - overlap, k - 1);
    }
  }

  lemma {:induction false} RebuiltIs(text: string, size: nat, overlap: nat, chunks: seq<string>, m: nat)
    requires overlap < size < |text| && 0 < m <= |chunks|
    requires IsCount(|text|, size, size - overlap, |chunks|) && AreWindows(text, size, size - overlap, chunks)
    ensures Rebuilt(chunks, m, overlap) == text[..End(|text|, size, size - overlap, m - 1)]
    decreases m
  {
    var a, b := Start(size - overlap, m - 1), End(|text|, size, size - overlap, m - 1);
    assert chunks[m - 1] == WindowText(text, size, size - overlap, m - 1);
    if m > 1 {
      RebuiltIs(text, size, overlap, chunks, m - 1);
      NeighboursOverlap(|text|, size, size - overlap, |chunks|, m - 2);
      NextWindow(text, a, b, overlap, chunks[m - 1]);
      assert End(|text|, size, size - overlap, m - 2) == a + overlap;
    } else {
      FirstWindow(text, b, chunks[0]);
    }
  }

  lemma FirstWindow(text: string, end: nat, chunk: string)
    requires end <= |text| && chunk == Slice(text, 0, end)
    ensures chunk == text[..end]
  {
  }

  /** What a window adds to the text up to the end of the one before it. */
  lemma NextWindow(text: string, start: nat, end: nat, overlap: nat, chunk: string)
    requires start + overlap <= end <= |text| && chunk == Slice(text, start, end)
    ensures text[..start + overlap] + Slice(chunk, overlap, |chunk|) == text[..end]
  {
    assert chunk == text[start..end];
    assert Slice(chunk, overlap, |chunk|) == chunk[overlap..];
    assert chunk[overlap..] == text[start + overlap..end];
  }
}
