/** Cutting loaded pages into overlapping chunks for the index. */
module Ingestion {
  import opened Numbers
  import opened Text
  import opened Cleaning
  import opened Windows

  datatype Page = Page(text: string, number: int, source: string, filename: string)
  datatype Chunk = Chunk(text: string, filename: string, page: int, source: string, index: nat, start: nat, end: nat)
  datatype Chunking = Chunks(chunks: seq<Chunk>) | ValueError(message: string)

  const BAD_SIZE := "chunk_size must be positive"
  const BAD_OVERLAP := "chunk_overlap must be non-negative and smaller than chunk_size"

  /** What is kept of the first `count` windows over a page: those that are not blank, numbered in turn. */
  function Kept(page: Page, text: string, size: nat, step: nat, count: nat): seq<Chunk>
    decreases count, 0
  {
    if count == 0 then [] else Kept(page, text, size, step, count - 1) + KeptOf(page, text, size, step, count - 1)
  }

  function KeptOf(page: Page, text: string, size: nat, step: nat, k: nat): seq<Chunk>
    decreases k, 1
  {
    var start, end := Start(step, k), End(|text|, size, step, k);
    if start > end || Strip(text[start..end]) == "" then [] else
      [Chunk(Strip(text[start..end]), page.filename, page.number, page.source,
             |Kept(page, text, size, step, k)|, start, end)]
  }

  function PageChunks(page: Page, size: nat, step: nat): seq<Chunk>
    requires step > 0
  {
    var text := CleanText(page.text);
    if text == "" then [] else Kept(page, text, size, step, Count(|text|, size, step))
  }

  function AllChunks(pages: seq<Page>, size: nat, step: nat): seq<Chunk>
    requires step > 0
  {
    if pages == [] then [] else
      AllChunks(pages[..|pages| - 1], size, step) + PageChunks(pages[|pages| - 1], size, step)
  }

  method ChunkLoadedPages(pages: seq<Page>, chunkSize: int, chunkOverlap: int) returns (r: Chunking)
    ensures chunkSize <= 0 ==> r == ValueError(BAD_SIZE)
    ensures chunkSize > 0 && !(0 <= chunkOverlap < chunkSize) ==> r == ValueError(BAD_OVERLAP)
    ensures 0 <= chunkOverlap < chunkSize ==> r == Chunks(AllChunks(pages, chunkSize, chunkSize - chunkOverlap))
  {
    if chunkSize <= 0 {
      return ValueError(BAD_SIZE);
    }
    if chunkOverlap < 0 || chunkOverlap >= chunkSize {
      return ValueError(BAD_OVERLAP);
    }
    var chunks: seq<Chunk> := [];
    for i := 0 to |pages|
      invariant chunks == AllChunks(pages[..i], chunkSize, chunkSize - chunkOverlap)
    {
      assert pages[..i + 1][..i] == pages[..i];
      var text := CleanText(pages[i].text);
      if text != "" {
        var more := ChunkPage(pages[i], text, chunkSize, chunkOverlap);
        chunks := chunks + more;
      }
    }
    assert pages[..|pages|] == pages;
    return Chunks(chunks);
  }

  method ChunkPage(page: Page, text: string, size: nat, overlap: nat) returns (chunks: seq<Chunk>)
    requires overlap < size && text != ""
    ensures chunks == Kept(page, text, size, size - overlap, Count(|text|, size, size - overlap))
  {
    chunks := [];
    var start, chunkIndex := 0, 0;
    ghost var step, k := size - overlap, 0;
    while start < |text|
      invariant start == Start(step, k) < |text| && chunkIndex == |chunks|
      invariant chunks == Kept(page, text, size, step, k)
      invariant forall j: nat :: j < k ==> Start(step, j) + size < |text|
      decreases |text| - start
    {
      var end := Min(start + size, |text|);
      var chunkText := Strip(text[start..end]);
      if chunkText != "" {
        chunks := chunks + [Chunk(chunkText, page.filename, page.number, page.source, chunkIndex, start, end)];
        chunkIndex := chunkIndex + 1;
      }
      assert chunks == Kept(page, text, size, step, k + 1);
      if end >= |text| {
        CountIs(|text|, size, step);
        CountUnique(|text|, size, step, k + 1, Count(|text|, size, step));
        break;
      }
      StartNext(step, k);
      start := end - overlap;
      k := k + 1;
    }
  }

  // ---- what a page's chunks are -------------------------------------------------------------------

  /** A chunk whose text is a piece of the page's text that has position i in it. */
  ghost predicate Contains(c: Chunk, text: string, i: nat) {
    exists lo: nat, hi: nat :: c.start <= lo <= i < hi <= c.end <= |text| && c.text == text[lo..hi]
  }

  /** Every character of the page that is not blank is in a chunk. */
  lemma EveryCharacterIsInAChunk(page: Page, size: nat, step: nat, i: nat) returns (j: nat)
    requires 0 < step <= size && i < |CleanText(page.text)| && !IsSpace(CleanText(page.text)[i])
    ensures var chunks := PageChunks(page, size, step);
            j < |chunks| && Contains(chunks[j], CleanText(page.text), i)
  {
    var text := CleanText(page.text);
    var count := Count(|text|, size, step);
    CountIs(|text|, size, step);
    var k := WindowsCover(|text|, size, step, count, i);
    var lo, hi := StrippedWindowHas(text, Start(step, k), End(|text|, size, step, k), i);
    j := KeptHas(page, text, size, step, k, count);
  }

  lemma KeptHas(page: Page, text: string, size: nat, step: nat, k: nat, count: nat) returns (j: nat)
    requires k < count && KeptOf(page, text, size, step, k) != []
    ensures j < |Kept(page, text, size, step, count)|
    ensures Kept(page, text, size, step, count)[j] == KeptOf(page, text, size, step, k)[0]
  {
    j := |Kept(page, text, size, step, k)|;
    KeptGrows(page, text, size, step, k + 1, count);
    assert Kept(page, text, size, step, k + 1)[j] == KeptOf(page, text, size, step, k)[0];
  }

  lemma StrippedWindowHas(text: string, start: nat, end: nat, i: nat) returns (lo: nat, hi: nat)
    requires start <= i < end <= |text| && !IsSpace(text[i])
    ensures start <= lo <= i < hi <= end && Strip(text[start..end]) == text[lo..hi] && text[lo..hi] != ""
  {
    var window := text[start..end];
    var at: nat := i - start;
    assert window[at] == text[i] && !IsSpace(window[at]);
    var a, b := StripCuts(window);
    assert a <= at < b;
    lo, hi := start + a, start + b;
    SliceOfSlice(text, start, end, a, b);
    assert text[lo..hi][at - a] == text[i];
  }

  lemma SliceOfSlice(text: string, start: nat, end: nat, a: nat, b: nat)
    requires start <= end <= |text| && a <= b <= end - start
    ensures text[start..end][a..b] == text[start + a..start + b]
  {
    var x, y := text[start..end][a..b], text[start + a..start + b];
    forall k | 0 <= k < |x| ensures x[k] == y[k] {
      assert x[k] == text[start..end][a + k];
    }
  }

  lemma {:induction false} KeptGrows(page: Page, text: string, size: nat, step: nat, k: nat, count: nat)
    requires k <= count
    ensures Kept(page, text, size, step, k) <= Kept(page, text, size, step, count)
    decreases count
  {
    if k < count {
      KeptGrows(page, text, size, step, k, count - 1);
    }
  }

  /** Chunk j of a page: numbered j, and a window of the text with the blanks around it removed. */
  ghost predicate IsChunkOf(c: Chunk, page: Page, text: string, size: nat, step: nat, j: nat) {
    && c.index == j && c.page == page.number && c.source == page.source && c.filename == page.filename
    && c.start < c.end <= |text| && c.end == Min(c.start + size, |text|)
    && (exists k: nat :: c.start == Start(step, k))
    && c.text == Strip(text[c.start..c.end]) && Solid(c.text) && |c.text| <= size
  }

  lemma {:induction false} ChunksAreWindows(page: Page, text: string, size: nat, step: nat, count: nat, j: nat)
    requires step > 0 && j < |Kept(page, text, size, step, count)|
    ensures var chunks := Kept(page, text, size, step, count);
            && IsChunkOf(chunks[j], page, text, size, step, j)
            && chunks[j].start < Start(step, count)
            && forall i :: 0 <= i < j ==> chunks[i].start < chunks[j].start
    decreases count
  {
    var before := Kept(page, text, size, step, count - 1);
    StartNext(step, count - 1);
    if j < |before| {
      ChunksAreWindows(page, text, size, step, count - 1, j);
    } else {
      NewChunk(page, text, size, step, count - 1);
      forall i | 0 <= i < j ensures before[i].start < Start(step, count - 1) {
        ChunksAreWindows(page, text, size, step, count - 1, i);
      }
    }
  }

  lemma NewChunk(page: Page, text: string, size: nat, step: nat, k: nat)
    requires KeptOf(page, text, size, step, k) != []
    ensures var c := KeptOf(page, text, size, step, k)[0];
            IsChunkOf(c, page, text, size, step, |Kept(page, text, size, step, k)|) && c.start == Start(step, k)
  {
    var lo, hi := StripCuts(text[Start(step, k)..End(|text|, size, step, k)]);
  }

  /**
   The chunks of a page, for every size and smaller overlap: each is a window of the clean text, they are
   numbered and start in order, and a page without any is one with no words.
   */
  lemma PageChunksAreWindows(page: Page, size: nat, step: nat)
    requires 0 < step <= size
    ensures var chunks := PageChunks(page, size, step);
            && (forall j :: 0 <= j < |chunks| ==> IsChunkOf(chunks[j], page, CleanText(page.text), size, step, j))
            && (forall i, j :: 0 <= i < j < |chunks| ==> chunks[i].start < chunks[j].start)
            && (chunks == [] <==> Words(page.text) == [])
  {
    var text := CleanText(page.text);
    var chunks := PageChunks(page, size, step);
    forall j | 0 <= j < |chunks|
      ensures IsChunkOf(chunks[j], page, text, size, step, j)
      ensures forall i :: 0 <= i < j ==> chunks[i].start < chunks[j].start
    {
      ChunksAreWindows(page, text, size, step, Count(|text|, size, step), j);
    }
    CleaningKeepsWords(page.text);
    CleanIffFixed(page.text);
    BlankHasNoWords(text);
    if text != "" {
      assert !IsSpace(text[0]);
      var j := EveryCharacterIsInAChunk(page, size, step, 0);
    }
  }
}
