/**
 The RAG pipeline's chunker: consecutive lines of a document are packed into chunks of bounded size, and
 each chunk repeats the last lines of the one before it.
 */
module LineChunks {
  import opened Numbers
  import opened Options

  /** A chunk with its 1-based, inclusive source lines. */
  datatype Chunk = Chunk(number: nat, text: string, startLine: nat, endLine: nat)

  /** Characters of lines lo..hi, counting a line break for each. */
  function Size(lines: seq<string>, lo: nat, hi: nat): nat
    requires hi <= |lines|
  {
    if hi <= lo then 0 else Size(lines, lo, hi - 1) + |lines[hi - 1]| + 1
  }

  /** Lines lo..hi joined by line breaks. */
  function JoinLines(lines: seq<string>, lo: nat, hi: nat): string
    requires hi <= |lines|
  {
    if hi <= lo then "" else if hi == lo + 1 then lines[lo] else JoinLines(lines, lo, hi - 1) + "\n" + lines[hi - 1]
  }

  lemma {:induction false} JoinOfCopy(lines: seq<string>, lo: nat, hi: nat, copy: seq<string>, n: nat)
    requires lo <= hi <= |lines| && copy == lines[lo..hi] && n <= |copy|
    ensures JoinLines(copy, 0, n) == JoinLines(lines, lo, lo + n)
    decreases n
  {
    if n > 1 {
      JoinOfCopy(lines, lo, hi, copy, n - 1);
    }
  }

  lemma {:induction false} SizeSplits(lines: seq<string>, lo: nat, mid: nat, hi: nat)
    requires lo <= mid <= hi <= |lines|
    ensures Size(lines, lo, hi) == Size(lines, lo, mid) + Size(lines, mid, hi)
    decreases hi
  {
    if mid < hi {
      SizeSplits(lines, lo, mid, hi - 1);
    }
  }

  lemma {:induction false} SizeOfCopy(lines: seq<string>, lo: nat, hi: nat, copy: seq<string>, n: nat)
    requires lo <= hi <= |lines| && copy == lines[lo..hi] && n <= |copy|
    ensures Size(copy, 0, n) == Size(lines, lo, lo + n)
    decreases n
  {
    if n > 0 {
      SizeOfCopy(lines, lo, hi, copy, n - 1);
    }
  }

  /** Lines s..hi are the longest run of whole lines at the end of lo..hi within `overlap` characters. */
  ghost predicate IsOverlap(lines: seq<string>, lo: nat, hi: nat, s: nat, overlap: nat) {
    && lo <= s <= hi <= |lines|
    && Size(lines, s, hi) <= overlap
    && (s > lo ==> Size(lines, s - 1, hi) > overlap)
  }

  /** How many lines are behind the chunks up to `prev`: the next chunk's own lines begin there. */
  function Done(prev: Option<Chunk>): nat {
    if prev.Some? then prev.value.endLine else 0
  }

  /** The next chunk starts with the overlap it takes over from the chunk before. */
  ghost predicate StartsAt(lines: seq<string>, overlap: nat, prev: Option<Chunk>, lo: nat) {
    match prev
    case None => lo == 0
    case Some(p) => 1 <= p.startLine <= p.endLine && IsOverlap(lines, p.startLine - 1, p.endLine, lo, overlap)
  }

  /** The chunk of lines lo..hi takes every own line that fits, and at least one. */
  ghost predicate IsGreedy(lines: seq<string>, size: int, done: nat, lo: nat, hi: nat) {
    && lo <= done < hi <= |lines|
    && (hi > done + 1 ==> Size(lines, lo, hi) <= size)
    && (hi < |lines| ==> Size(lines, lo, hi + 1) > size)
  }

  /** The lines of `c` are those the source's loop puts behind `prev`. */
  ghost predicate IsNext(lines: seq<string>, size: int, overlap: nat, prev: Option<Chunk>, c: Chunk) {
    && c.startLine >= 1
    && StartsAt(lines, overlap, prev, c.startLine - 1)
    && IsGreedy(lines, size, Done(prev), c.startLine - 1, c.endLine)
  }

  /** The chunk before the one at position `n`. */
  function Prev(chunks: seq<Chunk>, n: nat): Option<Chunk>
    requires n <= |chunks|
  {
    if n == 0 then None else Some(chunks[n - 1])
  }

  /** The first `n` chunks each stand behind the one before. */
  ghost predicate AllNext(lines: seq<string>, size: int, overlap: nat, chunks: seq<Chunk>, n: nat)
    requires n <= |chunks|
  {
    n == 0 ||
    (&& AllNext(lines, size, overlap, chunks, n - 1)
     && chunks[n - 1].number == n
     && IsNext(lines, size, overlap, Prev(chunks, n - 1), chunks[n - 1]))
  }

  /** A chunk's text is its lines, joined. */
  ghost predicate HasText(lines: seq<string>, c: Chunk) {
    c.endLine <= |lines| && c.startLine >= 1 && c.text == JoinLines(lines, c.startLine - 1, c.endLine)
  }

  ghost predicate AllHaveText(lines: seq<string>, chunks: seq<Chunk>, n: nat)
    requires n <= |chunks|
  {
    n == 0 || (AllHaveText(lines, chunks, n - 1) && HasText(lines, chunks[n - 1]))
  }

  lemma {:induction false} StillHaveText(lines: seq<string>, chunks: seq<Chunk>, c: Chunk, n: nat)
    requires n <= |chunks| && AllHaveText(lines, chunks, n)
    ensures AllHaveText(lines, chunks + [c], n)
    decreases n
  {
    if n > 0 {
      StillHaveText(lines, chunks, c, n - 1);
    }
  }

  lemma {:induction false} ChunkHasText(lines: seq<string>, chunks: seq<Chunk>, n: nat, k: nat)
    requires k < n <= |chunks| && AllHaveText(lines, chunks, n)
    ensures HasText(lines, chunks[k])
    decreases n
  {
    if k < n - 1 {
      ChunkHasText(lines, chunks, n - 1, k);
    }
  }

  /** The chunks of a document: each one greedy, and together reaching the last line. */
  ghost predicate IsChunking(lines: seq<string>, size: int, overlap: nat, chunks: seq<Chunk>) {
    && AllHaveText(lines, chunks, |chunks|)
    && AllNext(lines, size, overlap, chunks, |chunks|)
    && Done(Prev(chunks, |chunks|)) == |lines|
  }

  lemma {:induction false} StillNext(lines: seq<string>, size: int, overlap: nat, chunks: seq<Chunk>, c: Chunk, n: nat)
    requires n <= |chunks| && AllNext(lines, size, overlap, chunks, n)
    ensures AllNext(lines, size, overlap, chunks + [c], n)
    decreases n
  {
    if n > 0 {
      StillNext(lines, size, overlap, chunks, c, n - 1);
      assert Prev(chunks + [c], n - 1) == Prev(chunks, n - 1);
    }
  }

  lemma OneMore(lines: seq<string>, size: int, overlap: nat, chunks: seq<Chunk>, c: Chunk)
    requires AllNext(lines, size, overlap, chunks, |chunks|)
    requires c.number == |chunks| + 1 && IsNext(lines, size, overlap, Prev(chunks, |chunks|), c)
    ensures AllNext(lines, size, overlap, chunks + [c], |chunks + [c]|)
    ensures Prev(chunks + [c], |chunks + [c]|) == Some(c)
  {
    StillNext(lines, size, overlap, chunks, c, |chunks|);
    assert Prev(chunks + [c], |chunks|) == Prev(chunks, |chunks|);
  }

  /** Every chunk stands behind the one before it. */
  lemma {:induction false} ChunkIsNext(lines: seq<string>, size: int, overlap: nat, chunks: seq<Chunk>, n: nat, k: nat)
    requires k < n <= |chunks| && AllNext(lines, size, overlap, chunks, n)
    ensures chunks[k].number == k + 1 && IsNext(lines, size, overlap, Prev(chunks, k), chunks[k])
    decreases n
  {
    if k < n - 1 {
      ChunkIsNext(lines, size, overlap, chunks, n - 1, k);
    }
  }

  /** Taking one more line at the front of a run. */
  lemma Preceded(lines: seq<string>, k: nat, hi: nat)
    requires k < hi <= |lines|
    ensures Size(lines, k, hi) == Size(lines, k + 1, hi) + |lines[k]| + 1
  {
    SizeSplits(lines, k, k + 1, hi);
  }

  lemma Extended(lines: seq<string>, lo: nat, i: nat)
    requires lo <= i < |lines|
    ensures lines[lo..i] + [lines[i]] == lines[lo..i + 1]
    ensures Size(lines, lo, i + 1) == Size(lines, lo, i) + |lines[i]| + 1
  {
  }

  /** The lines to repeat from a chunk. */
  method OverlapLines(current: seq<string>, maxChars: nat) returns (selected: seq<string>)
    requires current != []
    ensures |selected| <= |current| && selected == current[|current| - |selected|..]
    ensures IsOverlap(current, 0, |current|, |current| - |selected|, maxChars)
  {
    selected := [];
    if maxChars <= 0 {
      Preceded(current, |current| - 1, |current|);
      return;
    }
    var total := 0;
    while |selected| < |current|
      invariant |selected| <= |current| && selected == current[|current| - |selected|..]
      invariant total == Size(current, |current| - |selected|, |current|) && total <= maxChars
      decreases |current| - |selected|
    {
      var line := current[|current| - |selected| - 1];
      Preceded(current, |current| - |selected| - 1, |current|);
      total := total + |line| + 1;
      if total > maxChars {
        break;
      }
      selected := [line] + selected;
    }
  }

  lemma OverlapOfCopy(lines: seq<string>, lo: nat, hi: nat, copy: seq<string>, s: nat, overlap: nat)
    requires lo <= hi <= |lines| && copy == lines[lo..hi] && IsOverlap(copy, 0, |copy|, s, overlap)
    ensures IsOverlap(lines, lo, hi, lo + s, overlap)
  {
    TailOfCopy(lines, lo, hi, copy, s);
    if s > 0 {
      TailOfCopy(lines, lo, hi, copy, s - 1);
    }
  }

  lemma TailOfCopy(lines: seq<string>, lo: nat, hi: nat, copy: seq<string>, s: nat)
    requires lo <= hi <= |lines| && copy == lines[lo..hi] && s <= |copy|
    ensures Size(copy, s, |copy|) == Size(lines, lo + s, hi)
  {
    SizeOfCopy(lines, lo, hi, copy, s);
    SizeOfCopy(lines, lo, hi, copy, |copy|);
    SizeSplits(copy, 0, s, |copy|);
    SizeSplits(lines, lo, lo + s, hi);
  }

  /** The open chunk, with lines lo..i, behind `prev`; before the first line it is empty. */
  ghost predicate IsOpen(lines: seq<string>, size: int, overlap: nat, prev: Option<Chunk>, lo: nat, i: nat) {
    && StartsAt(lines, overlap, prev, lo)
    && lo <= Done(prev) <= i <= |lines|
    && (i == Done(prev) ==> i == 0)
    && (i > Done(prev) + 1 ==> Size(lines, lo, i) <= size)
  }

  /** The state of the chunking loop with `i` lines read and lines lo..i in the open chunk. */
  ghost predicate Reading(lines: seq<string>, size: int, overlap: nat,
                          chunks: seq<Chunk>, current: seq<string>, currentSize: nat, lo: nat, i: nat)
  {
    && lo <= i <= |lines|
    && current == lines[lo..i]
    && currentSize == Size(lines, lo, i)
    && AllNext(lines, size, overlap, chunks, |chunks|)
    && IsOpen(lines, size, overlap, Prev(chunks, |chunks|), lo, i)
  }

  lemma NextLineFits(lines: seq<string>, size: int, overlap: nat,
                     chunks: seq<Chunk>, current: seq<string>, currentSize: nat, lo: nat, i: nat)
    requires Reading(lines, size, overlap, chunks, current, currentSize, lo, i) && i < |lines|
    requires lo == i || currentSize + |lines[i]| + 1 <= size
    ensures Reading(lines, size, overlap, chunks, current + [lines[i]], currentSize + |lines[i]| + 1, lo, i + 1)
  {
    Extended(lines, lo, i);
  }

  /** The open chunk, closed. */
  lemma CurrentIsNext(lines: seq<string>, size: int, overlap: nat,
                      chunks: seq<Chunk>, current: seq<string>, currentSize: nat, lo: nat, i: nat, c: Chunk)
    requires Reading(lines, size, overlap, chunks, current, currentSize, lo, i) && current != []
    requires i < |lines| ==> currentSize + |lines[i]| + 1 > size
    requires c.number == |chunks| + 1 && c.startLine == lo + 1 && c.endLine == i
    ensures AllNext(lines, size, overlap, chunks + [c], |chunks| + 1)
    ensures Prev(chunks + [c], |chunks| + 1) == Some(c)
  {
    OneMore(lines, size, overlap, chunks, c);
  }

  lemma Reopen(lines: seq<string>, size: int, overlap: nat, c: Chunk, lo: nat, i: nat, s: nat)
    requires c.startLine == lo + 1 <= c.endLine == i < |lines| && IsOverlap(lines, lo, i, s, overlap)
    ensures IsOpen(lines, size, overlap, Some(c), s, i + 1)
  {
  }

  /** The new open chunk: the overlap with the one just closed, and the line that did not fit into it. */
  method StartWithOverlap(current: seq<string>, overlap: nat, lines: seq<string>, ghost lo: nat, i: nat)
    returns (next: seq<string>, startLine: nat, nextSize: nat, ghost s: nat)
    requires lo < i < |lines| && current == lines[lo..i]
    ensures IsOverlap(lines, lo, i, s, overlap) && startLine == s + 1
    ensures next == lines[s..i + 1] && nextSize == Size(lines, s, i + 1)
  {
    var kept: seq<string>;
    kept := OverlapLines(current, overlap);
    s := i - |kept|;
    OverlapOfCopy(lines, lo, i, current, |current| - |kept|, overlap);
    Extended(lines, s, i);
    next := kept + [lines[i]];
    startLine := if i + 1 - |kept| > 1 then i + 1 - |kept| else 1;
    nextSize := Size(next, 0, |next|);
    SizeOfCopy(lines, s, i + 1, next, |next|);
  }

  /** Yielding the open chunk, which is full or reaches the end of the document. */
  method Emit(chunks: seq<Chunk>, current: seq<string>, startLine: nat, i: nat,
              ghost lines: seq<string>, ghost size: int, ghost overlap: nat, ghost currentSize: nat, ghost lo: nat)
    returns (more: seq<Chunk>)
    requires Reading(lines, size, overlap, chunks, current, currentSize, lo, i) && current != [] && startLine == lo + 1
    requires i < |lines| ==> currentSize + |lines[i]| + 1 > size
    requires AllHaveText(lines, chunks, |chunks|)
    ensures AllHaveText(lines, more, |more|) && AllNext(lines, size, overlap, more, |more|)
    ensures Prev(more, |more|).Some? && Prev(more, |more|).value.startLine == lo + 1 && Prev(more, |more|).value.endLine == i
  {
    var c := Chunk(|chunks| + 1, JoinLines(current, 0, |current|), startLine, i);
    JoinOfCopy(lines, lo, i, current, |current|);
    CurrentIsNext(lines, size, overlap, chunks, current, currentSize, lo, i, c);
    StillHaveText(lines, chunks, c, |chunks|);
    more := chunks + [c];
  }

  method ChunkDocument(lines: seq<string>, size: int, overlap: nat) returns (chunks: seq<Chunk>)
    ensures IsChunking(lines, size, overlap, chunks)
  {
    chunks := [];
    if lines == [] {
      return;
    }
    var current: seq<string> := [];
    var startLine: nat := 1;
    var currentSize: nat := 0;
    var i: nat := 0;
    ghost var lo: nat := 0;
    while i < |lines|
      invariant i <= |lines| && startLine == lo + 1 && AllHaveText(lines, chunks, |chunks|)
      invariant Reading(lines, size, overlap, chunks, current, currentSize, lo, i)
    {
      var line := lines[i];
      var extra := |line| + 1;
      if current != [] && currentSize + extra > size {
        chunks := Emit(chunks, current, startLine, i, lines, size, overlap, currentSize, lo);
        ghost var s: nat;
        current, startLine, currentSize, s := StartWithOverlap(current, overlap, lines, lo, i);
        Reopen(lines, size, overlap, Prev(chunks, |chunks|).value, lo, i, s);
        lo := s;
      } else {
        NextLineFits(lines, size, overlap, chunks, current, currentSize, lo, i);
        current := current + [line];
        currentSize := currentSize + extra;
      }
      i := i + 1;
    }
    chunks := Emit(chunks, current, startLine, i, lines, size, overlap, currentSize, lo);
  }

  // ---- what a chunking is -------------------------------------------------------------------------

  /** More lines, more characters. */
  lemma SizeMonotone(lines: seq<string>, lo: nat, mid: nat, hi: nat)
    requires lo <= mid <= hi <= |lines|
    ensures Size(lines, lo, mid) <= Size(lines, lo, hi) && Size(lines, mid, hi) <= Size(lines, lo, hi)
  {
    SizeSplits(lines, lo, mid, hi);
  }

  lemma OverlapUnique(lines: seq<string>, lo: nat, hi: nat, s: nat, s': nat, overlap: nat)
    requires IsOverlap(lines, lo, hi, s, overlap) && IsOverlap(lines, lo, hi, s', overlap)
    ensures s == s'
  {
    if s < s' {
      SizeMonotone(lines, s, s' - 1, hi);
    } else if s' < s {
      SizeMonotone(lines, s', s - 1, hi);
    }
  }

  lemma NextUnique(lines: seq<string>, size: int, overlap: nat, prev: Option<Chunk>, a: Chunk, b: Chunk)
    requires IsNext(lines, size, overlap, prev, a) && IsNext(lines, size, overlap, prev, b)
    ensures a.startLine == b.startLine && a.endLine == b.endLine
  {
    if prev.Some? {
      var p := prev.value;
      OverlapUnique(lines, p.startLine - 1, p.endLine, a.startLine - 1, b.startLine - 1, overlap);
    }
    var lo := a.startLine - 1;
    if a.endLine < b.endLine {
      SizeMonotone(lines, lo, a.endLine + 1, b.endLine);
    } else if b.endLine < a.endLine {
      SizeMonotone(lines, lo, b.endLine + 1, a.endLine);
    }
  }

  lemma {:induction false} SamePrefix(lines: seq<string>, size: int, overlap: nat, a: seq<Chunk>, b: seq<Chunk>, n: nat)
    requires n <= |a| && n <= |b|
    requires AllNext(lines, size, overlap, a, n) && AllNext(lines, size, overlap, b, n)
    requires AllHaveText(lines, a, n) && AllHaveText(lines, b, n)
    ensures Prev(a, n) == Prev(b, n) && forall k :: 0 <= k < n ==> a[k] == b[k]
    decreases n
  {
    if n > 0 {
      SamePrefix(lines, size, overlap, a, b, n - 1);
      NextUnique(lines, size, overlap, Prev(a, n - 1), a[n - 1], b[n - 1]);
    }
  }

  lemma {:induction false} FewerNext(lines: seq<string>, size: int, overlap: nat, chunks: seq<Chunk>, n: nat, m: nat)
    requires m <= n <= |chunks| && AllNext(lines, size, overlap, chunks, n)
    ensures AllNext(lines, size, overlap, chunks, m)
    decreases n
  {
    if m < n {
      FewerNext(lines, size, overlap, chunks, n - 1, m);
    }
  }

  lemma {:induction false} FewerHaveText(lines: seq<string>, chunks: seq<Chunk>, n: nat, m: nat)
    requires m <= n <= |chunks| && AllHaveText(lines, chunks, n)
    ensures AllHaveText(lines, chunks, m)
    decreases n
  {
    if m < n {
      FewerHaveText(lines, chunks, n - 1, m);
    }
  }

  /** Once the last line is reached there is no further chunk. */
  lemma NotLonger(lines: seq<string>, size: int, overlap: nat, a: seq<Chunk>, b: seq<Chunk>)
    requires IsChunking(lines, size, overlap, a) && IsChunking(lines, size, overlap, b)
    ensures |b| <= |a|
  {
    if |a| < |b| {
      FewerNext(lines, size, overlap, b, |b|, |a|);
      FewerHaveText(lines, b, |b|, |a|);
      SamePrefix(lines, size, overlap, a, b, |a|);
      ChunkIsNext(lines, size, overlap, b, |b|, |a|);
      assert false;
    }
  }

  /** A document has exactly one chunking, so the method's result is fixed to the last character. */
  lemma ChunkingUnique(lines: seq<string>, size: int, overlap: nat, a: seq<Chunk>, b: seq<Chunk>)
    requires IsChunking(lines, size, overlap, a) && IsChunking(lines, size, overlap, b)
    ensures a == b
  {
    NotLonger(lines, size, overlap, a, b);
    NotLonger(lines, size, overlap, b, a);
    SamePrefix(lines, size, overlap, a, b, |a|);
  }

  // ---- what the reader of the chunks gets ---------------------------------------------------------

  /** Lines lo..hi of the document. */
  function Range(lines: seq<string>, lo: nat, hi: nat): seq<string> {
    if lo <= hi <= |lines| then lines[lo..hi] else []
  }

  /** The lines of the first `n` chunks without those repeated from the chunk before, one after the other. */
  function NewLines(lines: seq<string>, chunks: seq<Chunk>, n: nat): seq<string>
    requires n <= |chunks|
  {
    if n == 0 then [] else
      NewLines(lines, chunks, n - 1) + Range(lines, Done(Prev(chunks, n - 1)), chunks[n - 1].endLine)
  }

  lemma {:induction false} NewLinesReach(lines: seq<string>, size: int, overlap: nat, chunks: seq<Chunk>, n: nat)
    requires n <= |chunks| && AllNext(lines, size, overlap, chunks, n)
    ensures Done(Prev(chunks, n)) <= |lines| && NewLines(lines, chunks, n) == lines[..Done(Prev(chunks, n))]
    decreases n
  {
    if n > 0 {
      NewLinesReach(lines, size, overlap, chunks, n - 1);
      NextReaches(lines, size, overlap, Prev(chunks, n - 1), chunks[n - 1]);
    }
  }

  lemma NextReaches(lines: seq<string>, size: int, overlap: nat, prev: Option<Chunk>, c: Chunk)
    requires IsNext(lines, size, overlap, prev, c)
    ensures Done(prev) < c.endLine <= |lines|
    ensures lines[..Done(prev)] + Range(lines, Done(prev), c.endLine) == lines[..c.endLine]
  {
  }

  /** Dropping the repeated lines and concatenating rebuilds the document; ends increase and nothing is skipped. */
  lemma ChunksRebuildDocument(lines: seq<string>, size: int, overlap: nat, chunks: seq<Chunk>)
    requires IsChunking(lines, size, overlap, chunks)
    ensures NewLines(lines, chunks, |chunks|) == lines
    ensures forall k :: 0 < k < |chunks| ==>
              chunks[k - 1].endLine < chunks[k].endLine && chunks[k].startLine <= chunks[k - 1].endLine + 1
  {
    NewLinesReach(lines, size, overlap, chunks, |chunks|);
    forall k | 0 < k < |chunks|
      ensures chunks[k - 1].endLine < chunks[k].endLine && chunks[k].startLine <= chunks[k - 1].endLine + 1
    {
      ChunkIsNext(lines, size, overlap, chunks, |chunks|, k);
    }
  }

  lemma {:induction false} JoinedLength(lines: seq<string>, lo: nat, hi: nat)
    requires lo < hi <= |lines|
    ensures |JoinLines(lines, lo, hi)| == Size(lines, lo, hi) - 1
    decreases hi
  {
    if lo + 1 < hi {
      JoinedLength(lines, lo, hi - 1);
    } else {
      assert Size(lines, lo, lo) == 0;
    }
  }

  /**
   A chunk exceeds the chunk size only when it has a single line of its own, and then by no more than that
   line and the overlap.
   */
  lemma ChunkSizeBound(lines: seq<string>, size: int, overlap: nat, chunks: seq<Chunk>, k: nat, longest: nat)
    requires IsChunking(lines, size, overlap, chunks) && k < |chunks|
    requires forall i :: 0 <= i < |lines| ==> |lines[i]| <= longest
    ensures |chunks[k].text| < size || |chunks[k].text| <= (if k == 0 then 0 else overlap) + longest
  {
    ChunkIsNext(lines, size, overlap, chunks, |chunks|, k);
    var c, done := chunks[k], Done(Prev(chunks, k));
    var lo := c.startLine - 1;
    ChunkHasText(lines, chunks, |chunks|, k);
    JoinedLength(lines, lo, c.endLine);
    if c.endLine == done + 1 {
      assert k == 0 ==> Size(lines, lo, done) == 0;
    }
  }

  // ---- several documents --------------------------------------------------------------------------

  /** The characters at which `splitlines` breaks a line; a carriage return and a line feed together are one break. */
  predicate IsBreak(c: char) {
    var n := c as int;
    0x0A <= n <= 0x0D || 0x1C <= n <= 0x1E || n == 0x85 || n == 0x2028 || n == 0x2029
  }

  /** How long the break at the start of `s` is. */
  function BreakLength(s: string): (n: nat)
    requires s != "" && IsBreak(s[0])
    ensures 1 <= n <= |s|
  {
    if |s| > 1 && s[0] == '\r' && s[1] == '\n' then 2 else 1
  }

  /** `splitlines()`, when `line` is what has been read of the current line. */
  function LinesFrom(line: string, s: string): seq<string>
    decreases |s|
  {
    if s == "" then
      if line == "" then [] else [line]
    else if IsBreak(s[0]) then [line] + LinesFrom("", s[BreakLength(s)..])
    else LinesFrom(line + [s[0]], s[1..])
  }

  function SplitLines(text: string): seq<string> {
    LinesFrom("", text)
  }

  /** The characters of a text that break no line. */
  function Unbroken(s: string): string {
    if s == "" then "" else (if IsBreak(s[0]) then "" else [s[0]]) + Unbroken(s[1..])
  }

  function Concat(lines: seq<string>): string {
    if lines == [] then "" else lines[0] + Concat(lines[1..])
  }

  lemma {:induction false} LinesKeepText(line: string, s: string)
    ensures Concat(LinesFrom(line, s)) == line + Unbroken(s)
    decreases |s|
  {
    if s == "" {
      assert line + "" == line;
    } else if IsBreak(s[0]) {
      var rest := s[BreakLength(s)..];
      LinesKeepText("", rest);
      assert Unbroken(s) == Unbroken(rest) by {
        if BreakLength(s) == 2 {
          assert Unbroken(s[1..]) == "" + Unbroken(s[1..][1..]) && s[1..][1..] == rest;
        }
      }
      assert ([line] + LinesFrom("", rest))[1..] == LinesFrom("", rest);
      assert "" + Unbroken(rest) == Unbroken(rest);
    } else {
      LinesKeepText(line + [s[0]], s[1..]);
      assert line + [s[0]] + Unbroken(s[1..]) == line + ([s[0]] + Unbroken(s[1..]));
    }
  }

  lemma {:induction false} LinesAreUnbroken(line: string, s: string, k: nat)
    requires (forall i :: 0 <= i < |line| ==> !IsBreak(line[i])) && k < |LinesFrom(line, s)|
    ensures forall i :: 0 <= i < |LinesFrom(line, s)[k]| ==> !IsBreak(LinesFrom(line, s)[k][i])
    decreases |s|
  {
    if s == "" {
    } else if IsBreak(s[0]) {
      if k > 0 {
        LinesAreUnbroken("", s[BreakLength(s)..], k - 1);
      }
    } else {
      LinesAreUnbroken(line + [s[0]], s[1..], k);
    }
  }

  /** Splitting into lines loses and moves nothing but the breaks, and leaves none in a line. */
  lemma SplittingKeepsText(text: string)
    ensures Concat(SplitLines(text)) == Unbroken(text)
    ensures forall k, i :: 0 <= k < |SplitLines(text)| && 0 <= i < |SplitLines(text)[k]| ==> !IsBreak(SplitLines(text)[k][i])
  {
    LinesKeepText("", text);
    assert "" + Unbroken(text) == Unbroken(text);
    forall k | 0 <= k < |SplitLines(text)|
      ensures forall i :: 0 <= i < |SplitLines(text)[k]| ==> !IsBreak(SplitLines(text)[k][i])
    {
      LinesAreUnbroken("", text, k);
    }
  }

  datatype Document = Document(path: string, text: string)

  datatype RetrievalChunk = RetrievalChunk(id: string, source: string, text: string, startLine: nat, endLine: nat)

  function RecordOf(path: string, c: Chunk): RetrievalChunk {
    RetrievalChunk(path + ":" + Decimal(c.number), path, c.text, c.startLine, c.endLine)
  }

  function From(path: string, chunks: seq<Chunk>): seq<RetrievalChunk> {
    seq(|chunks|, k requires 0 <= k < |chunks| => RecordOf(path, chunks[k]))
  }

  /** The chunks of the documents one after another, each document with a chunking of its own lines. */
  ghost predicate AreChunkings(documents: seq<Document>, size: int, overlap: nat, chunks: seq<RetrievalChunk>)
    decreases |documents|
  {
    if documents == [] then chunks == [] else
      var n := |documents| - 1;
      exists before: seq<RetrievalChunk>, last: seq<Chunk> ::
        && IsChunking(SplitLines(documents[n].text), size, overlap, last)
        && chunks == before + From(documents[n].path, last)
        && AreChunkings(documents[..n], size, overlap, before)
  }

  method ChunkDocuments(documents: seq<Document>, size: int, overlap: nat) returns (chunks: seq<RetrievalChunk>)
    ensures AreChunkings(documents, size, overlap, chunks)
  {
    chunks := [];
    for i := 0 to |documents|
      invariant AreChunkings(documents[..i], size, overlap, chunks)
    {
      var more := ChunkDocument(SplitLines(documents[i].text), size, overlap);
      OneMoreDocument(documents, size, overlap, i, chunks, more);
      chunks := chunks + From(documents[i].path, more);
    }
    assert documents[..|documents|] == documents;
  }

  lemma OneMoreDocument(documents: seq<Document>, size: int, overlap: nat, i: nat, before: seq<RetrievalChunk>, last: seq<Chunk>)
    requires i < |documents| && AreChunkings(documents[..i], size, overlap, before)
    requires IsChunking(SplitLines(documents[i].text), size, overlap, last)
    ensures AreChunkings(documents[..i + 1], size, overlap, before + From(documents[i].path, last))
  {
    var d := documents[..i + 1];
    assert d[..i] == documents[..i] && d[i] == documents[i];
  }

  /** The documents determine the chunks of the index. */
  lemma {:induction false} IndexUnique(documents: seq<Document>, size: int, overlap: nat,
                                       a: seq<RetrievalChunk>, b: seq<RetrievalChunk>)
    requires AreChunkings(documents, size, overlap, a) && AreChunkings(documents, size, overlap, b)
    ensures a == b
    decreases |documents|
  {
    if documents != [] {
      var n := |documents| - 1;
      var lines := SplitLines(documents[n].text);
      var a0, a1: seq<Chunk> :| IsChunking(lines, size, overlap, a1) && a == a0 + From(documents[n].path, a1)
                                && AreChunkings(documents[..n], size, overlap, a0);
      var b0, b1: seq<Chunk> :| IsChunking(lines, size, overlap, b1) && b == b0 + From(documents[n].path, b1)
                                && AreChunkings(documents[..n], size, overlap, b0);
      ChunkingUnique(lines, size, overlap, a1, b1);
      IndexUnique(documents[..n], size, overlap, a0, b0);
    }
  }
}
