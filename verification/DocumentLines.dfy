/**
 The lines of a document: which texts consist of which lines, how `splitlines` finds them again, and what
 a chunk's text and line numbers say about the document.
 */
module DocumentLines {
  import opened Numbers
  import opened Options
  import opened LineChunks

  // ---- lines and the breaks between them ----------------------------------------------------------------

  /** The characters that break a line. */
  lemma BreaksAre(c: char)
    ensures IsBreak(c)
       <==> c in {'\n', '\r', '\U{0B}', '\U{0C}', '\U{1C}', '\U{1D}', '\U{1E}', '\U{85}', '\U{2028}', '\U{2029}'}
  {
  }

  predicate IsUnbroken(line: string) {
    forall i :: 0 <= i < |line| ==> !IsBreak(line[i])
  }

  predicate IsLineBreak(b: string) {
    b == "\r\n" || (|b| == 1 && IsBreak(b[0]))
  }

  /** The lines one after another, each with its break behind it; the last one may have none. */
  function Joined(lines: seq<string>, breaks: seq<string>): string
    requires |breaks| <= |lines|
  {
    if lines == [] then "" else if breaks == [] then lines[0] else lines[0] + breaks[0] + Joined(lines[1..], breaks[1..])
  }

  /**
   Lines without breaks in them, and breaks between them: a last line without a break is not empty, and no
   carriage return is one break with the line feed behind it another.
   */
  ghost predicate IsLayout(lines: seq<string>, breaks: seq<string>) {
    && |breaks| <= |lines| <= |breaks| + 1
    && (forall k :: 0 <= k < |lines| ==> IsUnbroken(lines[k]))
    && (forall k :: 0 <= k < |breaks| ==> IsLineBreak(breaks[k]))
    && (|lines| == |breaks| + 1 ==> lines[|lines| - 1] != "")
    && (forall k :: 0 <= k < |breaks| - 1 && breaks[k] == "\r" && lines[k + 1] == "" ==> breaks[k + 1] != "\n")
  }

  lemma LayoutOfRest(lines: seq<string>, breaks: seq<string>)
    requires breaks != [] && IsLayout(lines, breaks)
    ensures IsLayout(lines[1..], breaks[1..])
  {
    assert forall k :: 0 <= k < |lines[1..]| ==> lines[1..][k] == lines[k + 1];
    assert forall k :: 0 <= k < |breaks[1..]| ==> breaks[1..][k] == breaks[k + 1];
  }

  lemma {:induction false} ReadsUnbroken(word: string, line: string, s: string)
    requires IsUnbroken(line)
    ensures LinesFrom(word, line + s) == LinesFrom(word + line, s)
    decreases |line|
  {
    if line == "" {
      assert line + s == s && word + line == word;
    } else {
      var all := line + s;
      assert all[0] == line[0] && all[1..] == line[1..] + s;
      ReadsUnbroken(word + [line[0]], line[1..], s);
      assert word + [line[0]] + line[1..] == word + line;
    }
  }

  /** Behind a carriage return that is a break of its own there is no line feed. */
  lemma NoLineFeedBehind(lines: seq<string>, breaks: seq<string>)
    requires breaks != [] && breaks[0] == "\r" && IsLayout(lines, breaks)
    ensures var rest := Joined(lines[1..], breaks[1..]); rest != "" ==> rest[0] != '\n'
  {
    var more, rest := lines[1..], Joined(lines[1..], breaks[1..]);
    if more != [] {
      assert more[0] == lines[1] && IsUnbroken(lines[1]);
      if more[0] == "" && |breaks| > 1 {
        assert breaks[1..][0] == breaks[1] && IsLineBreak(breaks[1]);
        assert rest[0] == breaks[1][0];
        assert breaks[1] == [breaks[1][0]] || breaks[1] == "\r\n";
      } else if more[0] != "" {
        assert rest[0] == more[0][0];
      }
    }
  }

  lemma BreakIs(lines: seq<string>, breaks: seq<string>, s: string)
    requires breaks != [] && IsLayout(lines, breaks) && s == breaks[0] + Joined(lines[1..], breaks[1..])
    ensures s != "" && IsBreak(s[0]) && BreakLength(s) == |breaks[0]| && s[BreakLength(s)..] == Joined(lines[1..], breaks[1..])
  {
    var b, rest := breaks[0], Joined(lines[1..], breaks[1..]);
    assert IsLineBreak(b) && s[0] == b[0];
    if b == "\r\n" {
      assert s[1] == b[1];
    } else if b == "\r" {
      NoLineFeedBehind(lines, breaks);
      assert |s| > 1 ==> s[1] == rest[0];
    } else {
      assert b == [b[0]];
    }
  }

  /** Lines laid out in a text are found again, empty ones included; a final break adds none. */
  lemma {:induction false} LinesAreRecovered(lines: seq<string>, breaks: seq<string>)
    requires IsLayout(lines, breaks)
    ensures SplitLines(Joined(lines, breaks)) == lines
    decreases |lines|
  {
    if lines != [] {
      var line := lines[0];
      assert IsUnbroken(line) && "" + line == line;
      if breaks == [] {
        ReadsUnbroken("", line, "");
        assert line + "" == line && lines == [line];
      } else {
        LayoutOfRest(lines, breaks);
        LinesAreRecovered(lines[1..], breaks[1..]);
        FirstIsRecovered(lines, breaks);
      }
    }
  }

  lemma FirstIsRecovered(lines: seq<string>, breaks: seq<string>)
    requires breaks != [] && IsLayout(lines, breaks) && SplitLines(Joined(lines[1..], breaks[1..])) == lines[1..]
    ensures SplitLines(Joined(lines, breaks)) == lines
  {
    var line, s := lines[0], breaks[0] + Joined(lines[1..], breaks[1..]);
    assert Joined(lines, breaks) == line + s && "" + line == line;
    ReadsUnbroken("", line, s);
    BreakIs(lines, breaks, s);
    assert LinesFrom(line, s) == [line] + lines[1..];
  }

  lemma {:induction false} LayoutOf(line: string, s: string) returns (lines: seq<string>, breaks: seq<string>)
    requires IsUnbroken(line)
    ensures lines == LinesFrom(line, s) && IsLayout(lines, breaks) && Joined(lines, breaks) == line + s
    decreases |s|
  {
    if s == "" {
      lines, breaks := if line == "" then [] else [line], [];
      assert line + s == line;
    } else if IsBreak(s[0]) {
      var b, rest := s[..BreakLength(s)], s[BreakLength(s)..];
      var ls, bs := LayoutOf("", rest);
      BreakAt(s);
      assert "" + rest == rest;
      LayoutOfMore(line, b, rest, ls, bs);
      lines, breaks := [line] + ls, [b] + bs;
      Regroup(line, b, rest);
    } else {
      lines, breaks := LayoutOf(line + [s[0]], s[1..]);
      assert line + [s[0]] + s[1..] == line + s;
    }
  }

  lemma Regroup(a: string, b: string, c: string)
    ensures a + b + c == a + (b + c)
  {
  }

  lemma BreakAt(s: string)
    requires s != "" && IsBreak(s[0])
    ensures var b, rest := s[..BreakLength(s)], s[BreakLength(s)..];
            b + rest == s && IsLineBreak(b) && (b == "\r" ==> rest == "" || rest[0] != '\n')
  {
    var b, rest := s[..BreakLength(s)], s[BreakLength(s)..];
    if |b| == 2 {
      assert b == [s[0], s[1]];
    } else if rest != "" {
      assert rest[0] == s[1];
    }
  }

  lemma LayoutOfMore(line: string, b: string, rest: string, lines: seq<string>, breaks: seq<string>)
    requires IsUnbroken(line) && IsLineBreak(b) && IsLayout(lines, breaks) && Joined(lines, breaks) == rest
    requires b == "\r" ==> rest == "" || rest[0] != '\n'
    ensures IsLayout([line] + lines, [b] + breaks) && Joined([line] + lines, [b] + breaks) == line + b + rest
  {
    var ls, bs := [line] + lines, [b] + breaks;
    assert ls[1..] == lines && bs[1..] == breaks;
    assert forall k :: 1 <= k < |ls| ==> ls[k] == lines[k - 1];
    assert forall k :: 1 <= k < |bs| ==> bs[k] == breaks[k - 1];
    if b == "\r" && lines != [] && breaks != [] && lines[0] == "" {
      assert rest[0] == breaks[0][0];
    }
  }

  /** Every text is laid out in the lines it is split into, so these lines are the only ones it has. */
  lemma EveryTextIsItsLines(text: string) returns (breaks: seq<string>)
    ensures IsLayout(SplitLines(text), breaks) && Joined(SplitLines(text), breaks) == text
  {
    var lines: seq<string>;
    lines, breaks := LayoutOf("", text);
    assert "" + text == text;
  }

  lemma LinesAreUnique(text: string, lines: seq<string>, breaks: seq<string>)
    requires IsLayout(lines, breaks) && Joined(lines, breaks) == text
    ensures lines == SplitLines(text)
  {
    LinesAreRecovered(lines, breaks);
  }

  /** A blank line counts. */
  lemma BlankLineCounts()
    ensures SplitLines("a" + "\n" + "\n" + "b") == ["a", "", "b"]
  {
    var lines, breaks := ["a", "", "b"], ["\n", "\n"];
    assert lines[1..] == ["", "b"] && lines[1..][1..] == ["b"] && breaks[1..] == ["\n"] && breaks[1..][1..] == [];
    assert Joined(["b"], []) == "b";
    assert Joined(["", "b"], ["\n"]) == "" + "\n" + "b" == "\n" + "b";
    assert Joined(lines, breaks) == "a" + "\n" + ("\n" + "b") == "a" + "\n" + "\n" + "b";
    LinesAreRecovered(lines, breaks);
  }

  // ---- a chunk in its document --------------------------------------------------------------------------

  function LineFeeds(n: nat): seq<string> {
    seq(n, _ => "\n")
  }

  lemma {:induction false} JoinedAppend(lines: seq<string>, breaks: seq<string>, line: string, b: string)
    requires |lines| == |breaks|
    ensures Joined(lines + [line], breaks + [b]) == Joined(lines, breaks) + line + b
    decreases |lines|
  {
    var ls, bs := lines + [line], breaks + [b];
    if lines == [] {
      assert ls[1..] == [] && bs[1..] == [];
      assert line + b + "" == "" + line + b;
    } else {
      assert ls[1..] == lines[1..] + [line] && bs[1..] == breaks[1..] + [b];
      JoinedAppend(lines[1..], breaks[1..], line, b);
      var rest := Joined(lines[1..], breaks[1..]);
      assert Joined(ls, bs) == lines[0] + breaks[0] + (rest + line + b);
      assert Joined(lines, breaks) + line + b == lines[0] + breaks[0] + rest + line + b;
    }
  }

  lemma {:induction false} JoinLinesIs(lines: seq<string>, lo: nat, hi: nat)
    requires lo < hi <= |lines|
    ensures JoinLines(lines, lo, hi) + "\n" == Joined(lines[lo..hi], LineFeeds(hi - lo))
    decreases hi
  {
    var n, last := hi - lo, lines[hi - 1];
    assert lines[lo..hi] == lines[lo..hi - 1] + [last] && LineFeeds(n) == LineFeeds(n - 1) + ["\n"];
    JoinedAppend(lines[lo..hi - 1], LineFeeds(n - 1), last, "\n");
    var before := Joined(lines[lo..hi - 1], LineFeeds(n - 1));
    if n > 1 {
      JoinLinesIs(lines, lo, hi - 1);
      var joined := JoinLines(lines, lo, hi - 1);
      assert joined + "\n" + last + "\n" == before + last + "\n";
    } else {
      assert lines[lo..hi - 1] == [] && before == "";
      assert "" + last + "\n" == last + "\n";
    }
  }

  lemma LineFeedLayout(lines: seq<string>)
    requires forall k :: 0 <= k < |lines| ==> IsUnbroken(lines[k])
    ensures IsLayout(lines, LineFeeds(|lines|))
  {
  }

  lemma ChunkLines(lines: seq<string>, c: Chunk)
    requires HasText(lines, c) && c.startLine <= c.endLine
    requires forall k :: 0 <= k < |lines| ==> IsUnbroken(lines[k])
    ensures SplitLines(c.text + "\n") == lines[c.startLine - 1..c.endLine]
  {
    var own := lines[c.startLine - 1..c.endLine];
    JoinLinesIs(lines, c.startLine - 1, c.endLine);
    LineFeedLayout(own);
    LinesAreRecovered(own, LineFeeds(|own|));
  }

  /**
   Chunk k of a document is numbered k + 1, and its text, closed by a line feed, splits into exactly the lines
   of the document that its line numbers name.
   */
  lemma ChunkIsItsLines(text: string, size: int, overlap: nat, chunks: seq<Chunk>, k: nat)
    requires IsChunking(SplitLines(text), size, overlap, chunks) && k < |chunks|
    ensures chunks[k].number == k + 1 && 1 <= chunks[k].startLine <= chunks[k].endLine <= |SplitLines(text)|
    ensures SplitLines(chunks[k].text + "\n") == SplitLines(text)[chunks[k].startLine - 1..chunks[k].endLine]
  {
    var lines := SplitLines(text);
    SplittingKeepsText(text);
    ChunkIsNext(lines, size, overlap, chunks, |chunks|, k);
    ChunkHasText(lines, chunks, |chunks|, k);
    ChunkLines(lines, chunks[k]);
  }

  /** A chunk that is not the last is full: the next line of the document does not fit into it with its line break. */
  lemma ChunksAreFull(lines: seq<string>, size: int, overlap: nat, chunks: seq<Chunk>, k: nat)
    requires IsChunking(lines, size, overlap, chunks) && k + 1 < |chunks|
    ensures 1 <= chunks[k].endLine < |lines|
    ensures |chunks[k].text| + 1 + |lines[chunks[k].endLine]| + 1 > size
  {
    ChunkIsNext(lines, size, overlap, chunks, |chunks|, k);
    ChunkIsNext(lines, size, overlap, chunks, |chunks|, k + 1);
    ChunkHasText(lines, chunks, |chunks|, k);
    JoinedLength(lines, chunks[k].startLine - 1, chunks[k].endLine);
  }

  /**
   The lines that a chunk repeats from the one before take at most the overlap, a line break counted with
   each, and one more line would take more.
   */
  lemma RepeatedLinesAre(lines: seq<string>, size: int, overlap: nat, chunks: seq<Chunk>, k: nat)
    requires IsChunking(lines, size, overlap, chunks) && k + 1 < |chunks|
    ensures var c, next := chunks[k], chunks[k + 1];
            && 1 <= c.startLine <= next.startLine <= c.endLine + 1 <= next.endLine <= |lines|
            && (next.startLine <= c.endLine ==> |JoinLines(lines, next.startLine - 1, c.endLine)| + 1 <= overlap)
            && (next.startLine > c.startLine ==> |JoinLines(lines, next.startLine - 2, c.endLine)| + 1 > overlap)
  {
    ChunkIsNext(lines, size, overlap, chunks, |chunks|, k);
    ChunkIsNext(lines, size, overlap, chunks, |chunks|, k + 1);
    NextRepeats(lines, size, overlap, chunks[k], chunks[k + 1]);
  }

  lemma NextRepeats(lines: seq<string>, size: int, overlap: nat, c: Chunk, next: Chunk)
    requires IsNext(lines, size, overlap, Some(c), next)
    ensures && 1 <= c.startLine <= next.startLine <= c.endLine + 1 <= next.endLine <= |lines|
            && (next.startLine <= c.endLine ==> |JoinLines(lines, next.startLine - 1, c.endLine)| + 1 <= overlap)
            && (next.startLine > c.startLine ==> |JoinLines(lines, next.startLine - 2, c.endLine)| + 1 > overlap)
  {
    OverlapInCharacters(lines, c.startLine - 1, c.endLine, next.startLine - 1, overlap);
  }

  lemma OverlapInCharacters(lines: seq<string>, lo: nat, hi: nat, s: nat, overlap: nat)
    requires IsOverlap(lines, lo, hi, s, overlap)
    ensures s < hi ==> |JoinLines(lines, s, hi)| + 1 <= overlap
    ensures s > lo ==> |JoinLines(lines, s - 1, hi)| + 1 > overlap
  {
    if s < hi {
      JoinedLength(lines, s, hi);
    }
    if s > lo {
      JoinedLength(lines, s - 1, hi);
    }
  }

  /** Record `r` is number `n` of the chunks of the document: its lines, under the document's path. */
  ghost predicate IsRecordOf(d: Document, r: RetrievalChunk, n: nat) {
    && r.source == d.path && r.id == d.path + ":" + Decimal(n)
    && 1 <= r.startLine <= r.endLine <= |SplitLines(d.text)|
    && SplitLines(r.text + "\n") == SplitLines(d.text)[r.startLine - 1..r.endLine]
  }

  /** Every record of the index names its document and the lines there that it holds. */
  lemma {:induction false} RecordsNameTheirLines(documents: seq<Document>, size: int, overlap: nat,
                                                 chunks: seq<RetrievalChunk>, k: nat) returns (j: nat, n: nat)
    requires AreChunkings(documents, size, overlap, chunks) && k < |chunks|
    ensures j < |documents| && n >= 1 && IsRecordOf(documents[j], chunks[k], n)
    decreases |documents|
  {
    var last := |documents| - 1;
    var d := documents[last];
    var before: seq<RetrievalChunk>, own: seq<Chunk> :|
      && IsChunking(SplitLines(d.text), size, overlap, own)
      && chunks == before + From(d.path, own)
      && AreChunkings(documents[..last], size, overlap, before);
    if k < |before| {
      j, n := RecordsNameTheirLines(documents[..last], size, overlap, before, k);
    } else {
      j, n := last, k - |before| + 1;
      ChunkIsItsLines(d.text, size, overlap, own, k - |before|);
      assert chunks[k] == RecordOf(d.path, own[k - |before|]);
    }
  }
}
