/** How a source file is cut into chunks (internal/indexer/chunker.go): the choice of top-level matches, the
    gaps between them, and the overlapping windows of long pieces. Positions count runes. */
module ChunkModel {
  datatype Span = Span(start: nat, end: nat)

  /** The fields of a chunk that this part of the code looks at or sets; the others are copied along. */
  datatype Chunk = Chunk(content: string, contextual: string, kind: string, startLine: int, endLine: int)

  datatype Match = Match(start: nat, end: nat, chunk: Chunk)

  const MAX_RUNES: nat := 8000
  const OVERLAP: nat := 800
  const FAST_SIZE: nat := 3000
  const FAST_OVERLAP: nat := 500

  // ---- Lines ------------------------------------------------------------------------------------------------

  /** countLines, lines 561-563. */
  function CountLines(s: string): nat {
    if s == "" then 0 else (if s[0] == '\n' then 1 else 0) + CountLines(s[1..])
  }

  lemma {:induction false} LinesConcat(s: string, t: string)
    ensures CountLines(s + t) == CountLines(s) + CountLines(t)
  {
    if s == "" {
      assert s + t == t;
    } else {
      assert (s + t)[1..] == s[1..] + t;
      LinesConcat(s[1..], t);
    }
  }

  lemma {:induction false} LinesBounds(s: string)
    ensures CountLines(s) <= |s|
    ensures CountLines(s) == 0 <==> '\n' !in s
  {
    if s != "" {
      LinesBounds(s[1..]);
      assert s == [s[0]] + s[1..];
    }
  }

  /** The line, counted from one, on which position p of the text lies. */
  function LineAt(text: string, p: nat): nat
    requires p <= |text|
  {
    CountLines(text[..p]) + 1
  }

  lemma LinesBetween(text: string, a: nat, b: nat)
    requires a <= b <= |text|
    ensures LineAt(text, b) == LineAt(text, a) + CountLines(text[a..b])
  {
    assert text[..b] == text[..a] + text[a..b];
    LinesConcat(text[..a], text[a..b]);
  }

  // ---- Windows ------------------------------------------------------------------------------------------------

  /** The window loop of splitIfNeeded and fastChunk, from position i on. */
  function Windows(n: nat, size: nat, overlap: nat, i: nat): seq<Span>
    requires overlap < size
    decreases n - i
  {
    if i >= n then []
    else if i + size >= n then [Span(i, n)]
    else [Span(i, i + size)] + Windows(n, size, overlap, i + size - overlap)
  }

  /** The loop so far: what is done and what is still to come make up all windows. */
  ghost predicate Remaining(done: seq<Span>, n: nat, size: nat, overlap: nat, i: nat)
    requires overlap < size
  {
    done + Windows(n, size, overlap, i) == Windows(n, size, overlap, 0)
  }

  lemma WindowStep(done: seq<Span>, n: nat, size: nat, overlap: nat, i: nat)
    requires overlap < size && i < n && Remaining(done, n, size, overlap, i)
    ensures if i + size >= n then done + [Span(i, n)] == Windows(n, size, overlap, 0)
            else Remaining(done + [Span(i, i + size)], n, size, overlap, i + size - overlap)
  {
    if i + size < n {
      assert done + Windows(n, size, overlap, i)
          == (done + [Span(i, i + size)]) + Windows(n, size, overlap, i + size - overlap);
    }
  }

  /** Every window fits the limit, each starts exactly `overlap` before the end of the one before it and
      reaches further, and together they run from i to the end. */
  ghost predicate Tiles(w: seq<Span>, n: nat, size: nat, overlap: nat, i: nat) {
    && w != [] && w[0].start == i && w[|w| - 1].end == n
    && (forall k :: 0 <= k < |w| ==> w[k].start < w[k].end <= n && w[k].end - w[k].start <= size)
    && (forall k :: 0 < k < |w| ==> w[k].start == w[k - 1].end - overlap && w[k - 1].end < w[k].end)
  }

  lemma TilesCons(n: nat, size: nat, overlap: nat, i: nat, rest: seq<Span>)
    requires overlap < size && i + size < n && Tiles(rest, n, size, overlap, i + size - overlap)
    requires rest[0].end > i + size
    ensures Tiles([Span(i, i + size)] + rest, n, size, overlap, i)
  {
    var w := [Span(i, i + size)] + rest;
    assert forall k :: 0 < k < |w| ==> w[k] == rest[k - 1];
  }

  lemma {:induction false} WindowsTile(n: nat, size: nat, overlap: nat, i: nat)
    requires overlap < size && i < n
    ensures Tiles(Windows(n, size, overlap, i), n, size, overlap, i)
    decreases n - i
  {
    if i + size < n {
      var next := i + size - overlap;
      WindowsTile(n, size, overlap, next);
      var rest := Windows(n, size, overlap, next);
      assert rest[0].end == if next + size >= n then n else next + size;
      TilesCons(n, size, overlap, i, rest);
    }
  }

  function Slice(s: string, w: Span): string {
    if w.start <= w.end <= |s| then s[w.start..w.end] else ""
  }

  function Slices(s: string, ws: seq<Span>): seq<string> {
    seq(|ws|, k requires 0 <= k < |ws| => Slice(s, ws[k]))
  }

  function Drop(s: string, k: nat): string {
    if k <= |s| then s[k..] else ""
  }

  /** All pieces in order, each without its first `overlap` runes. */
  function Tails(pieces: seq<string>, overlap: nat): string {
    if pieces == [] then "" else Drop(pieces[0], overlap) + Tails(pieces[1..], overlap)
  }

  /** Undoing the cut: the first piece whole, the others without what they repeat. */
  function Rejoin(pieces: seq<string>, overlap: nat): string {
    if pieces == [] then "" else pieces[0] + Tails(pieces[1..], overlap)
  }

  function TailsOf(text: string, ws: seq<Span>, overlap: nat): string {
    if ws == [] then "" else Drop(Slice(text, ws[0]), overlap) + TailsOf(text, ws[1..], overlap)
  }

  lemma {:induction false} TailsOfSlices(text: string, ws: seq<Span>, overlap: nat)
    ensures Tails(Slices(text, ws), overlap) == TailsOf(text, ws, overlap)
  {
    if ws != [] {
      assert Slices(text, ws)[1..] == Slices(text, ws[1..]);
      TailsOfSlices(text, ws[1..], overlap);
    }
  }

  lemma FirstTail(text: string, i: nat, j: nat, rest: seq<Span>, overlap: nat)
    requires i + overlap <= j <= |text| && TailsOf(text, rest, overlap) == text[j..]
    ensures TailsOf(text, [Span(i, j)] + rest, overlap) == text[i + overlap..]
  {
    assert ([Span(i, j)] + rest)[1..] == rest;
    assert Drop(text[i..j], overlap) + text[j..] == text[i + overlap..];
  }

  lemma DropTile(ws: seq<Span>, n: nat, size: nat, overlap: nat, i: nat)
    requires Tiles(ws, n, size, overlap, i) && |ws| > 1
    ensures Tiles(ws[1..], n, size, overlap, ws[1].start)
    ensures ws[1].start + overlap == ws[0].end < ws[1].end
  {
    forall k | 0 < k < |ws| - 1
      ensures ws[1..][k].start == ws[1..][k - 1].end - overlap && ws[1..][k - 1].end < ws[1..][k].end
    {
      assert ws[1..][k] == ws[k + 1] && ws[1..][k - 1] == ws[k];
    }
  }

  lemma {:induction false} TileTails(text: string, ws: seq<Span>, size: nat, overlap: nat, i: nat)
    requires Tiles(ws, |text|, size, overlap, i) && i + overlap <= ws[0].end
    ensures TailsOf(text, ws, overlap) == text[i + overlap..]
    decreases |ws|
  {
    var rest := ws[1..];
    assert ws == [Span(i, ws[0].end)] + rest;
    if |ws| > 1 {
      DropTile(ws, |text|, size, overlap, i);
      TileTails(text, rest, size, overlap, ws[1].start);
    }
    FirstTail(text, i, ws[0].end, rest, overlap);
  }

  lemma RejoinFirst(text: string, ws: seq<Span>, overlap: nat)
    requires ws != []
    ensures Rejoin(Slices(text, ws), overlap) == Slice(text, ws[0]) + TailsOf(text, ws[1..], overlap)
  {
    assert Slices(text, ws)[1..] == Slices(text, ws[1..]);
    TailsOfSlices(text, ws[1..], overlap);
  }

  lemma RestTails(text: string, ws: seq<Span>, size: nat, overlap: nat)
    requires Tiles(ws, |text|, size, overlap, 0)
    ensures TailsOf(text, ws[1..], overlap) == text[ws[0].end..]
  {
    if |ws| > 1 {
      DropTile(ws, |text|, size, overlap, 0);
      TileTails(text, ws[1..], size, overlap, ws[1].start);
    }
  }

  lemma TilesRejoin(text: string, ws: seq<Span>, size: nat, overlap: nat)
    requires Tiles(ws, |text|, size, overlap, 0)
    ensures Rejoin(Slices(text, ws), overlap) == text
  {
    RestTails(text, ws, size, overlap);
    RejoinFirst(text, ws, overlap);
    TwoParts(text, ws[0].end);
  }

  lemma TwoParts(s: string, e: nat)
    requires e <= |s|
    ensures s[0..e] + s[e..] == s
  {}

  /** Cutting loses nothing and repeats exactly the overlap: the pieces rejoin to the text, for any text. */
  lemma WindowsLossless(text: string, size: nat, overlap: nat)
    requires overlap < size
    ensures Rejoin(Slices(text, Windows(|text|, size, overlap, 0)), overlap) == text
  {
    if text != "" {
      WindowsTile(|text|, size, overlap, 0);
      TilesRejoin(text, Windows(|text|, size, overlap, 0), size, overlap);
    }
  }

  // ---- Chunks of a long piece -----------------------------------------------------------------------------

  /** Lines 581-599: the piece of c in window w. The end line is computed from the start line of c, before
      the start line is moved on to the piece. */
  function Piece(c: Chunk, w: Span): Chunk {
    var sub := Slice(c.content, w);
    c.(content := sub, endLine := c.startLine + CountLines(sub),
       startLine := c.startLine + CountLines(Slice(c.content, Span(0, w.start))))
  }

  /** What is made of one window. */
  type Maker = Span -> Chunk

  function Cut(make: Maker, ws: seq<Span>): seq<Chunk>
    decreases |ws|
  {
    if ws == [] then [] else Cut(make, ws[..|ws| - 1]) + [make(ws[|ws| - 1])]
  }

  lemma {:induction false} CutAt(make: Maker, ws: seq<Span>, k: nat)
    ensures |Cut(make, ws)| == |ws|
    ensures k < |ws| ==> Cut(make, ws)[k] == make(ws[k])
    decreases |ws|
  {
    if ws != [] {
      CutAt(make, ws[..|ws| - 1], k);
    }
  }

  lemma CutContents(make: Maker, s: string, ws: seq<Span>)
    requires forall w :: make(w).content == Slice(s, w)
    ensures Contents(Cut(make, ws)) == Slices(s, ws)
  {
    CutAt(make, ws, 0);
    forall k: nat | k < |ws| ensures Contents(Cut(make, ws))[k] == Slice(s, ws[k]) {
      CutAt(make, ws, k);
    }
  }

  function PieceOf(c: Chunk): Maker {
    w => Piece(c, w)
  }

  /** The windows of c; a short chunk is one window. */
  function SplitWindows(c: Chunk): seq<Span> {
    if |c.content| <= MAX_RUNES then [Span(0, |c.content|)] else Windows(|c.content|, MAX_RUNES, OVERLAP, 0)
  }

  /** splitIfNeeded, lines 567-605. */
  function SplitChunk(c: Chunk): seq<Chunk> {
    if |c.content| <= MAX_RUNES then [c] else Cut(PieceOf(c), SplitWindows(c))
  }

  function Contents(cs: seq<Chunk>): seq<string> {
    seq(|cs|, k requires 0 <= k < |cs| => cs[k].content)
  }

  lemma FitTile(s: string, w: seq<Span>, size: nat, overlap: nat, k: nat)
    requires Tiles(w, |s|, size, overlap, 0) && k < |w|
    ensures |Slice(s, w[k])| == w[k].end - w[k].start <= size
  {}

  /** Splitting keeps every rune: no piece is over the limit and the pieces rejoin to the content. */
  lemma SplitLossless(c: Chunk)
    ensures Rejoin(Contents(SplitChunk(c)), 800) == c.content
    ensures forall p :: p in SplitChunk(c) ==> |p.content| <= 8000
  {
    if |c.content| <= MAX_RUNES {
      assert Contents([c])[1..] == [];
    } else {
      var ws := SplitWindows(c);
      WindowsTile(|c.content|, MAX_RUNES, OVERLAP, 0);
      WindowsLossless(c.content, MAX_RUNES, OVERLAP);
      CutContents(PieceOf(c), c.content, ws);
      forall p | p in Cut(PieceOf(c), ws) ensures |p.content| <= MAX_RUNES {
        CutAt(PieceOf(c), ws, 0);
        var k: nat :| k < |ws| && Cut(PieceOf(c), ws)[k] == p;
        CutAt(PieceOf(c), ws, k);
        FitTile(c.content, ws, MAX_RUNES, OVERLAP, k);
      }
    }
  }

  lemma SliceOfSlice(s: string, a: nat, b: nat, i: nat, j: nat)
    requires a <= b <= |s| && i <= j <= b - a
    ensures s[a..b][i..j] == s[a + i..a + j]
    ensures s[a..b][..j] == s[a..a + j]
  {
    var t := s[a..b];
    assert forall k :: 0 <= k < |t| ==> t[k] == s[a + k];
    assert t[i..j] == s[a + i..a + j];
    assert t[..j] == s[a..a + j];
  }

  lemma LinesOfPart(text: string, a: nat, i: nat, j: nat, pre: string, sub: string)
    requires i <= j && a + j <= |text| && pre == text[a..a + i] && sub == text[a + i..a + j]
    ensures LineAt(text, a) + CountLines(pre) == LineAt(text, a + i)
    ensures LineAt(text, a) + CountLines(sub) == LineAt(text, a + j) <==> '\n' !in pre
  {
    LinesBetween(text, a, a + i);
    LinesBetween(text, a + i, a + j);
    LinesBounds(pre);
  }

  /** The chunk is the text from a on, and knows the line it starts on. */
  ghost predicate Placed(text: string, c: Chunk, a: nat) {
    && a + |c.content| <= |text|
    && c.content == text[a..a + |c.content|]
    && c.startLine == LineAt(text, a)
  }

  lemma PieceTexts(text: string, a: nat, c: Chunk, w: Span)
    requires Placed(text, c, a) && w.start <= w.end <= |c.content|
    ensures Slice(c.content, w) == text[a + w.start..a + w.end]
    ensures Slice(c.content, Span(0, w.start)) == text[a..a + w.start]
  {
    SliceOfSlice(text, a, a + |c.content|, 0, w.start);
    SliceOfSlice(text, a, a + |c.content|, w.start, w.end);
  }

  lemma PlacedIntro(text: string, d: Chunk, b: nat, e: nat)
    requires b <= e <= |text| && d.content == text[b..e] && d.startLine == LineAt(text, b)
    ensures Placed(text, d, b) && |d.content| == e - b
  {}

  lemma PieceStart(text: string, a: nat, c: Chunk, w: Span)
    requires Placed(text, c, a) && w.start <= w.end <= |c.content|
    ensures Piece(c, w).startLine == LineAt(text, a + w.start)
  {
    PieceTexts(text, a, c, w);
    LinesBetween(text, a, a + w.start);
  }

  /** Where c is the text from a on with the right start line, every piece is the text of its window with the
      right start line. */
  lemma PiecePlaced(text: string, a: nat, c: Chunk, w: Span)
    requires Placed(text, c, a) && w.start <= w.end <= |c.content|
    ensures Placed(text, Piece(c, w), a + w.start) && |Piece(c, w).content| == w.end - w.start
  {
    PieceTexts(text, a, c, w);
    PieceStart(text, a, c, w);
    PlacedIntro(text, Piece(c, w), a + w.start, a + w.end);
  }

  lemma PieceEnd(text: string, a: nat, c: Chunk, w: Span)
    requires Placed(text, c, a) && w.start <= w.end <= |c.content|
    ensures Piece(c, w).endLine == LineAt(text, a) + CountLines(text[a + w.start..a + w.end])
  {
    PieceTexts(text, a, c, w);
  }

  /** The end line of a piece is right exactly when nothing before the piece ends a line. */
  lemma PieceEndLineIff(text: string, a: nat, c: Chunk, w: Span)
    requires Placed(text, c, a) && w.start <= w.end <= |c.content|
    ensures Piece(c, w).endLine == LineAt(text, a + w.end) <==> '\n' !in Slice(c.content, Span(0, w.start))
  {
    PieceEnd(text, a, c, w);
    PieceTexts(text, a, c, w);
    LinesOfPart(text, a, w.start, w.end, text[a..a + w.start], text[a + w.start..a + w.end]);
  }

  /** How many lines end before position p. */
  function LinesTo(s: string, p: nat): nat {
    CountLines(Slice(s, Span(0, p)))
  }

  lemma LinesToGrows(s: string, p: nat, q: nat)
    requires p <= q <= |s|
    ensures LinesTo(s, q) == LinesTo(s, p) + CountLines(Slice(s, Span(p, q)))
  {
    assert s[0..q] == s[0..p] + s[p..q];
    LinesConcat(s[0..p], s[p..q]);
  }

  ghost predicate LinesInOrder(c: Chunk) {
    c.startLine <= c.endLine
  }

  /** The lines of a piece are in order exactly when at least half of the line ends up to its end lie in it. */
  lemma PieceLinesInOrderIff(c: Chunk, w: Span)
    requires w.start <= w.end <= |c.content|
    ensures LinesInOrder(Piece(c, w)) <==> 2 * LinesTo(c.content, w.start) <= LinesTo(c.content, w.end)
  {
    LinesToGrows(c.content, w.start, w.end);
  }

  ghost predicate HalfInLast(s: string, w: Span) {
    2 * LinesTo(s, w.start) <= LinesTo(s, w.end)
  }

  /** So the lines of all pieces are in order exactly when that holds for every window. */
  lemma PiecesInOrderIff(c: Chunk)
    requires |c.content| > MAX_RUNES
    ensures (forall d :: d in SplitChunk(c) ==> LinesInOrder(d)) <==>
            forall w :: w in SplitWindows(c) ==> HalfInLast(c.content, w)
  {
    var ws := SplitWindows(c);
    WindowsTile(|c.content|, MAX_RUNES, OVERLAP, 0);
    forall w | w in ws ensures LinesInOrder(Piece(c, w)) <==> HalfInLast(c.content, w) {
      var k :| 0 <= k < |ws| && ws[k] == w;
      PieceLinesInOrderIff(c, w);
    }
    CutMembers(PieceOf(c), ws);
  }

  lemma CutMembers(make: Maker, ws: seq<Span>)
    ensures forall d :: d in Cut(make, ws) <==> exists w :: w in ws && d == make(w)
  {
    CutAt(make, ws, 0);
    forall k: nat | k < |ws| ensures Cut(make, ws)[k] == make(ws[k]) {
      CutAt(make, ws, k);
    }
    forall w | w in ws ensures make(w) in Cut(make, ws) {
      var k :| 0 <= k < |ws| && ws[k] == w;
      assert Cut(make, ws)[k] == make(w);
    }
  }

  const STRIDE: nat := MAX_RUNES - OVERLAP

  /** Where the window after k strides is. */
  lemma {:induction false} WindowAfter(n: nat, i: nat, k: nat)
    requires i + k * STRIDE + OVERLAP < n
    ensures var from := i + k * STRIDE;
            Span(from, if from + MAX_RUNES >= n then n else from + MAX_RUNES) in Windows(n, MAX_RUNES, OVERLAP, i)
    decreases k
  {
    if k > 0 {
      WindowAfter(n, i + STRIDE, k - 1);
    }
  }

  function Pow2(m: nat): nat {
    if m == 0 then 1 else 2 * Pow2(m - 1)
  }

  /** If the lines of all pieces are in order and the first stride ends a line, the line ends double every two
      strides. */
  lemma {:induction false} LinesDouble(c: Chunk, m: nat)
    requires forall w :: w in Windows(|c.content|, MAX_RUNES, OVERLAP, 0) ==> HalfInLast(c.content, w)
    requires LinesTo(c.content, STRIDE) > 0 && (2 * m + 1) * STRIDE <= |c.content|
    ensures LinesTo(c.content, (2 * m + 1) * STRIDE) >= Pow2(m)
  {
    if m > 0 {
      LinesDouble(c, m - 1);
      LinesDoubleAfter(c, 2 * m - 1);
    }
  }

  lemma LinesDoubleAfter(c: Chunk, k: nat)
    requires forall w :: w in Windows(|c.content|, MAX_RUNES, OVERLAP, 0) ==> HalfInLast(c.content, w)
    requires (k + 2) * STRIDE <= |c.content|
    ensures LinesTo(c.content, (k + 2) * STRIDE) >= 2 * LinesTo(c.content, k * STRIDE)
  {
    WindowAfter(|c.content|, 0, k);
    LinesDoubleFrom(c.content, k * STRIDE);
  }

  lemma LinesDoubleFrom(s: string, from: nat)
    requires from + 2 * STRIDE <= |s| && HalfInLast(s, Span(from, from + MAX_RUNES))
    ensures LinesTo(s, from + 2 * STRIDE) >= 2 * LinesTo(s, from)
  {
    LinesToGrows(s, from + MAX_RUNES, from + 2 * STRIDE);
  }

  /** So no long text has them all in order: of every chunk of 39 strides or more whose first stride ends a line,
      some piece is said to end before it starts. */
  lemma LongChunkOutOfOrder(c: Chunk)
    requires |c.content| >= 39 * STRIDE && LinesTo(c.content, STRIDE) > 0
    ensures exists d :: d in SplitChunk(c) && d.endLine < d.startLine
  {
    PiecesInOrderIff(c);
    if forall w :: w in SplitWindows(c) ==> HalfInLast(c.content, w) {
      LinesDouble(c, 19);
      LinesBounds(Slice(c.content, Span(0, 39 * STRIDE)));
      Pow2At19();
      assert false;
    }
    var d :| d in SplitChunk(c) && !LinesInOrder(d);
  }

  lemma Pow2At19()
    ensures Pow2(19) == 524288
  {
    assert Pow2(4) == 16;
    assert Pow2(8) == 256;
    assert Pow2(12) == 4096;
    assert Pow2(16) == 65536;
  }

  /** A first line and 8000 more characters on the second. */
  const LONG_SECOND_LINE := "\n" + seq(8000, _ => 'x')

  /** Its second piece starts on line 2 and is said to end on line 1. */
  lemma PieceEndsBeforeItStarts(c: Chunk)
    requires c.content == LONG_SECOND_LINE && c.startLine == 1
    ensures SplitWindows(c) == [Span(0, 8000), Span(7200, 8001)]
    ensures |SplitChunk(c)| == 2 && SplitChunk(c)[1].startLine == 2 && SplitChunk(c)[1].endLine == 1
    ensures LineAt(LONG_SECOND_LINE, 8001) == 2
  {
    var s := c.content;
    assert Windows(8001, MAX_RUNES, OVERLAP, 7200) == [Span(7200, 8001)];
    assert SplitWindows(c) == [Span(0, 8000), Span(7200, 8001)];
    CutAt(PieceOf(c), SplitWindows(c), 1);
    LinesInSecond(7200, 8001);
    OneLineEnd(7200);
    OneLineEnd(8001);
    assert s[..7200] == s[0..7200];
  }

  lemma LinesInSecond(i: nat, j: nat)
    requires 1 <= i <= j <= 8001
    ensures CountLines(LONG_SECOND_LINE[i..j]) == 0
  {
    var t := LONG_SECOND_LINE[i..j];
    assert forall k :: 0 <= k < |t| ==> t[k] == 'x';
    LinesBounds(t);
  }

  lemma OneLineEnd(j: nat)
    requires 1 <= j <= 8001
    ensures CountLines(LONG_SECOND_LINE[..j]) == 1
  {
    LinesInSecond(1, j);
    assert LONG_SECOND_LINE[..j] == "\n" + LONG_SECOND_LINE[1..j];
    LinesConcat("\n", LONG_SECOND_LINE[1..j]);
    assert CountLines("\n") == 1 + CountLines("\n"[1..]);
  }

  // ---- The fallback -----------------------------------------------------------------------------------------

  function FastPiece(text: string, w: Span): Chunk {
    var sub := Slice(text, w);
    var startLine := CountLines(Slice(text, Span(0, w.start))) + 1;
    Chunk(sub, sub, "", startLine, startLine + CountLines(sub))
  }

  function FastPieceOf(text: string): Maker {
    w => FastPiece(text, w)
  }

  function FastWindows(text: string): seq<Span> {
    Windows(|text|, FAST_SIZE, FAST_OVERLAP, 0)
  }

  /** fastChunk, lines 747-781. */
  function FastChunks(text: string): seq<Chunk> {
    Cut(FastPieceOf(text), FastWindows(text))
  }

  lemma FastLines(text: string, w: Span)
    requires w.start <= w.end <= |text|
    ensures Placed(text, FastPiece(text, w), w.start) && |FastPiece(text, w).content| == w.end - w.start
    ensures FastPiece(text, w).endLine == LineAt(text, w.end)
  {
    LinesBetween(text, w.start, w.end);
  }

  /** The fallback's pieces rejoin to the text. */
  lemma FastLossless(text: string)
    ensures Rejoin(Contents(FastChunks(text)), 500) == text
  {
    WindowsLossless(text, FAST_SIZE, FAST_OVERLAP);
    CutContents(FastPieceOf(text), text, FastWindows(text));
  }

  /** Each is a stretch of the text within the limit and names the right lines at both ends. */
  lemma FastFaithful(text: string, k: nat)
    requires k < |FastChunks(text)|
    ensures k < |FastWindows(text)|
    ensures var c := FastChunks(text)[k]; var w := FastWindows(text)[k];
      && Placed(text, c, w.start) && |c.content| == w.end - w.start <= 3000
      && c.endLine == LineAt(text, w.end) && c.contextual == c.content && c.kind == ""
  {
    var ws := FastWindows(text);
    CutAt(FastPieceOf(text), ws, k);
    WindowsTile(|text|, FAST_SIZE, FAST_OVERLAP, 0);
    FastLines(text, ws[k]);
  }
}
