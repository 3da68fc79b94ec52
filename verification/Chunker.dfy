/** The chunker's loops (internal/indexer/chunker.go). */
module Chunker {
  import Text
  import opened ChunkModel
  import opened GapModel
  import opened MatchRuns

  /** Lines 579-599, one piece. */
  method CutPiece(c: Chunk, i: nat, end: nat) returns (newChunk: Chunk)
    requires i <= end <= |c.content|
    ensures newChunk == Piece(c, Span(i, end))
  {
    var subContent := c.content[i..end];
    var linesInSub := CountLines(subContent);
    newChunk := c.(content := subContent);
    newChunk := newChunk.(endLine := newChunk.startLine + linesInSub);
    if i > 0 {
      var linesBefore := CountLines(c.content[..i]);
      newChunk := newChunk.(startLine := c.startLine + linesBefore);
    }
  }

  /** splitIfNeeded, lines 567-605. */
  method SplitIfNeeded(c: Chunk) returns (chunks: seq<Chunk>)
    ensures chunks == SplitChunk(c)
  {
    var n := |c.content|;
    if n <= MAX_RUNES {
      return [c];
    }
    chunks := [];
    ghost var done: seq<Span> := [];
    var i: nat := 0;
    assert Remaining(done, n, MAX_RUNES, OVERLAP, 0);
    while i < n
      invariant i < n && Remaining(done, n, MAX_RUNES, OVERLAP, i)
      invariant chunks == Cut(PieceOf(c), done)
      decreases n - i
    {
      var end: nat := i + MAX_RUNES;
      if end > n {
        end := n;
      }
      var newChunk := CutPiece(c, i, end);
      WindowStep(done, n, MAX_RUNES, OVERLAP, i);
      chunks := chunks + [newChunk];
      done := done + [Span(i, end)];
      if end == n {
        return;
      }
      i := i + (MAX_RUNES - OVERLAP);
    }
  }

  /** Lines 758-772, one piece. */
  method CutFast(text: string, i: nat, end: nat) returns (chunk: Chunk)
    requires i <= end <= |text|
    ensures chunk == FastPiece(text, Span(i, end))
  {
    var content := text[i..end];
    var startLine := CountLines(text[..i]) + 1;
    var endLine := startLine + CountLines(content);
    chunk := Chunk(content, content, "", startLine, endLine);
  }

  /** fastChunk, lines 747-781. */
  method FastChunk(text: string) returns (chunks: seq<Chunk>)
    ensures chunks == FastChunks(text)
  {
    chunks := [];
    var n := |text|;
    if n == 0 {
      return;
    }
    ghost var done: seq<Span> := [];
    var i: nat := 0;
    assert Remaining(done, n, FAST_SIZE, FAST_OVERLAP, 0);
    while i < n
      invariant i < n && Remaining(done, n, FAST_SIZE, FAST_OVERLAP, i)
      invariant chunks == Cut(FastPieceOf(text), done)
      decreases n - i
    {
      var end: nat := i + FAST_SIZE;
      if end > n {
        end := n;
      }
      var chunk := CutFast(text, i, end);
      WindowStep(done, n, FAST_SIZE, FAST_OVERLAP, i);
      chunks := chunks + [chunk];
      done := done + [Span(i, end)];
      if end == n {
        return;
      }
      i := i + (FAST_SIZE - FAST_OVERLAP);
    }
  }

  /** sort.Slice, lines 382-387: some permutation in that order (the library's is not stable). */
  method SortMatches(matches: seq<Match>) returns (sorted: seq<Match>)
    ensures multiset(sorted) == multiset(matches) && InOrder(sorted)
  {
    sorted := [];
    for i := 0 to |matches|
      invariant multiset(sorted) == multiset(matches[..i]) && InOrder(sorted)
    {
      assert matches[..i + 1] == matches[..i] + [matches[i]];
      sorted := InsertMatch(sorted, matches[i]);
    }
    assert matches[..|matches|] == matches;
  }

  method InsertMatch(s: seq<Match>, m: Match) returns (r: seq<Match>)
    requires InOrder(s)
    ensures InOrder(r) && multiset(r) == multiset(s) + multiset{m}
  {
    var p := |s|;
    while p > 0 && !NotAfter(s[p - 1], m)
      invariant 0 <= p <= |s|
      invariant forall a :: p <= a < |s| ==> NotAfter(m, s[a])
    {
      p := p - 1;
    }
    assert s == s[..p] + s[p..];
    r := s[..p] + [m] + s[p..];
    InsertedInOrder(s, p, m);
  }

  lemma InsertedInOrder(s: seq<Match>, p: nat, m: Match)
    requires InOrder(s) && p <= |s|
    requires p > 0 ==> NotAfter(s[p - 1], m)
    requires forall a :: p <= a < |s| ==> NotAfter(m, s[a])
    ensures InOrder(s[..p] + [m] + s[p..])
  {
    forall a | 0 <= a < p ensures NotAfter(s[a], m) {
      assert a == p - 1 || NotAfter(s[a], s[p - 1]);
    }
  }

  /** Lines 389-401. */
  method SelectTopLevel(ms: seq<Match>) returns (topLevel: seq<Match>)
    ensures topLevel == TopLevel(ms)
  {
    topLevel := [];
    for i := 0 to |ms|
      invariant topLevel == TopLevel(ms[..i])
    {
      var m := ms[i];
      var isContained := false;
      for k := 0 to |topLevel|
        invariant !isContained && forall j :: 0 <= j < k ==> !Contains(topLevel[j], m)
      {
        if m.start >= topLevel[k].start && m.end <= topLevel[k].end {
          isContained := true;
          break;
        }
      }
      assert isContained == ContainedInSome(topLevel, m);
      assert ms[..i + 1][..i] == ms[..i];
      if !isContained {
        topLevel := topLevel + [m];
      }
    }
    assert ms[..|ms|] == ms;
  }

  /** Lines 409-420 and 427-438: the text between two positions, unless it is blank. */
  method AddGap(isSpace: char -> bool, text: string, chunks: seq<Chunk>, from: nat, to: nat, ghost cut: Cutter)
    returns (r: seq<Chunk>)
    requires to <= |text| && cut == GapPieces(isSpace, text)
    ensures r == chunks + if to > from then cut(Span(from, to)) else []
  {
    r := chunks;
    if to > from {
      var gapContent := text[from..to];
      if Text.TrimSpace(isSpace, gapContent) != "" {
        var gapChunks := SplitIfNeeded(
          Chunk(gapContent, "", "Unknown", CountLines(text[..from]) + 1, CountLines(text[..to])));
        r := r + gapChunks;
      }
    }
  }

  /** Lines 403-438, with `cut` for what is done to one gap. */
  method FillGaps(isSpace: char -> bool, text: string, topLevel: seq<Match>, ghost cut: Cutter)
    returns (chunks: seq<Chunk>)
    requires Within(topLevel, |text|) && cut == GapPieces(isSpace, text)
    ensures chunks == Spread(cut, Gaps(topLevel, 0, |text|))
  {
    chunks := [];
    var n := |text|;
    var lastEnd: nat := 0;
    ghost var all := Spread(cut, Gaps(topLevel, 0, n));
    FillingStart(cut, topLevel, n);
    for i := 0 to |topLevel|
      invariant lastEnd <= n && Filling(cut, all, chunks, topLevel, i, lastEnd, n)
    {
      var tl := topLevel[i];
      GapTurn(cut, all, chunks, topLevel, i, lastEnd, n);
      chunks := AddGap(isSpace, text, chunks, lastEnd, tl.start, cut);
      lastEnd := tl.end;
    }
    FillingEnd(cut, all, chunks, topLevel, lastEnd, n);
    chunks := AddGap(isSpace, text, chunks, lastEnd, n, cut);
  }

  /** The chunks so far and those of the gaps from the i-th top-level match on make up all. */
  ghost predicate Filling(cut: Cutter, all: seq<Chunk>, chunks: seq<Chunk>, tops: seq<Match>, i: nat, lastEnd: nat,
                          n: nat)
    requires i <= |tops|
  {
    chunks + Spread(cut, Gaps(tops[i..], lastEnd, n)) == all
  }

  lemma FillingStart(cut: Cutter, tops: seq<Match>, n: nat)
    ensures Filling(cut, Spread(cut, Gaps(tops, 0, n)), [], tops, 0, 0, n)
  {
    assert tops[0..] == tops;
  }

  lemma FillingEnd(cut: Cutter, all: seq<Chunk>, chunks: seq<Chunk>, tops: seq<Match>, lastEnd: nat, n: nat)
    requires Filling(cut, all, chunks, tops, |tops|, lastEnd, n)
    ensures chunks + (if n > lastEnd then cut(Span(lastEnd, n)) else []) == all
  {
    assert tops[|tops|..] == [];
    if n > lastEnd {
      assert Gaps([], lastEnd, n) == [Span(lastEnd, n)];
      assert Spread(cut, [Span(lastEnd, n)]) == cut(Span(lastEnd, n)) + [];
    }
  }

  lemma GapStep(cut: Cutter, tops: seq<Match>, lastEnd: nat, n: nat)
    requires tops != []
    ensures Spread(cut, Gaps(tops, lastEnd, n))
         == (if tops[0].start > lastEnd then cut(Span(lastEnd, tops[0].start)) else [])
            + Spread(cut, Gaps(tops[1..], tops[0].end, n))
  {
    var gs := Gaps(tops, lastEnd, n);
    if tops[0].start > lastEnd {
      assert gs[0] == Span(lastEnd, tops[0].start) && gs[1..] == Gaps(tops[1..], tops[0].end, n);
    } else {
      assert gs == Gaps(tops[1..], tops[0].end, n);
    }
  }

  lemma GapTurn(cut: Cutter, all: seq<Chunk>, chunks: seq<Chunk>, tops: seq<Match>, i: nat, lastEnd: nat, n: nat)
    requires i < |tops| && Filling(cut, all, chunks, tops, i, lastEnd, n)
    ensures var pieces := if tops[i].start > lastEnd then cut(Span(lastEnd, tops[i].start)) else [];
      Filling(cut, all, chunks + pieces, tops, i + 1, tops[i].end, n)
  {
    GapStep(cut, tops[i..], lastEnd, n);
    assert tops[i..][1..] == tops[i + 1..];
    var pieces := if tops[i].start > lastEnd then cut(Span(lastEnd, tops[i].start)) else [];
    Regroup(chunks, pieces, Spread(cut, Gaps(tops[i + 1..], tops[i].end, n)));
  }

  lemma Regroup(a: seq<Chunk>, b: seq<Chunk>, c: seq<Chunk>)
    ensures a + (b + c) == (a + b) + c
  {}

  method SplitBy(c: Chunk, ghost split: Splitter) returns (chunks: seq<Chunk>)
    requires Splits(split)
    ensures chunks == split(c)
  {
    chunks := SplitIfNeeded(c);
  }

  /** Lines 440-443. */
  method AddMatches(ms: seq<Match>, gapChunks: seq<Chunk>, ghost split: Splitter) returns (allChunks: seq<Chunk>)
    requires Splits(split)
    ensures allChunks == gapChunks + MatchChunks(split, ms)
  {
    allChunks := gapChunks;
    for i := 0 to |ms|
      invariant allChunks == gapChunks + MatchChunks(split, ms[..i])
    {
      assert ms[..i + 1][..i] == ms[..i];
      var pieces := SplitBy(ms[i].chunk, split);
      allChunks := allChunks + pieces;
    }
    assert ms[..|ms|] == ms;
  }

  /** Lines 389-449, from the matches in order to the chunks of the file. */
  method ChunkSorted(isSpace: char -> bool, text: string, ms: seq<Match>) returns (chunks: seq<Chunk>)
    requires InOrder(ms) && Within(ms, |text|)
    ensures chunks == AllChunks(isSpace, text, ms)
  {
    var topLevel := SelectTopLevel(ms);
    TopLevelCovers(ms);
    TopsInText(ms, topLevel, |text|);
    var gapChunks := FillGaps(isSpace, text, topLevel, GapPieces(isSpace, text));
    var allChunks := AddMatches(ms, gapChunks, SplitChunk);
    if |allChunks| == 0 {
      chunks := FastChunk(text);
    } else {
      chunks := allChunks;
    }
  }

  /** Lines 381-449, from the matches the parser found to the chunks of the file. */
  method ChunkMatches(isSpace: char -> bool, text: string, matches: seq<Match>) returns (chunks: seq<Chunk>)
    requires Faithful(text, matches)
    ensures exists ms :: multiset(ms) == multiset(matches) && InOrder(ms) && chunks == AllChunks(isSpace, text, ms)
    ensures forall p: nat :: p < |text| && !isSpace(text[p]) ==> exists c :: c in chunks && Holds(text, c, p)
    ensures forall c :: c in chunks ==> Somewhere(text, c)
    ensures exists runs :: HaveRuns(matches, chunks, runs) && (matches != [] ==> RestUnknown(chunks, runs))
  {
    var ms := SortMatches(matches);
    FaithfulSorted(text, matches, ms);
    chunks := ChunkSorted(isSpace, text, ms);
    AllHaveRuns(isSpace, text, matches, ms, chunks);
    forall p: nat | p < |text| && !isSpace(text[p]) ensures exists c :: c in chunks && Holds(text, c, p) {
      NothingLost(isSpace, text, ms, p);
    }
    NothingInvented(isSpace, text, ms);
  }

  lemma TopsInText(ms: seq<Match>, tops: seq<Match>, n: nat)
    requires Within(ms, n) && forall t :: t in tops ==> t in ms
    ensures Within(tops, n)
  {
    forall i | 0 <= i < |tops| ensures tops[i].start <= tops[i].end <= n {
      var t := tops[i];
      assert t in tops;
    }
  }

  lemma FaithfulSorted(text: string, matches: seq<Match>, sorted: seq<Match>)
    requires Faithful(text, matches) && multiset(sorted) == multiset(matches)
    ensures Faithful(text, sorted)
  {
    forall i | 0 <= i < |sorted|
      ensures sorted[i] in matches
    {
      assert sorted[i] in multiset(sorted);
    }
  }
}
