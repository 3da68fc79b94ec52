/** Which parsed matches are top-level, what lies between them, and that no text falls through
    (internal/indexer/chunker.go, lines 381-449). */
module GapModel {
  import Text
  import opened ChunkModel

  /** The order the matches are sorted into: by start, the longer one first. */
  predicate NotAfter(a: Match, b: Match) {
    a.start < b.start || (a.start == b.start && a.end >= b.end)
  }

  ghost predicate InOrder(ms: seq<Match>) {
    forall i, j :: 0 <= i < j < |ms| ==> NotAfter(ms[i], ms[j])
  }

  predicate Contains(outer: Match, m: Match) {
    m.start >= outer.start && m.end <= outer.end
  }

  predicate ContainedInSome(tops: seq<Match>, m: Match) {
    exists i :: 0 <= i < |tops| && Contains(tops[i], m)
  }

  /** Lines 389-401. */
  function TopLevel(ms: seq<Match>): seq<Match>
    decreases |ms|
  {
    if ms == [] then []
    else
      var tops := TopLevel(ms[..|ms| - 1]);
      var m := ms[|ms| - 1];
      if ContainedInSome(tops, m) then tops else tops + [m]
  }

  /** Both ends strictly increase. */
  ghost predicate Ladder(tops: seq<Match>) {
    forall i, j :: 0 <= i < j < |tops| ==> tops[i].start < tops[j].start && tops[i].end < tops[j].end
  }

  /** For any spans, nested, overlapping or equal: the kept ones climb on both ends, and every match lies
      inside a kept one. */
  lemma {:induction false} TopLevelCovers(ms: seq<Match>)
    requires InOrder(ms)
    ensures Ladder(TopLevel(ms))
    ensures forall t :: t in TopLevel(ms) ==> t in ms
    ensures forall m :: m in ms ==> ContainedInSome(TopLevel(ms), m)
    decreases |ms|
  {
    if ms != [] {
      var before, m := ms[..|ms| - 1], ms[|ms| - 1];
      TopLevelCovers(before);
      var tops := TopLevel(before);
      if !ContainedInSome(tops, m) {
        Climb(ms, tops, m);
      }
      forall x | x in ms ensures ContainedInSome(TopLevel(ms), x) {
        if x in before && !ContainedInSome(tops, m) {
          var i :| 0 <= i < |tops| && Contains(tops[i], x);
          assert (tops + [m])[i] == tops[i];
        } else if x == m && !ContainedInSome(tops, m) {
          assert Contains((tops + [m])[|tops|], m);
        }
      }
    }
  }

  lemma Climb(ms: seq<Match>, tops: seq<Match>, m: Match)
    requires InOrder(ms) && ms != [] && m == ms[|ms| - 1] && Ladder(tops)
    requires forall t :: t in tops ==> t in ms[..|ms| - 1]
    requires !ContainedInSome(tops, m)
    ensures Ladder(tops + [m])
  {
    forall i | 0 <= i < |tops| ensures tops[i].start < m.start && tops[i].end < m.end {
      var t := tops[i];
      assert t in tops;
      var j :| 0 <= j < |ms| - 1 && ms[j] == tops[i];
      assert NotAfter(ms[j], m) && !Contains(tops[i], m);
    }
  }

  ghost predicate FirstAt(ms: seq<Match>, i: nat, m: Match) {
    i < |ms| && ms[i] == m && forall j :: 0 <= j < i ==> !Contains(ms[j], m)
  }

  /** Comparing with the kept spans alone is enough: a match is kept exactly when no earlier match at all,
      kept or not, contains it. */
  lemma {:induction false} KeptIff(ms: seq<Match>, m: Match)
    requires InOrder(ms)
    ensures m in TopLevel(ms) <==> exists i: nat :: FirstAt(ms, i, m)
    decreases |ms|
  {
    if ms != [] {
      var last := |ms| - 1;
      var before := ms[..last];
      KeptIff(before, m);
      EarlierIff(before, ms[last]);
      FirstAtExtends(ms, before, m);
      assert FirstAt(ms, last, m) <==> ms[last] == m && !ContainedInSome(TopLevel(before), m);
    }
  }

  lemma FirstAtExtends(ms: seq<Match>, before: seq<Match>, m: Match)
    requires ms != [] && before == ms[..|ms| - 1]
    ensures (exists i: nat :: FirstAt(ms, i, m)) <==>
            (exists i: nat :: FirstAt(before, i, m)) || FirstAt(ms, |before|, m)
  {
    if i: nat :| FirstAt(before, i, m) {
      assert FirstAt(ms, i, m);
    }
    if i: nat :| FirstAt(ms, i, m) {
      if i < |before| {
        assert FirstAt(before, i, m);
      }
    }
  }

  lemma EarlierIff(ms: seq<Match>, m: Match)
    requires InOrder(ms)
    ensures ContainedInSome(TopLevel(ms), m) <==> exists j :: 0 <= j < |ms| && Contains(ms[j], m)
  {
    TopLevelCovers(ms);
    var tops := TopLevel(ms);
    if i :| 0 <= i < |tops| && Contains(tops[i], m) {
      assert tops[i] in ms;
    }
    if j :| 0 <= j < |ms| && Contains(ms[j], m) {
      assert ContainedInSome(tops, ms[j]);
      var i :| 0 <= i < |tops| && Contains(tops[i], ms[j]);
      assert Contains(tops[i], m);
    }
  }

  // ---- Gaps -----------------------------------------------------------------------------------------------

  /** Lines 403-438: what is left between top-level spans, and after the last one. */
  function Gaps(tops: seq<Match>, lastEnd: nat, n: nat): seq<Span>
    decreases |tops|
  {
    if tops == [] then if lastEnd < n then [Span(lastEnd, n)] else []
    else (if tops[0].start > lastEnd then [Span(lastEnd, tops[0].start)] else []) + Gaps(tops[1..], tops[0].end, n)
  }

  ghost predicate Covered(ms: seq<Match>, p: nat) {
    exists i :: 0 <= i < |ms| && ms[i].start <= p < ms[i].end
  }

  ghost predicate InGap(gs: seq<Span>, p: nat) {
    exists i :: 0 <= i < |gs| && gs[i].start <= p < gs[i].end
  }

  ghost predicate Within(ms: seq<Match>, n: nat) {
    forall i :: 0 <= i < |ms| ==> ms[i].start <= ms[i].end <= n
  }

  /** The gaps are not empty, lie apart in order, and stay between lastEnd and n. */
  ghost predicate Apart(gs: seq<Span>, lastEnd: nat, n: nat) {
    && (forall i :: 0 <= i < |gs| ==> lastEnd <= gs[i].start < gs[i].end <= n)
    && (forall i, j :: 0 <= i < j < |gs| ==> gs[i].end <= gs[j].start)
  }

  lemma {:induction false} GapsApart(tops: seq<Match>, lastEnd: nat, n: nat)
    requires Ladder(tops) && Within(tops, n) && (tops != [] ==> lastEnd <= tops[0].end)
    ensures Apart(Gaps(tops, lastEnd, n), lastEnd, n)
    decreases |tops|
  {
    if tops != [] {
      GapsApart(tops[1..], tops[0].end, n);
    }
  }

  lemma InGapConcat(a: seq<Span>, b: seq<Span>, p: nat)
    ensures InGap(a + b, p) <==> InGap(a, p) || InGap(b, p)
  {
    if i :| 0 <= i < |a| && a[i].start <= p < a[i].end {
      assert (a + b)[i] == a[i];
    }
    if i :| 0 <= i < |b| && b[i].start <= p < b[i].end {
      assert (a + b)[|a| + i] == b[i];
    }
  }

  /** Every position is in a top-level span or in a gap, never in both. */
  lemma {:induction false} GapsComplement(tops: seq<Match>, lastEnd: nat, n: nat, p: nat)
    requires Ladder(tops) && Within(tops, n) && (tops != [] ==> lastEnd <= tops[0].end)
    requires lastEnd <= p < n
    ensures InGap(Gaps(tops, lastEnd, n), p) <==> !Covered(tops, p)
    decreases |tops|
  {
    if tops == [] {
      assert Gaps(tops, lastEnd, n)[0] == Span(lastEnd, n);
    } else {
      var first := if tops[0].start > lastEnd then [Span(lastEnd, tops[0].start)] else [];
      var rest := Gaps(tops[1..], tops[0].end, n);
      InGapConcat(first, rest, p);
      if tops[0].end <= p {
        GapsComplement(tops[1..], tops[0].end, n, p);
      } else {
        GapsApart(tops[1..], tops[0].end, n);
      }
      if tops[0].start > lastEnd && p < tops[0].start {
        assert first[0] == Span(lastEnd, tops[0].start);
      }
    }
  }

  lemma TopsWithin(ms: seq<Match>, n: nat)
    requires InOrder(ms) && Within(ms, n)
    ensures Within(TopLevel(ms), n)
  {
    TopLevelCovers(ms);
    var tops := TopLevel(ms);
    forall i | 0 <= i < |tops| ensures tops[i].start <= tops[i].end <= n {
      var t := tops[i];
      assert t in tops;
    }
  }

  lemma CoveredByTops(ms: seq<Match>, p: nat)
    requires InOrder(ms)
    ensures Covered(TopLevel(ms), p) <==> Covered(ms, p)
  {
    TopLevelCovers(ms);
    var tops := TopLevel(ms);
    if i :| 0 <= i < |ms| && ms[i].start <= p < ms[i].end {
      var m := ms[i];
      assert ContainedInSome(tops, m);
      var k :| 0 <= k < |tops| && Contains(tops[k], m);
      assert tops[k].start <= p < tops[k].end;
    }
    if i :| 0 <= i < |tops| && tops[i].start <= p < tops[i].end {
      var t := tops[i];
      assert t in tops;
    }
  }

  /** The gaps of a file: apart, in order, and made of exactly the positions no match holds. */
  lemma GapsAreTheRest(ms: seq<Match>, n: nat, p: nat)
    requires InOrder(ms) && Within(ms, n) && p < n
    ensures Apart(Gaps(TopLevel(ms), 0, n), 0, n)
    ensures InGap(Gaps(TopLevel(ms), 0, n), p) <==> !Covered(ms, p)
  {
    var tops := TopLevel(ms);
    TopLevelCovers(ms);
    TopsWithin(ms, n);
    GapsApart(tops, 0, n);
    GapsComplement(tops, 0, n, p);
    CoveredByTops(ms, p);
  }

  // ---- The chunks of a file ---------------------------------------------------------------------------------

  /** Lines 411-418 and 429-436. */
  function GapChunk(text: string, g: Span): Chunk
    requires g.start <= g.end <= |text|
  {
    Chunk(text[g.start..g.end], "", "Unknown", LineAt(text, g.start), CountLines(text[..g.end]))
  }

  /** How one span is cut into chunks. */
  type Cutter = Span -> seq<Chunk>

  function GapPieces(isSpace: char -> bool, text: string): Cutter {
    (g: Span) =>
      if g.start <= g.end <= |text| && Text.TrimSpace(isSpace, text[g.start..g.end]) != ""
      then SplitChunk(GapChunk(text, g))
      else []
  }

  function Spread(f: Cutter, gs: seq<Span>): seq<Chunk> {
    if gs == [] then [] else f(gs[0]) + Spread(f, gs[1..])
  }

  /** The chunks of the gaps of a file. */
  function GapChunks(f: Cutter, ms: seq<Match>, n: nat): seq<Chunk> {
    Spread(f, Gaps(TopLevel(ms), 0, n))
  }

  /** How one chunk is split. */
  type Splitter = Chunk -> seq<Chunk>

  function MatchChunks(split: Splitter, ms: seq<Match>): seq<Chunk>
    decreases |ms|
  {
    if ms == [] then [] else MatchChunks(split, ms[..|ms| - 1]) + split(ms[|ms| - 1].chunk)
  }

  ghost predicate Splits(split: Splitter) {
    forall c: Chunk {:trigger SplitChunk(c)} :: split(c) == SplitChunk(c)
  }

  /** Lines 403-449 for matches already in order. */
  function AllChunks(isSpace: char -> bool, text: string, ms: seq<Match>): seq<Chunk> {
    var found := GapChunks(GapPieces(isSpace, text), ms, |text|) + MatchChunks(SplitChunk, ms);
    if found == [] then FastChunks(text) else found
  }

  ghost predicate Holds(text: string, c: Chunk, p: nat) {
    exists a: nat :: Placed(text, c, a) && a <= p < a + |c.content|
  }

  ghost predicate Somewhere(text: string, c: Chunk) {
    exists a: nat :: Placed(text, c, a)
  }

  /** What the parser delivers for a match. */
  ghost predicate Faithful(text: string, ms: seq<Match>) {
    forall i :: 0 <= i < |ms| ==>
      && ms[i].start <= ms[i].end <= |text|
      && Placed(text, ms[i].chunk, ms[i].start)
      && |ms[i].chunk.content| == ms[i].end - ms[i].start
  }

  lemma TileHolding(w: seq<Span>, n: nat, size: nat, overlap: nat, i: nat, p: nat) returns (k: nat)
    requires Tiles(w, n, size, overlap, i) && i <= p < n
    ensures k < |w| && w[k].start <= p < w[k].end
  {
    k := 0;
    while p >= w[k].end
      invariant k < |w| && w[k].start <= p
      decreases |w| - k
    {
      k := k + 1;
    }
  }

  lemma WindowHolds(text: string, a: nat, c: Chunk, ws: seq<Span>, size: nat, overlap: nat, p: nat)
    requires Placed(text, c, a) && a <= p < a + |c.content| && Tiles(ws, |c.content|, size, overlap, 0)
    ensures exists d :: d in Cut(PieceOf(c), ws) && Holds(text, d, p)
  {
    var k := TileHolding(ws, |c.content|, size, overlap, 0, p - a);
    CutAt(PieceOf(c), ws, k);
    PiecePlaced(text, a, c, ws[k]);
    assert Holds(text, Cut(PieceOf(c), ws)[k], p);
  }

  lemma SplitHolds(text: string, a: nat, c: Chunk, p: nat)
    requires Placed(text, c, a) && a <= p < a + |c.content|
    ensures exists d :: d in SplitChunk(c) && Holds(text, d, p)
  {
    if |c.content| <= MAX_RUNES {
      assert SplitChunk(c) == [c] && Holds(text, c, p);
    } else {
      WindowsTile(|c.content|, MAX_RUNES, OVERLAP, 0);
      WindowHolds(text, a, c, SplitWindows(c), MAX_RUNES, OVERLAP, p);
    }
  }

  lemma {:induction false} SpreadHas(f: Cutter, gs: seq<Span>, i: nat, d: Chunk)
    requires i < |gs| && d in f(gs[i])
    ensures d in Spread(f, gs)
    decreases |gs|
  {
    if i > 0 {
      SpreadHas(f, gs[1..], i - 1, d);
    }
  }

  lemma {:induction false} MatchChunksHave(split: Splitter, ms: seq<Match>, i: nat, d: Chunk)
    requires i < |ms| && d in split(ms[i].chunk)
    ensures d in MatchChunks(split, ms)
    decreases |ms|
  {
    if i < |ms| - 1 {
      MatchChunksHave(split, ms[..|ms| - 1], i, d);
    }
  }

  lemma GapHolds(isSpace: char -> bool, text: string, g: Span, p: nat)
    requires g.start <= p < g.end <= |text| && !isSpace(text[p])
    ensures exists d :: d in GapPieces(isSpace, text)(g) && Holds(text, d, p)
  {
    var content := text[g.start..g.end];
    assert content[p - g.start] == text[p];
    Text.BlankIff(isSpace, content);
    SplitHolds(text, g.start, GapChunk(text, g), p);
  }

  /** Whatever the parser matched, no character that is not white space is lost: some chunk holds it, at its
      place in the text and with the right start line. */
  lemma NothingLost(isSpace: char -> bool, text: string, ms: seq<Match>, p: nat)
    requires InOrder(ms) && Faithful(text, ms) && p < |text| && !isSpace(text[p])
    ensures exists c :: c in AllChunks(isSpace, text, ms) && Holds(text, c, p)
  {
    GapsAreTheRest(ms, |text|, p);
    var gs := Gaps(TopLevel(ms), 0, |text|);
    var f := GapPieces(isSpace, text);
    var c: Chunk;
    if Covered(ms, p) {
      var i :| 0 <= i < |ms| && ms[i].start <= p < ms[i].end;
      SplitHolds(text, ms[i].start, ms[i].chunk, p);
      var d :| d in SplitChunk(ms[i].chunk) && Holds(text, d, p);
      MatchChunksHave(SplitChunk, ms, i, d);
      c :| c in MatchChunks(SplitChunk, ms) && Holds(text, c, p);
    } else {
      var i :| 0 <= i < |gs| && gs[i].start <= p < gs[i].end;
      GapHolds(isSpace, text, gs[i], p);
      c :| c in f(gs[i]) && Holds(text, c, p);
      SpreadHas(f, gs, i, c);
    }
    assert c in GapChunks(f, ms, |text|) + MatchChunks(SplitChunk, ms);
  }

  lemma CutSomewhere(text: string, a: nat, c: Chunk, ws: seq<Span>, size: nat, overlap: nat)
    requires Placed(text, c, a) && Tiles(ws, |c.content|, size, overlap, 0)
    ensures forall d :: d in Cut(PieceOf(c), ws) ==> Somewhere(text, d)
  {
    CutAt(PieceOf(c), ws, 0);
    forall d | d in Cut(PieceOf(c), ws) ensures Somewhere(text, d) {
      var k: nat :| k < |ws| && Cut(PieceOf(c), ws)[k] == d;
      CutAt(PieceOf(c), ws, k);
      PiecePlaced(text, a, c, ws[k]);
    }
  }

  lemma SplitSomewhere(text: string, a: nat, c: Chunk)
    requires Placed(text, c, a)
    ensures forall d :: d in SplitChunk(c) ==> Somewhere(text, d)
  {
    if |c.content| <= MAX_RUNES {
      assert SplitChunk(c) == [c];
    } else {
      WindowsTile(|c.content|, MAX_RUNES, OVERLAP, 0);
      CutSomewhere(text, a, c, SplitWindows(c), MAX_RUNES, OVERLAP);
    }
  }

  lemma {:induction false} SpreadSomewhere(f: Cutter, text: string, gs: seq<Span>)
    requires forall g: Span :: forall d :: d in f(g) ==> Somewhere(text, d)
    ensures forall d :: d in Spread(f, gs) ==> Somewhere(text, d)
  {
    if gs != [] {
      SpreadSomewhere(f, text, gs[1..]);
    }
  }

  lemma {:induction false} MatchChunksSomewhere(text: string, ms: seq<Match>)
    requires Faithful(text, ms)
    ensures forall d :: d in MatchChunks(SplitChunk, ms) ==> Somewhere(text, d)
    decreases |ms|
  {
    if ms != [] {
      SplitSomewhere(text, ms[|ms| - 1].start, ms[|ms| - 1].chunk);
      MatchChunksSomewhere(text, ms[..|ms| - 1]);
    }
  }

  lemma GapPiecesSomewhere(isSpace: char -> bool, text: string, g: Span)
    ensures forall d :: d in GapPieces(isSpace, text)(g) ==> Somewhere(text, d)
  {
    if g.start <= g.end <= |text| {
      SplitSomewhere(text, g.start, GapChunk(text, g));
    }
  }

  lemma FastChunksSomewhere(text: string)
    ensures forall c :: c in FastChunks(text) ==> Somewhere(text, c)
  {
    var cs := FastChunks(text);
    forall c | c in cs ensures Somewhere(text, c) {
      var k :| 0 <= k < |cs| && cs[k] == c;
      FastFaithful(text, k);
    }
  }

  /** And nothing is made up: every chunk is a stretch of the text and starts on the line it says. */
  lemma NothingInvented(isSpace: char -> bool, text: string, ms: seq<Match>)
    requires Faithful(text, ms)
    ensures forall c :: c in AllChunks(isSpace, text, ms) ==> Somewhere(text, c)
  {
    var f := GapPieces(isSpace, text);
    forall g: Span ensures forall d :: d in f(g) ==> Somewhere(text, d) {
      GapPiecesSomewhere(isSpace, text, g);
    }
    SpreadSomewhere(f, text, Gaps(TopLevel(ms), 0, |text|));
    MatchChunksSomewhere(text, ms);
    FastChunksSomewhere(text);
  }

  /** The end line of an unsplit gap is the line of its last character exactly when that one ends the line; else it
      is one short. */
  lemma GapEndLineIff(text: string, g: Span)
    requires g.start < g.end <= |text|
    ensures GapChunk(text, g).endLine == LineAt(text, g.end - 1) <==> text[g.end-1] == '\n'
    ensures text[g.end-1] != '\n' ==> GapChunk(text, g).endLine == LineAt(text, g.end - 1) - 1
  {
    var last := [text[g.end-1]];
    assert text[..g.end] == text[..g.end-1] + last;
    LinesConcat(text[..g.end-1], last);
    assert CountLines(last) == (if last[0] == '\n' then 1 else 0) + CountLines(last[1..]);
  }

  /** So the lines of an unsplit gap are in order exactly when it holds a line end. */
  lemma GapLinesInOrderIff(text: string, g: Span)
    requires g.start <= g.end <= |text|
    ensures LinesInOrder(GapChunk(text, g)) <==> '\n' in text[g.start..g.end]
  {
    LinesBetween(text, g.start, g.end);
    LinesBounds(text[g.start..g.end]);
  }

  /** When the lines of all chunks of a gap are in order, whatever its length: a short one must hold a line end; of
      a long one, at least half of the line ends up to the end of each window must lie in it. */
  lemma GapPiecesInOrderIff(text: string, g: Span)
    requires g.start <= g.end <= |text|
    ensures var gap := text[g.start..g.end];
            (forall d :: d in SplitChunk(GapChunk(text, g)) ==> LinesInOrder(d)) <==>
            if |gap| <= MAX_RUNES then '\n' in gap
            else forall w :: w in Windows(|gap|, MAX_RUNES, OVERLAP, 0) ==> HalfInLast(gap, w)
  {
    var c := GapChunk(text, g);
    if |c.content| <= MAX_RUNES {
      assert SplitChunk(c) == [c] && c in [c];
      GapLinesInOrderIff(text, g);
    } else {
      PiecesInOrderIff(c);
    }
  }

  /** The one character of a text without matches is said to start on line 1 and to end on line 0. */
  lemma GapEndsBeforeItStarts(isSpace: char -> bool)
    requires !isSpace('x')
    ensures exists c :: c in AllChunks(isSpace, "x", []) && c.startLine == 1 && c.endLine == 0
  {
    var g := Span(0, 1);
    assert Gaps([], 0, 1) == [g] && "x"[0..1] == "x" && "x"[..0] == "" && "x"[..1] == "x";
    assert Spread(GapPieces(isSpace, "x"), [g]) == GapPieces(isSpace, "x")(g) + Spread(GapPieces(isSpace, "x"), []);
    assert GapChunk("x", g) in AllChunks(isSpace, "x", []);
  }

  lemma SplitNotEmpty(c: Chunk)
    ensures SplitChunk(c) != []
  {
    if |c.content| > MAX_RUNES {
      WindowsTile(|c.content|, MAX_RUNES, OVERLAP, 0);
    }
  }

  /** The whole-file fallback is taken exactly for a file with no match and nothing but white space. */
  lemma FallbackIff(isSpace: char -> bool, text: string, ms: seq<Match>)
    ensures GapChunks(GapPieces(isSpace, text), ms, |text|) + MatchChunks(SplitChunk, ms) == []
        <==> ms == [] && Text.TrimSpace(isSpace, text) == ""
  {
    if ms != [] {
      SplitNotEmpty(ms[|ms| - 1].chunk);
    } else if text == "" {
      assert Gaps([], 0, 0) == [];
    } else {
      var g := Span(0, |text|);
      assert Gaps([], 0, |text|) == [g] && text[0..|text|] == text;
      SplitNotEmpty(GapChunk(text, g));
      assert Spread(GapPieces(isSpace, text), [g]) ==
             GapPieces(isSpace, text)(g) + Spread(GapPieces(isSpace, text), []);
    }
  }
}
