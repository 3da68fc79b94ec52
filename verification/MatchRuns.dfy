/** Which chunks a match gets (internal/indexer/chunker.go, lines 403-449): every match has a run of chunks of its own,
    and whatever is in no run is text between matches. */
module MatchRuns {
  import opened ChunkModel
  import opened GapModel

  /** A stretch of the chunks that makes up this chunk: its contents without their overlaps are the content, all carry
      its kind and contextual text, and an unsplit chunk is there as it is. */
  ghost predicate IsRun(chunks: seq<Chunk>, run: Span, c: Chunk) {
    && run.start < run.end <= |chunks|
    && Rejoin(Contents(chunks[run.start..run.end]), 800) == c.content
    && (forall j :: run.start <= j < run.end ==>
          chunks[j].kind == c.kind && chunks[j].contextual == c.contextual && |chunks[j].content| <= 8000)
    && chunks[run.start].startLine == c.startLine
    && (|c.content| <= 8000 ==> run.end == run.start + 1 && chunks[run.start] == c)
  }

  ghost predicate Apart(a: Span, b: Span) {
    a.end <= b.start || b.end <= a.start
  }

  /** Every match has its own run. */
  ghost predicate HaveRuns(matches: seq<Match>, chunks: seq<Chunk>, runs: seq<Span>) {
    && |runs| == |matches|
    && (forall i :: 0 <= i < |matches| ==> IsRun(chunks, runs[i], matches[i].chunk))
    && (forall i, j :: 0 <= i < j < |runs| ==> Apart(runs[i], runs[j]))
  }

  ghost predicate InSomeRun(runs: seq<Span>, j: nat) {
    exists i :: 0 <= i < |runs| && runs[i].start <= j < runs[i].end
  }

  /** What is in no run is a piece of a gap. */
  ghost predicate RestUnknown(chunks: seq<Chunk>, runs: seq<Span>) {
    forall j :: 0 <= j < |chunks| && !InSomeRun(runs, j) ==> chunks[j].kind == "Unknown" && chunks[j].contextual == ""
  }

  // ---------- one chunk ----------

  lemma PieceKeeps(c: Chunk, w: Span)
    ensures Piece(c, w).kind == c.kind && Piece(c, w).contextual == c.contextual
  {}

  /** Splitting keeps kind and contextual text, and the first piece starts where the chunk does. */
  lemma SplitKeeps(c: Chunk)
    ensures SplitChunk(c) != [] && SplitChunk(c)[0].startLine == c.startLine
    ensures forall d :: d in SplitChunk(c) ==>
              d.kind == c.kind && d.contextual == c.contextual && |d.content| <= MAX_RUNES
  {
    SplitLossless(c);
    if |c.content| > MAX_RUNES {
      var ws := SplitWindows(c);
      WindowsTile(|c.content|, MAX_RUNES, OVERLAP, 0);
      CutMembers(PieceOf(c), ws);
      CutAt(PieceOf(c), ws, 0);
      forall d | d in SplitChunk(c) ensures d.kind == c.kind && d.contextual == c.contextual {
        var w :| w in ws && d == PieceOf(c)(w);
        PieceKeeps(c, w);
      }
      assert Slice(c.content, Span(0, 0)) == "";
    }
  }

  lemma SplitIsRun(before: seq<Chunk>, c: Chunk)
    ensures IsRun(before + SplitChunk(c), Span(|before|, |before| + |SplitChunk(c)|), c)
  {
    var all, pieces := before + SplitChunk(c), SplitChunk(c);
    SplitKeeps(c);
    SplitLossless(c);
    assert all[|before|..|before| + |pieces|] == pieces;
    forall j | |before| <= j < |before| + |pieces|
      ensures all[j].kind == c.kind && all[j].contextual == c.contextual && |all[j].content| <= MAX_RUNES
    {
      assert all[j] == pieces[j-|before|] && pieces[j-|before|] in pieces;
    }
  }

  lemma RunStays(chunks: seq<Chunk>, more: seq<Chunk>, run: Span, c: Chunk)
    requires IsRun(chunks, run, c)
    ensures IsRun(chunks + more, run, c)
  {
    assert (chunks + more)[run.start..run.end] == chunks[run.start..run.end];
  }

  // ---------- all matches ----------

  /** Runs that follow each other from place `from` to the end. */
  ghost predicate Consecutive(runs: seq<Span>, from: nat, to: nat) {
    && (runs == [] ==> from == to)
    && (runs != [] ==> runs[0].start == from && runs[|runs|-1].end == to)
    && (forall i :: 0 <= i < |runs| ==> runs[i].start < runs[i].end)
    && (forall i :: 0 < i < |runs| ==> runs[i].start == runs[i-1].end)
  }

  lemma {:induction false} ConsecutiveApart(runs: seq<Span>, from: nat, to: nat)
    requires Consecutive(runs, from, to)
    ensures from <= to
    ensures forall i, j :: 0 <= i < j < |runs| ==> runs[i].end <= runs[j].start
    ensures forall j :: from <= j < to ==> InSomeRun(runs, j)
    ensures forall i :: 0 <= i < |runs| ==> runs[i].end <= to
  {
    if runs != [] {
      var n := |runs| - 1;
      var mid := runs[n].start;
      assert Consecutive(runs[..n], from, mid);
      ConsecutiveApart(runs[..n], from, mid);
      forall j | from <= j < to ensures InSomeRun(runs, j) {
        if j < mid {
          assert InSomeRun(runs[..n], j);
          var i :| 0 <= i < n && runs[..n][i].start <= j < runs[..n][i].end;
          assert runs[i].start <= j < runs[i].end;
        } else {
          assert runs[n].start <= j < runs[n].end;
        }
      }
      forall i, j | 0 <= i < j < |runs| ensures runs[i].end <= runs[j].start {
        assert runs[..n][i].end <= mid;
        if j < n {
          assert runs[..n][i].end <= runs[..n][j].start;
        }
      }
    }
  }

  lemma {:induction false} EarlierChunks(ms: seq<Match>, i: nat)
    requires i <= |ms|
    ensures MatchChunks(SplitChunk, ms[..i]) <= MatchChunks(SplitChunk, ms)
    decreases |ms|
  {
    if i == |ms| {
      assert ms[..i] == ms;
    } else {
      EarlierChunks(ms[..|ms|-1], i);
      assert ms[..|ms|-1][..i] == ms[..i];
    }
  }

  /** Where the chunks of the first i matches end. */
  function EndOf(gaps: seq<Chunk>, ms: seq<Match>, i: nat): nat
    requires i <= |ms|
  {
    |gaps| + |MatchChunks(SplitChunk, ms[..i])|
  }

  lemma EndsGrow(gaps: seq<Chunk>, ms: seq<Match>, i: nat)
    requires i < |ms|
    ensures EndOf(gaps, ms, i + 1) == EndOf(gaps, ms, i) + |SplitChunk(ms[i].chunk)|
    ensures EndOf(gaps, ms, i) < EndOf(gaps, ms, i + 1) <= |gaps| + |MatchChunks(SplitChunk, ms)|
  {
    assert ms[..i+1][..i] == ms[..i];
    SplitKeeps(ms[i].chunk);
    EarlierChunks(ms, i + 1);
  }

  lemma RunInside(before: seq<Chunk>, c: Chunk, rest: seq<Chunk>, all: seq<Chunk>, run: Span)
    requires all == before + SplitChunk(c) + rest && run == Span(|before|, |before| + |SplitChunk(c)|)
    ensures IsRun(all, run, c)
  {
    SplitIsRun(before, c);
    RunStays(before + SplitChunk(c), rest, run, c);
  }

  /** The chunks of one match among those of all. */
  lemma AroundMatch(ms: seq<Match>, i: nat) returns (rest: seq<Chunk>)
    requires i < |ms|
    ensures MatchChunks(SplitChunk, ms) == MatchChunks(SplitChunk, ms[..i]) + SplitChunk(ms[i].chunk) + rest
  {
    assert ms[..i+1][..i] == ms[..i];
    EarlierChunks(ms, i + 1);
    rest := MatchChunks(SplitChunk, ms)[|MatchChunks(SplitChunk, ms[..i+1])|..];
  }

  lemma OwnRun(gaps: seq<Chunk>, ms: seq<Match>, i: nat, run: Span)
    requires i < |ms| && run == Span(EndOf(gaps, ms, i), EndOf(gaps, ms, i + 1))
    ensures IsRun(gaps + MatchChunks(SplitChunk, ms), run, ms[i].chunk)
  {
    var rest := AroundMatch(ms, i);
    EndsGrow(gaps, ms, i);
    Regrouped(gaps, MatchChunks(SplitChunk, ms[..i]), SplitChunk(ms[i].chunk), rest);
    RunInside(gaps + MatchChunks(SplitChunk, ms[..i]), ms[i].chunk, rest, gaps + MatchChunks(SplitChunk, ms), run);
  }

  lemma Regrouped(a: seq<Chunk>, b: seq<Chunk>, c: seq<Chunk>, d: seq<Chunk>)
    ensures a + (b + c + d) == (a + b) + c + d
  {}

  /** The runs of the matches, one after the other behind the gaps. */
  function RunsOf(gaps: seq<Chunk>, ms: seq<Match>): (runs: seq<Span>)
    ensures |runs| == |ms|
    ensures forall i :: 0 <= i < |ms| ==> runs[i] == Span(EndOf(gaps, ms, i), EndOf(gaps, ms, i + 1))
  {
    seq(|ms|, i requires 0 <= i < |ms| => Span(EndOf(gaps, ms, i), EndOf(gaps, ms, i + 1)))
  }

  lemma RunsFollow(gaps: seq<Chunk>, ms: seq<Match>)
    ensures Consecutive(RunsOf(gaps, ms), |gaps|, |gaps| + |MatchChunks(SplitChunk, ms)|)
  {
    var runs := RunsOf(gaps, ms);
    assert ms[..|ms|] == ms;
    forall i | 0 <= i < |runs| ensures runs[i].start < runs[i].end {
      EndsGrow(gaps, ms, i);
    }
  }

  // ---------- gaps ----------

  ghost predicate AllUnknown(cs: seq<Chunk>) {
    forall c :: c in cs ==> c.kind == "Unknown" && c.contextual == ""
  }

  lemma {:induction false} GapsUnknown(isSpace: char -> bool, text: string, gs: seq<Span>)
    ensures AllUnknown(Spread(GapPieces(isSpace, text), gs))
  {
    if gs != [] {
      GapsUnknown(isSpace, text, gs[1..]);
      var g := gs[0];
      if g.start <= g.end <= |text| {
        SplitKeeps(GapChunk(text, g));
      }
    }
  }

  /** Of matches in order. */
  lemma SortedHaveRuns(isSpace: char -> bool, text: string, ms: seq<Match>) returns (runs: seq<Span>)
    ensures HaveRuns(ms, AllChunks(isSpace, text, ms), runs)
    ensures ms != [] ==> RestUnknown(AllChunks(isSpace, text, ms), runs)
  {
    var gaps := GapChunks(GapPieces(isSpace, text), ms, |text|);
    GapsUnknown(isSpace, text, Gaps(TopLevel(ms), 0, |text|));
    if ms == [] {
      runs := [];
    } else {
      EndsGrow(gaps, ms, 0);
      runs := RunsOf(gaps, ms);
      BehindGaps(gaps, ms);
    }
  }

  lemma BehindGaps(gaps: seq<Chunk>, ms: seq<Match>)
    requires AllUnknown(gaps)
    ensures HaveRuns(ms, gaps + MatchChunks(SplitChunk, ms), RunsOf(gaps, ms))
    ensures RestUnknown(gaps + MatchChunks(SplitChunk, ms), RunsOf(gaps, ms))
  {
    RunsFollow(gaps, ms);
    RestIsGaps(gaps, MatchChunks(SplitChunk, ms), RunsOf(gaps, ms));
    RunsApart(RunsOf(gaps, ms), |gaps|, |gaps| + |MatchChunks(SplitChunk, ms)|);
    forall i | 0 <= i < |ms| ensures IsRun(gaps + MatchChunks(SplitChunk, ms), RunsOf(gaps, ms)[i], ms[i].chunk) {
      OwnRun(gaps, ms, i, RunsOf(gaps, ms)[i]);
    }
  }

  lemma RunsApart(runs: seq<Span>, from: nat, to: nat)
    requires Consecutive(runs, from, to)
    ensures forall i, j :: 0 <= i < j < |runs| ==> Apart(runs[i], runs[j])
  {
    ConsecutiveApart(runs, from, to);
  }

  lemma RestIsGaps(gaps: seq<Chunk>, rest: seq<Chunk>, runs: seq<Span>)
    requires AllUnknown(gaps) && Consecutive(runs, |gaps|, |gaps| + |rest|)
    ensures RestUnknown(gaps + rest, runs)
  {
    var found := gaps + rest;
    ConsecutiveApart(runs, |gaps|, |found|);
    forall j | 0 <= j < |found| && !InSomeRun(runs, j) ensures found[j].kind == "Unknown" && found[j].contextual == "" {
      assert j < |gaps| && found[j] == gaps[j] && gaps[j] in gaps;
    }
  }

  // ---------- in any order ----------

  lemma WithoutPlace<T>(s: seq<T>, k: nat)
    requires k < |s|
    ensures multiset(s[..k] + s[k+1..]) == multiset(s) - multiset{s[k]}
    ensures var r := s[..k] + s[k+1..]; forall i :: 0 <= i < |r| ==> r[i] == s[if i < k then i else i + 1]
  {
    assert s == s[..k] + [s[k]] + s[k+1..];
  }

  /** A permutation is a one-to-one correspondence of places. */
  ghost predicate Corresponds<T>(s: seq<T>, t: seq<T>, f: seq<nat>) {
    && |f| == |t| == |s|
    && (forall i :: 0 <= i < |t| ==> f[i] < |s| && s[f[i]] == t[i])
    && (forall i, j :: 0 <= i < j < |f| ==> f[i] != f[j])
    && (forall k: nat :: k < |s| ==> k in f)
  }

  lemma {:induction false} Places<T>(s: seq<T>, t: seq<T>) returns (f: seq<nat>)
    requires multiset(s) == multiset(t)
    ensures Corresponds(s, t, f)
    decreases |t|
  {
    assert |multiset(s)| == |s| && |multiset(t)| == |t|;
    if t == [] {
      f := [];
    } else {
      var n := |t| - 1;
      assert t[..n] + t[n+1..] == t[..n];
      assert t[n] in multiset(t) && t[n] in multiset(s);
      var k :| 0 <= k < |s| && s[k] == t[n];
      WithoutPlace(t, n);
      WithoutPlace(s, k);
      var rest := Places(s[..k] + s[k+1..], t[..n]);
      f := Shifted(rest, k) + [k];
      ShiftedCorresponds(s, t, k, rest);
    }
  }

  function Shifted(f: seq<nat>, k: nat): (r: seq<nat>)
    ensures |r| == |f|
    ensures forall i :: 0 <= i < |f| ==> r[i] == if f[i] < k then f[i] else f[i] + 1
  {
    seq(|f|, i requires 0 <= i < |f| => if f[i] < k then f[i] else f[i] + 1)
  }

  lemma ShiftedCorresponds<T>(s: seq<T>, t: seq<T>, k: nat, rest: seq<nat>)
    requires t != [] && k < |s| && s[k] == t[|t|-1]
    requires Corresponds(s[..k] + s[k+1..], t[..|t|-1], rest)
    ensures Corresponds(s, t, Shifted(rest, k) + [k])
  {
    var f, n := Shifted(rest, k) + [k], |t| - 1;
    WithoutPlace(s, k);
    forall i | 0 <= i < |t| ensures f[i] < |s| && s[f[i]] == t[i] {
      if i < n {
        assert (s[..k] + s[k+1..])[rest[i]] == t[..n][i];
      }
    }
    forall p: nat | p < |s| ensures p in f {
      if p == k {
        assert f[n] == k;
      } else {
        var q: nat := if p < k then p else p - 1;
        assert q in rest;
        var i :| 0 <= i < n && rest[i] == q;
        assert f[i] == p;
      }
    }
  }

  /** Of matches in any order. */
  lemma RunsForAll(sorted: seq<Match>, matches: seq<Match>, chunks: seq<Chunk>, runs: seq<Span>)
    returns (own: seq<Span>)
    requires multiset(sorted) == multiset(matches) && HaveRuns(sorted, chunks, runs)
    ensures HaveRuns(matches, chunks, own)
    ensures RestUnknown(chunks, runs) ==> RestUnknown(chunks, own)
  {
    var f := Places(sorted, matches);
    own := Reordered(runs, f);
    forall i, j | 0 <= i < j < |own| ensures Apart(own[i], own[j]) {
      assert f[i] != f[j];
    }
    forall j: nat | InSomeRun(runs, j) ensures InSomeRun(own, j) {
      var k :| 0 <= k < |runs| && runs[k].start <= j < runs[k].end;
      assert k in f;
      var i :| 0 <= i < |f| && f[i] == k;
      assert own[i].start <= j < own[i].end;
    }
  }

  function Reordered(runs: seq<Span>, f: seq<nat>): (r: seq<Span>)
    requires forall i :: 0 <= i < |f| ==> f[i] < |runs|
    ensures |r| == |f| && forall i :: 0 <= i < |f| ==> r[i] == runs[f[i]]
  {
    seq(|f|, i requires 0 <= i < |f| => runs[f[i]])
  }

  lemma AllHaveRuns(isSpace: char -> bool, text: string, matches: seq<Match>, sorted: seq<Match>, chunks: seq<Chunk>)
    requires multiset(sorted) == multiset(matches) && chunks == AllChunks(isSpace, text, sorted)
    ensures exists runs :: HaveRuns(matches, chunks, runs) && (matches != [] ==> RestUnknown(chunks, runs))
  {
    var runs := SortedHaveRuns(isSpace, text, sorted);
    var own := RunsForAll(sorted, matches, chunks, runs);
    assert |multiset(sorted)| == |sorted| && |multiset(matches)| == |matches|;
    assert HaveRuns(matches, chunks, own);
  }
}
