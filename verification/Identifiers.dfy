/** Tokenizing of text and splitting of code identifiers (internal/db/lexical/bm25.go, lines 178-200 and 215-268).
    Go's Unicode tables are a parameter: nothing below depends on which runes they classify. */
module Identifiers {

  /** The predicates and the case mapping of Go's unicode package that the tokenizer calls. */
  datatype CharClasses = CharClasses(
    isLetter: char -> bool,
    isDigit: char -> bool,
    isLower: char -> bool,
    isUpper: char -> bool,
    toLower: char -> char)

  /** A half-open range of positions of a token. */
  datatype Span = Span(lo: nat, hi: nat)

  // ---------- where an identifier is cut ----------

  /** A cut between two adjacent runes neither of which is an underscore: a case step, a letter/digit step,
      or the last capital of a run of capitals that a lower-case rune follows. */
  predicate IsBreak(u: CharClasses, s: string, i: nat)
    requires 0 < i < |s|
  {
    || (u.isLower(s[i-1]) && u.isUpper(s[i]))
    || u.isDigit(s[i-1]) != u.isDigit(s[i])
    || (u.isUpper(s[i-1]) && u.isUpper(s[i]) && i + 1 < |s| && u.isLower(s[i+1]))
  }

  /** The end of the fragment that starts at `from`. */
  function SegmentEnd(u: CharClasses, s: string, from: nat): (e: nat)
    requires from < |s|
    ensures from < e <= |s|
    ensures forall j :: from < j < e ==> s[j] != '_' && !IsBreak(u, s, j)
    ensures e < |s| ==> s[e] == '_' || IsBreak(u, s, e)
    decreases |s| - from
  {
    if from + 1 == |s| || s[from+1] == '_' || IsBreak(u, s, from + 1) then from + 1
    else SegmentEnd(u, s, from + 1)
  }

  /** Non-empty ranges of s[from..] in increasing, disjoint order. */
  ghost predicate Ordered(s: string, from: nat, sp: seq<Span>) {
    && (forall i :: 0 <= i < |sp| ==> from <= sp[i].lo < sp[i].hi <= |s|)
    && (forall i, j :: 0 <= i < j < |sp| ==> sp[i].hi <= sp[j].lo)
  }

  /** The fragments of s[from..] as ranges of positions, skipping underscores. */
  function Spans(u: CharClasses, s: string, from: nat): (sp: seq<Span>)
    requires from <= |s|
    ensures Ordered(s, from, sp)
    decreases |s| - from
  {
    if from == |s| then []
    else if s[from] == '_' then Spans(u, s, from + 1)
    else
      var e := SegmentEnd(u, s, from);
      var rest := Spans(u, s, e);
      var sp := [Span(from, e)] + rest;
      assert forall i :: 0 < i < |sp| ==> sp[i] == rest[i-1];
      sp
  }

  /** The texts of the fragments of s[from..]. */
  function FragmentsFrom(u: CharClasses, s: string, from: nat): seq<string>
    requires from <= |s|
    decreases |s| - from
  {
    if from == |s| then []
    else if s[from] == '_' then FragmentsFrom(u, s, from + 1)
    else
      var e := SegmentEnd(u, s, from);
      [s[from..e]] + FragmentsFrom(u, s, e)
  }

  function Fragments(u: CharClasses, s: string): seq<string> {
    FragmentsFrom(u, s, 0)
  }

  /** The fragments are the texts of the spans. */
  lemma {:induction false} FragmentsAreSpanTexts(u: CharClasses, s: string, from: nat)
    requires from <= |s|
    ensures |FragmentsFrom(u, s, from)| == |Spans(u, s, from)|
    ensures forall i :: 0 <= i < |Spans(u, s, from)| ==>
              FragmentsFrom(u, s, from)[i] == s[Spans(u, s, from)[i].lo..Spans(u, s, from)[i].hi]
    decreases |s| - from
  {
    if from < |s| {
      if s[from] == '_' {
        FragmentsAreSpanTexts(u, s, from + 1);
      } else {
        FragmentsAreSpanTexts(u, s, SegmentEnd(u, s, from));
      }
    }
  }

  ghost predicate Covered(sp: seq<Span>, p: nat) {
    exists i :: 0 <= i < |sp| && sp[i].lo <= p < sp[i].hi
  }

  /** What a split of a token must be, stated without the algorithm: the ranges cover exactly the positions
      that are not underscores, no range has a cut inside it, and two ranges touch only at a cut. */
  ghost predicate IsSplit(u: CharClasses, s: string, from: nat, sp: seq<Span>)
    requires from <= |s|
  {
    && Ordered(s, from, sp)
    && (forall p :: from <= p < |s| ==> (s[p] != '_' <==> Covered(sp, p)))
    && (forall i, p :: 0 <= i < |sp| && sp[i].lo < p < sp[i].hi ==> !IsBreak(u, s, p))
    && (forall i :: 0 < i < |sp| && sp[i-1].hi == sp[i].lo ==> IsBreak(u, s, sp[i].lo))
  }

  lemma CoveredCons(x: Span, sp: seq<Span>, p: nat)
    ensures Covered([x] + sp, p) <==> x.lo <= p < x.hi || Covered(sp, p)
  {
    var all := [x] + sp;
    if x.lo <= p < x.hi {
      assert all[0] == x;
    } else if Covered(sp, p) {
      var i :| 0 <= i < |sp| && sp[i].lo <= p < sp[i].hi;
      assert all[i+1] == sp[i];
    } else {
      assert forall i :: 1 <= i < |all| ==> all[i] == sp[i-1];
    }
  }

  lemma SplitCons(u: CharClasses, s: string, from: nat, e: nat, rest: seq<Span>)
    requires from < e <= |s| && e == SegmentEnd(u, s, from) && s[from] != '_' && IsSplit(u, s, e, rest)
    requires Ordered(s, from, [Span(from, e)] + rest)
    ensures IsSplit(u, s, from, [Span(from, e)] + rest)
  {
    var sp := [Span(from, e)] + rest;
    forall p | from <= p < |s| ensures s[p] != '_' <==> Covered(sp, p) {
      CoveredCons(Span(from, e), rest, p);
      if p < e {
        assert forall i :: 0 <= i < |rest| ==> e <= rest[i].lo;
      }
    }
    forall i, p | 0 <= i < |sp| && sp[i].lo < p < sp[i].hi ensures !IsBreak(u, s, p) {
      if i > 0 { assert sp[i] == rest[i-1]; }
    }
    forall i | 0 < i < |sp| && sp[i-1].hi == sp[i].lo ensures IsBreak(u, s, sp[i].lo) {
      if i == 1 {
        assert rest[0].lo == e && Covered(rest, e);
      } else {
        assert sp[i] == rest[i-1] && sp[i-1] == rest[i-2];
      }
    }
  }

  /** The spans computed are such a split. */
  lemma {:induction false} SpansAreSplit(u: CharClasses, s: string, from: nat)
    requires from <= |s|
    ensures IsSplit(u, s, from, Spans(u, s, from))
    decreases |s| - from
  {
    if from < |s| {
      if s[from] == '_' {
        SpansAreSplit(u, s, from + 1);
      } else {
        SpansAreSplit(u, s, SegmentEnd(u, s, from));
        SegmentAndRest(u, s, from);
      }
    }
  }

  lemma SegmentAndRest(u: CharClasses, s: string, from: nat)
    requires from < |s| && s[from] != '_'
    requires IsSplit(u, s, SegmentEnd(u, s, from), Spans(u, s, SegmentEnd(u, s, from)))
    ensures IsSplit(u, s, from, Spans(u, s, from))
  {
    var e := SegmentEnd(u, s, from);
    var rest := Spans(u, s, e);
    assert Spans(u, s, from) == [Span(from, e)] + rest;
    SplitCons(u, s, from, e, rest);
  }

  lemma NextSpanTouches(s: string, from: nat, sp: seq<Span>)
    requires Ordered(s, from, sp) && |sp| > 0 && Covered(sp, sp[0].hi)
    ensures |sp| > 1 && sp[1].lo == sp[0].hi
  {
    var j :| 0 <= j < |sp| && sp[j].lo <= sp[0].hi < sp[j].hi;
    assert j >= 1;
    assert sp[0].hi <= sp[1].lo;
    if j > 1 {
      assert false;
    }
  }

  /** In a split, the range over a non-underscore start is the first one and ends at the segment's end. */
  lemma FirstSpan(u: CharClasses, s: string, from: nat, sp: seq<Span>)
    requires from < |s| && s[from] != '_' && IsSplit(u, s, from, sp)
    ensures |sp| > 0 && sp[0] == Span(from, SegmentEnd(u, s, from))
  {
    var e := SegmentEnd(u, s, from);
    assert Covered(sp, from);
    var hi := sp[0].hi;
    if hi < e {
      assert s[hi] != '_' && Covered(sp, hi);
      NextSpanTouches(s, from, sp);
      assert false;
    } else if e < hi {
      assert Covered(sp, e);
      assert false;
    }
  }

  /** What follows an underscore, or the first segment, is split by the rest. */
  lemma AfterUnderscore(u: CharClasses, s: string, from: nat, sp: seq<Span>)
    requires from < |s| && s[from] == '_' && IsSplit(u, s, from, sp)
    ensures IsSplit(u, s, from + 1, sp)
  {
    assert !Covered(sp, from);
  }

  lemma TailCovers(s: string, from: nat, e: nat, sp: seq<Span>, p: nat)
    requires from < e <= p < |s| && sp != [] && sp[0] == Span(from, e)
    ensures Covered(sp[1..], p) <==> Covered(sp, p)
  {
    CoveredCons(sp[0], sp[1..], p);
    assert [sp[0]] + sp[1..] == sp;
  }

  lemma AfterSegment(u: CharClasses, s: string, from: nat, sp: seq<Span>)
    requires from < |s| && s[from] != '_' && IsSplit(u, s, from, sp) && sp != []
    requires sp[0] == Span(from, SegmentEnd(u, s, from))
    ensures IsSplit(u, s, SegmentEnd(u, s, from), sp[1..])
  {
    var e, rest := SegmentEnd(u, s, from), sp[1..];
    assert forall i :: 0 <= i < |rest| ==> rest[i] == sp[i+1];
    forall p | e <= p < |s| ensures s[p] != '_' <==> Covered(rest, p) {
      TailCovers(s, from, e, sp, p);
    }
  }

  /** A split is unique, so IsSplit determines the fragments completely. */
  lemma {:induction false} SplitUnique(u: CharClasses, s: string, from: nat, sp: seq<Span>)
    requires from <= |s| && IsSplit(u, s, from, sp)
    ensures sp == Spans(u, s, from)
    decreases |s| - from
  {
    if from == |s| {
      assert sp == [];
    } else if s[from] == '_' {
      AfterUnderscore(u, s, from, sp);
      SplitUnique(u, s, from + 1, sp);
    } else {
      FirstSpan(u, s, from, sp);
      AfterSegment(u, s, from, sp);
      SplitUnique(u, s, SegmentEnd(u, s, from), sp[1..]);
      assert sp == [sp[0]] + sp[1..];
    }
  }

  // ---------- nothing is lost ----------

  function WithoutUnderscores(s: string): string {
    if s == [] then []
    else if s[0] == '_' then WithoutUnderscores(s[1..])
    else [s[0]] + WithoutUnderscores(s[1..])
  }

  function Concat(parts: seq<string>): string {
    if parts == [] then [] else parts[0] + Concat(parts[1..])
  }

  lemma {:induction false} WithoutUnderscoresPrefix(s: string, n: nat)
    requires n <= |s| && forall i :: 0 <= i < n ==> s[i] != '_'
    ensures WithoutUnderscores(s) == s[..n] + WithoutUnderscores(s[n..])
  {
    if n > 0 {
      WithoutUnderscoresPrefix(s[1..], n - 1);
      assert s[1..][n-1..] == s[n..] && [s[0]] + s[1..][..n-1] == s[..n];
    }
  }

  lemma {:induction false} FragmentsFromLossless(u: CharClasses, s: string, from: nat)
    requires from <= |s|
    ensures Concat(FragmentsFrom(u, s, from)) == WithoutUnderscores(s[from..])
    decreases |s| - from
  {
    if from < |s| {
      if s[from] == '_' {
        FragmentsFromLossless(u, s, from + 1);
        assert s[from..][1..] == s[from+1..];
      } else {
        var e := SegmentEnd(u, s, from);
        FragmentsFromLossless(u, s, e);
        WithoutUnderscoresPrefix(s[from..], e - from);
        assert s[from..][..e-from] == s[from..e] && s[from..][e-from..] == s[e..];
      }
    }
  }

  /** Joining the fragments gives the token back without its underscores; no fragment is empty or has one. */
  lemma FragmentsLossless(u: CharClasses, s: string)
    ensures Concat(Fragments(u, s)) == WithoutUnderscores(s)
    ensures forall f :: f in Fragments(u, s) ==> f != "" && '_' !in f
  {
    FragmentsFromLossless(u, s, 0);
    assert s[0..] == s;
    SpansAreSplit(u, s, 0);
    FragmentsAreSpanTexts(u, s, 0);
    var sp := Spans(u, s, 0);
    forall i | 0 <= i < |sp| ensures '_' !in s[sp[i].lo..sp[i].hi] {
      forall p | sp[i].lo <= p < sp[i].hi ensures s[p] != '_' {
        assert Covered(sp, p);
      }
    }
  }

  // ---------- the loop ----------

  /** strings.Trim(s, "_"). */
  function TrimUnderscores(s: string): string {
    if s == [] then []
    else if s[0] == '_' then TrimUnderscores(s[1..])
    else if s[|s|-1] == '_' then TrimUnderscores(s[..|s|-1])
    else s
  }

  /** The flush closure: append the trimmed text of runes[start..end], unless it is empty. */
  function Flush(fragments: seq<string>, runes: string, start: nat, end: nat): seq<string>
    requires end <= |runes|
  {
    if end <= start || TrimUnderscores(runes[start..end]) == "" then fragments
    else fragments + [TrimUnderscores(runes[start..end])]
  }

  /** What the splitting loop has still to produce when it stands at `i` with an open fragment at `start`. */
  ghost predicate Splitting(u: CharClasses, runes: string, start: nat, i: nat, fragments: seq<string>)
    requires i <= |runes|
  {
    && 1 <= i && start <= i
    && (start == i ==> runes[i-1] == '_')
    && (start < i ==> || (start == 0 && i == 1 && runes[0] == '_')
                      || (forall j :: start <= j < i ==> runes[j] != '_'))
    && (forall j :: start < j < i ==> !IsBreak(u, runes, j))
    && fragments + FragmentsFrom(u, runes, start) == Fragments(u, runes)
  }

  lemma TrimIsIdentity(f: string)
    requires f != "" && f[0] != '_' && f[|f|-1] != '_'
    ensures TrimUnderscores(f) == f
  {}

  lemma SegmentEndIs(u: CharClasses, s: string, from: nat, e: nat)
    requires from < e <= |s|
    requires forall j :: from < j < e ==> s[j] != '_' && !IsBreak(u, s, j)
    requires e < |s| ==> s[e] == '_' || IsBreak(u, s, e)
    ensures SegmentEnd(u, s, from) == e
  {
    var e' := SegmentEnd(u, s, from);
    if e' < e {
      assert false;
    } else if e < e' {
      assert false;
    }
  }

  /** A fragment that is only a leading underscore is trimmed away. */
  lemma FlushUnderscore(u: CharClasses, runes: string, fragments: seq<string>)
    requires |runes| > 0 && runes[0] == '_' && fragments + FragmentsFrom(u, runes, 0) == Fragments(u, runes)
    ensures Flush(fragments, runes, 0, 1) + FragmentsFrom(u, runes, 1) == Fragments(u, runes)
  {
    assert runes[0..1] == ['_'];
    assert TrimUnderscores(['_'][1..]) == "";
  }

  lemma FlushFragment(u: CharClasses, runes: string, start: nat, i: nat, fragments: seq<string>)
    requires start < i <= |runes| && SegmentEnd(u, runes, start) == i && runes[start] != '_' && runes[i-1] != '_'
    requires fragments + FragmentsFrom(u, runes, start) == Fragments(u, runes)
    ensures Flush(fragments, runes, start, i) + FragmentsFrom(u, runes, i) == Fragments(u, runes)
  {
    var f, rest := runes[start..i], FragmentsFrom(u, runes, i);
    TrimIsIdentity(f);
    assert fragments + ([f] + rest) == (fragments + [f]) + rest;
  }

  /** Closing a fragment at a cut or at an underscore consumes exactly one fragment. */
  lemma FlushStep(u: CharClasses, runes: string, start: nat, i: nat, fragments: seq<string>)
    requires i <= |runes| && Splitting(u, runes, start, i, fragments)
    requires i == |runes| || runes[i] == '_' || (runes[i-1] != '_' && IsBreak(u, runes, i))
    ensures Flush(fragments, runes, start, i) + FragmentsFrom(u, runes, i) == Fragments(u, runes)
  {
    if start < i {
      if runes[start] == '_' {
        FlushUnderscore(u, runes, fragments);
      } else {
        SegmentEndIs(u, runes, start, i);
        FlushFragment(u, runes, start, i, fragments);
      }
    }
  }

  /** A cut: the open fragment is closed and the next one starts at `i`. */
  lemma CutStep(u: CharClasses, runes: string, start: nat, i: nat, fragments: seq<string>)
    requires i < |runes| && Splitting(u, runes, start, i, fragments)
    requires runes[i-1] != '_' && runes[i] != '_' && IsBreak(u, runes, i)
    ensures Splitting(u, runes, i, i + 1, Flush(fragments, runes, start, i))
  {
    FlushStep(u, runes, start, i, fragments);
  }

  /** An underscore: the open fragment is closed and the next one starts after it. */
  lemma UnderscoreStep(u: CharClasses, runes: string, start: nat, i: nat, fragments: seq<string>)
    requires i < |runes| && Splitting(u, runes, start, i, fragments) && runes[i] == '_'
    ensures Splitting(u, runes, i + 1, i + 1, Flush(fragments, runes, start, i))
  {
    FlushStep(u, runes, start, i, fragments);
    assert FragmentsFrom(u, runes, i) == FragmentsFrom(u, runes, i + 1);
  }

  /** The first rune after an underscore. */
  lemma RestartStep(u: CharClasses, runes: string, start: nat, i: nat, fragments: seq<string>)
    requires i < |runes| && Splitting(u, runes, start, i, fragments) && runes[i] != '_' && runes[i-1] == '_'
    ensures Splitting(u, runes, i, i + 1, fragments)
  {
    if start < i {
      assert FragmentsFrom(u, runes, 0) == FragmentsFrom(u, runes, 1);
    }
  }

  /** No cut: the open fragment goes on. */
  lemma GoOnStep(u: CharClasses, runes: string, start: nat, i: nat, fragments: seq<string>)
    requires i < |runes| && Splitting(u, runes, start, i, fragments)
    requires runes[i] != '_' && runes[i-1] != '_' && !IsBreak(u, runes, i)
    ensures Splitting(u, runes, start, i + 1, fragments)
  {}

  /** The loop body, lines 233-266: whether a fragment ends before rune i, and where the next one starts. */
  method SplitAt(u: CharClasses, token: string, start: nat, i: nat, fragments: seq<string>)
    returns (newStart: nat, newFragments: seq<string>)
    requires i < |token| && Splitting(u, token, start, i, fragments)
    ensures Splitting(u, token, newStart, i + 1, newFragments)
  {
    newStart, newFragments := start, fragments;
    var prev, curr := token[i-1], token[i];
    if curr == '_' {
      UnderscoreStep(u, token, start, i, fragments);
      newFragments := Flush(fragments, token, start, i);
      newStart := i + 1;
    } else if prev == '_' {
      RestartStep(u, token, start, i, fragments);
      newStart := i;
    } else if || (u.isLower(prev) && u.isUpper(curr))
              || u.isDigit(prev) != u.isDigit(curr)
              || (u.isUpper(prev) && u.isUpper(curr) && i + 1 < |token| && u.isLower(token[i+1])) {
      CutStep(u, token, start, i, fragments);
      newFragments := Flush(fragments, token, start, i);
      newStart := i;
    } else {
      GoOnStep(u, token, start, i, fragments);
    }
  }

  /** splitIdentifier, lines 215-268. */
  method SplitIdentifier(u: CharClasses, token: string) returns (fragments: seq<string>)
    ensures fragments == Fragments(u, token)
  {
    fragments := [];
    if |token| == 0 {
      return;
    }
    var start, i := 0, 1;
    while i < |token|
      invariant i <= |token| && Splitting(u, token, start, i, fragments)
    {
      start, fragments := SplitAt(u, token, start, i, fragments);
      i := i + 1;
    }
    FlushStep(u, token, start, |token|, fragments);
    fragments := Flush(fragments, token, start, |token|);
  }

  // ---------- tokens of a text ----------

  predicate IsWordRune(u: CharClasses, c: char) {
    u.isLetter(c) || u.isDigit(c) || c == '_'
  }

  /** strings.FieldsFunc: the maximal runs of word runes of text[from..]; `open` is the run being read. */
  function Fields(u: CharClasses, text: string, open: string): (words: seq<string>)
    ensures forall w :: w in words ==> w != ""
    decreases |text|
  {
    if text == [] then (if open == "" then [] else [open])
    else if IsWordRune(u, text[0]) then Fields(u, text[1..], open + [text[0]])
    else (if open == "" then [] else [open]) + Fields(u, text[1..], "")
  }

  function Words(u: CharClasses, text: string): seq<string> {
    Fields(u, text, "")
  }

  /** strings.ToLower, rune by rune. */
  function Lower(u: CharClasses, s: string): (r: string)
    ensures |r| == |s|
  {
    seq(|s|, i requires 0 <= i < |s| => u.toLower(s[i]))
  }

  /** The lower-cased fragments that differ from the lower-cased word. */
  function FragmentTokens(u: CharClasses, lowerWord: string, fragments: seq<string>): seq<string> {
    if fragments == [] then []
    else
      var rest := FragmentTokens(u, lowerWord, fragments[..|fragments|-1]);
      var f := Lower(u, fragments[|fragments|-1]);
      if f != "" && f != lowerWord then rest + [f] else rest
  }

  function WordTokens(u: CharClasses, w: string): seq<string> {
    [Lower(u, w)] + FragmentTokens(u, Lower(u, w), Fragments(u, w))
  }

  function TokensOf(u: CharClasses, words: seq<string>): seq<string> {
    if words == [] then [] else TokensOf(u, words[..|words|-1]) + WordTokens(u, words[|words|-1])
  }

  function Tokens(u: CharClasses, text: string): seq<string> {
    TokensOf(u, Words(u, text))
  }

  method Tokenize(u: CharClasses, text: string) returns (tokens: seq<string>)
    ensures tokens == Tokens(u, text)
  {
    var rawTokens := Words(u, text);
    tokens := [];
    for i := 0 to |rawTokens|
      invariant tokens == TokensOf(u, rawTokens[..i])
    {
      var token := rawTokens[i];
      ghost var before := tokens;
      var lowerToken := Lower(u, token);
      tokens := tokens + [lowerToken];
      var fragments := SplitIdentifier(u, token);
      for j := 0 to |fragments|
        invariant tokens == before + [lowerToken] + FragmentTokens(u, lowerToken, fragments[..j])
      {
        var lowerFragment := Lower(u, fragments[j]);
        assert fragments[..j+1][..j] == fragments[..j];
        if lowerFragment != "" && lowerFragment != lowerToken {
          tokens := tokens + [lowerFragment];
        }
      }
      assert fragments[..|fragments|] == fragments;
      assert rawTokens[..i+1][..i] == rawTokens[..i];
    }
    assert rawTokens[..|rawTokens|] == rawTokens;
  }

  lemma {:induction false} FragmentTokensComplete(u: CharClasses, lowerWord: string, fragments: seq<string>, f: string)
    requires f in fragments && Lower(u, f) != "" && Lower(u, f) != lowerWord
    ensures Lower(u, f) in FragmentTokens(u, lowerWord, fragments)
  {
    var n := |fragments| - 1;
    if f != fragments[n] {
      FragmentTokensComplete(u, lowerWord, fragments[..n], f);
    }
  }

  lemma {:induction false} WordTokensIncluded(u: CharClasses, words: seq<string>, w: string, t: string)
    requires w in words && t in WordTokens(u, w)
    ensures t in TokensOf(u, words)
  {
    var n := |words| - 1;
    if w != words[n] {
      WordTokensIncluded(u, words[..n], w, t);
    }
  }

  /** Every word of a text, and every fragment of every word, is a token of the text in lower case. */
  lemma EveryFragmentIsAToken(u: CharClasses, text: string, w: string, f: string)
    requires w in Words(u, text) && f in Fragments(u, w)
    ensures Lower(u, w) in Tokens(u, text)
    ensures Lower(u, f) in Tokens(u, text)
  {
    FragmentsLossless(u, w);
    WordTokensIncluded(u, Words(u, text), w, Lower(u, w));
    if Lower(u, f) != Lower(u, w) {
      FragmentTokensComplete(u, Lower(u, w), Fragments(u, w), f);
      WordTokensIncluded(u, Words(u, text), w, Lower(u, f));
    }
  }
}
