/** Which words, cuts and tokens a text has (internal/db/lexical/bm25.go, lines 178-268), rune by rune and shape by
    shape. */
module TokenLaws {
  import opened Identifiers

  // ---------- words ----------

  /** The letters, digits and underscores of a text. */
  function WordRunes(u: CharClasses, text: string): string {
    if text == "" then ""
    else if u.isLetter(text[0]) || u.isDigit(text[0]) || text[0] == '_' then [text[0]] + WordRunes(u, text[1..])
    else WordRunes(u, text[1..])
  }

  lemma {:induction false} ConcatCons(w: string, ws: seq<string>)
    ensures Concat([w] + ws) == w + Concat(ws)
  {
    assert ([w] + ws)[1..] == ws;
  }

  lemma {:induction false} FieldsLossless(u: CharClasses, text: string, open: string)
    ensures Concat(Identifiers.Fields(u, text, open)) == open + WordRunes(u, text)
    decreases |text|
  {
    if text == "" {
      if open != "" {
        ConcatCons(open, []);
        assert [open] + [] == [open];
      }
      assert open + "" == open;
    } else if IsWordRune(u, text[0]) {
      FieldsLossless(u, text[1..], open + [text[0]]);
      assert open + [text[0]] + WordRunes(u, text[1..]) == open + ([text[0]] + WordRunes(u, text[1..]));
    } else {
      FieldsLossless(u, text[1..], "");
      var rest := Identifiers.Fields(u, text[1..], "");
      if open != "" {
        ConcatCons(open, rest);
      } else {
        assert [] + rest == rest;
      }
      assert open + ("" + WordRunes(u, text[1..])) == open + WordRunes(u, text);
    }
  }

  /** The words joined are the letters, digits and underscores of the text: nothing else is in a word, and none of
      these is lost. */
  lemma WordsLossless(u: CharClasses, text: string)
    ensures Concat(Words(u, text)) == WordRunes(u, text)
    ensures forall w :: w in Words(u, text) ==> w != ""
  {
    FieldsLossless(u, text, "");
    assert "" + WordRunes(u, text) == WordRunes(u, text);
  }

  /** A rune that is no letter, digit or underscore separates words. */
  lemma {:induction false} FieldsSplit(u: CharClasses, a: string, c: char, b: string, open: string)
    requires !u.isLetter(c) && !u.isDigit(c) && c != '_'
    ensures Identifiers.Fields(u, a + [c] + b, open) == Identifiers.Fields(u, a, open) + Words(u, b)
    decreases |a|
  {
    var text := a + [c] + b;
    if a == "" {
      assert text[0] == c && text[1..] == b;
    } else {
      assert text[0] == a[0] && text[1..] == a[1..] + [c] + b;
      if IsWordRune(u, a[0]) {
        FieldsSplit(u, a[1..], c, b, open + [a[0]]);
      } else {
        FieldsSplit(u, a[1..], c, b, "");
      }
    }
  }

  lemma WordsSplit(u: CharClasses, a: string, c: char, b: string)
    requires !u.isLetter(c) && !u.isDigit(c) && c != '_'
    ensures Words(u, a + [c] + b) == Words(u, a) + Words(u, b)
  {
    FieldsSplit(u, a, c, b, "");
  }

  /** Letters, digits and underscores next to each other are one word. */
  lemma {:induction false} FieldsOfWord(u: CharClasses, w: string, open: string)
    requires forall i :: 0 <= i < |w| ==> u.isLetter(w[i]) || u.isDigit(w[i]) || w[i] == '_'
    ensures Identifiers.Fields(u, w, open) == if open + w == "" then [] else [open + w]
    decreases |w|
  {
    if w == "" {
      assert open + w == open;
    } else {
      FieldsOfWord(u, w[1..], open + [w[0]]);
      assert open + [w[0]] + w[1..] == open + w;
    }
  }

  lemma OneWord(u: CharClasses, w: string)
    requires w != "" && forall i :: 0 <= i < |w| ==> u.isLetter(w[i]) || u.isDigit(w[i]) || w[i] == '_'
    ensures Words(u, w) == [w]
  {
    FieldsOfWord(u, w, "");
    assert "" + w == w;
  }

  // ---------- tokens ----------

  lemma {:induction false} InFragmentTokens(u: CharClasses, lowerWord: string, fragments: seq<string>, t: string)
    requires forall f :: f in fragments ==> f != ""
    ensures t in FragmentTokens(u, lowerWord, fragments) <==>
            t != lowerWord && exists f :: f in fragments && t == Lower(u, f)
  {
    if fragments != [] {
      var n := |fragments| - 1;
      assert forall f :: f in fragments[..n] ==> f in fragments;
      InFragmentTokens(u, lowerWord, fragments[..n], t);
      assert fragments == fragments[..n] + [fragments[n]];
      assert fragments[n] in fragments;
    }
  }

  lemma {:induction false} InTokensOf(u: CharClasses, words: seq<string>, t: string)
    ensures t in TokensOf(u, words) <==> exists w :: w in words && t in WordTokens(u, w)
  {
    if words != [] {
      var n := |words| - 1;
      InTokensOf(u, words[..n], t);
      assert words == words[..n] + [words[n]];
      assert words[n] in words;
    }
  }

  /** The tokens of a text are its words and the fragments of these in lower case, and nothing else. */
  lemma TokenIff(u: CharClasses, text: string, t: string)
    ensures t in Tokens(u, text) <==>
            exists w :: w in Words(u, text) &&
                (t == Lower(u, w) || exists f :: f in Fragments(u, w) && t == Lower(u, f))
  {
    InTokensOf(u, Words(u, text), t);
    forall w | w in Words(u, text)
      ensures t in WordTokens(u, w) <==> t == Lower(u, w) || exists f :: f in Fragments(u, w) && t == Lower(u, f)
    {
      FragmentsLossless(u, w);
      InFragmentTokens(u, Lower(u, w), Fragments(u, w), t);
    }
  }

  /** Tokens have no upper-case rune left: lower-casing changes none of them. */
  lemma TokensAreLower(u: CharClasses, text: string, t: string, k: nat)
    requires forall c :: u.toLower(u.toLower(c)) == u.toLower(c)
    requires t in Tokens(u, text) && k < |t|
    ensures u.toLower(t[k]) == t[k]
  {
    TokenIff(u, text, t);
    var w :| w in Words(u, text) && (t == Lower(u, w) || exists f :: f in Fragments(u, w) && t == Lower(u, f));
    if t != Lower(u, w) {
      var f :| f in Fragments(u, w) && t == Lower(u, f);
    }
  }

  /** Texts that differ in case only have the same words up to case; a word in another case finds the same. */
  lemma CaseIsIgnored(u: CharClasses, a: string, b: string)
    requires |a| == |b| && forall i :: 0 <= i < |a| ==> u.toLower(a[i]) == u.toLower(b[i])
    requires OnlyWordRunes(u, a) && OnlyWordRunes(u, b) && a != ""
    ensures exists t :: t in Tokens(u, a) && t in Tokens(u, b)
  {
    OneWord(u, a);
    OneWord(u, b);
    assert Lower(u, a) == Lower(u, b);
    TokenIff(u, a, Lower(u, a));
    TokenIff(u, b, Lower(u, a));
    assert a in Words(u, a) && b in Words(u, b);
  }

  ghost predicate OnlyWordRunes(u: CharClasses, w: string) {
    forall i :: 0 <= i < |w| ==> u.isLetter(w[i]) || u.isDigit(w[i]) || w[i] == '_'
  }

  // ---------- where identifiers are cut ----------

  /** No rune is of two kinds. */
  ghost predicate KindsApart(u: CharClasses) {
    forall c :: !(u.isLower(c) && u.isUpper(c)) && !(u.isDigit(c) && (u.isLower(c) || u.isUpper(c)))
                && (c == '_' ==> !u.isLower(c) && !u.isUpper(c) && !u.isDigit(c))
  }

  lemma BreakInFirst(u: CharClasses, x: string, y: string, i: nat)
    requires 0 < i < |x|
    requires i + 1 == |x| && y != "" && u.isLower(y[0]) ==> !(u.isUpper(x[i-1]) && u.isUpper(x[i]))
    ensures IsBreak(u, x + y, i) <==> IsBreak(u, x, i)
  {
    assert (x + y)[i] == x[i] && (x + y)[i-1] == x[i-1];
    if i + 1 < |x| {
      assert (x + y)[i+1] == x[i+1];
    } else if y != "" {
      assert (x + y)[i+1] == y[0];
    }
  }

  lemma BreakInSecond(u: CharClasses, x: string, y: string, i: nat)
    requires 0 < i < |y|
    ensures IsBreak(u, x + y, |x| + i) <==> IsBreak(u, y, i)
  {
    assert (x + y)[|x|+i] == y[i] && (x + y)[|x|+i-1] == y[i-1];
    if i + 1 < |y| {
      assert (x + y)[|x|+i+1] == y[i+1];
    }
  }

  /** The second part does not change the cuts in the first. */
  ghost predicate FirstKept(u: CharClasses, x: string, y: string) {
    forall i :: 0 < i < |x| ==> (IsBreak(u, x + y, i) <==> IsBreak(u, x, i))
  }

  /** There is a cut, or an underscore, between the two. */
  ghost predicate CutBetween(u: CharClasses, x: string, y: string)
    requires x != "" && y != ""
  {
    y[0] == '_' || IsBreak(u, x + y, |x|)
  }

  lemma {:induction false} SegmentInFirst(u: CharClasses, x: string, y: string, from: nat)
    requires from < |x| && y != "" && FirstKept(u, x, y) && CutBetween(u, x, y)
    ensures SegmentEnd(u, x + y, from) == SegmentEnd(u, x, from)
    decreases |x| - from
  {
    var s := x + y;
    if from + 1 < |x| {
      assert s[from+1] == x[from+1];
      assert IsBreak(u, s, from + 1) <==> IsBreak(u, x, from + 1);
      if x[from+1] != '_' && !IsBreak(u, x, from + 1) {
        SegmentInFirst(u, x, y, from + 1);
      }
    } else {
      assert s[from+1] == y[0];
    }
  }

  lemma {:induction false} SegmentInSecond(u: CharClasses, x: string, y: string, from: nat)
    requires from < |y|
    ensures SegmentEnd(u, x + y, |x| + from) == |x| + SegmentEnd(u, y, from)
    decreases |y| - from
  {
    var s := x + y;
    if from + 1 < |y| {
      assert s[|x|+from+1] == y[from+1];
      BreakInSecond(u, x, y, from + 1);
      if y[from+1] != '_' && !IsBreak(u, y, from + 1) {
        SegmentInSecond(u, x, y, from + 1);
      }
    }
  }

  lemma {:induction false} FragmentsInSecond(u: CharClasses, x: string, y: string, from: nat)
    requires from <= |y|
    ensures FragmentsFrom(u, x + y, |x| + from) == FragmentsFrom(u, y, from)
    decreases |y| - from
  {
    if from < |y| {
      assert (x + y)[|x|+from] == y[from];
      if y[from] == '_' {
        FragmentsInSecond(u, x, y, from + 1);
      } else {
        var e := SegmentEnd(u, y, from);
        SegmentInSecond(u, x, y, from);
        FragmentsInSecond(u, x, y, e);
        assert (x + y)[|x|+from..|x|+e] == y[from..e];
      }
    }
  }

  lemma {:induction false} FragmentsInFirst(u: CharClasses, x: string, y: string, from: nat)
    requires from <= |x| && y != "" && x != "" && FirstKept(u, x, y) && CutBetween(u, x, y)
    ensures FragmentsFrom(u, x + y, from) == FragmentsFrom(u, x, from) + Fragments(u, y)
    decreases |x| - from
  {
    if from == |x| {
      FragmentsInSecond(u, x, y, 0);
    } else {
      assert (x + y)[from] == x[from];
      if x[from] == '_' {
        FragmentsInFirst(u, x, y, from + 1);
      } else {
        var e := SegmentEnd(u, x, from);
        SegmentInFirst(u, x, y, from);
        FragmentsInFirst(u, x, y, e);
        assert (x + y)[from..e] == x[from..e];
      }
    }
  }

  lemma CutThere(u: CharClasses, x: string, y: string)
    requires x != "" && y != "" && CutBetween(u, x, y)
    requires u.isLower(y[0]) ==> |x| < 2 || !(u.isUpper(x[|x|-2]) && u.isUpper(x[|x|-1]))
    ensures Fragments(u, x + y) == Fragments(u, x) + Fragments(u, y)
  {
    forall i | 0 < i < |x| ensures IsBreak(u, x + y, i) <==> IsBreak(u, x, i) {
      BreakInFirst(u, x, y, i);
    }
    FragmentsInFirst(u, x, y, 0);
  }

  /** A capital after a lower-case rune begins a fragment. */
  lemma CamelCut(u: CharClasses, x: string, y: string)
    requires KindsApart(u) && x != "" && y != "" && u.isLower(x[|x|-1]) && u.isUpper(y[0])
    ensures Fragments(u, x + y) == Fragments(u, x) + Fragments(u, y)
  {
    assert (x + y)[|x|-1] == x[|x|-1] && (x + y)[|x|] == y[0];
    CutThere(u, x, y);
  }

  /** So does a digit after another rune, and another rune after a digit. */
  lemma DigitCut(u: CharClasses, x: string, y: string)
    requires KindsApart(u) && x != "" && y != "" && u.isDigit(x[|x|-1]) != u.isDigit(y[0])
    ensures Fragments(u, x + y) == Fragments(u, x) + Fragments(u, y)
  {
    assert (x + y)[|x|-1] == x[|x|-1] && (x + y)[|x|] == y[0];
    CutThere(u, x, y);
  }

  /** And the last capital of several, when a lower-case rune follows it. */
  lemma AcronymCut(u: CharClasses, x: string, y: string)
    requires KindsApart(u) && x != "" && |y| > 1 && u.isUpper(x[|x|-1]) && u.isUpper(y[0]) && u.isLower(y[1])
    ensures Fragments(u, x + y) == Fragments(u, x) + Fragments(u, y)
  {
    assert (x + y)[|x|-1] == x[|x|-1] && (x + y)[|x|] == y[0] && (x + y)[|x|+1] == y[1];
    CutThere(u, x, y);
  }

  /** An underscore separates fragments and belongs to none. */
  lemma UnderscoreCut(u: CharClasses, x: string, y: string)
    requires KindsApart(u) && x != ""
    ensures Fragments(u, x + ("_" + y)) == Fragments(u, x) + Fragments(u, y)
  {
    CutThere(u, x, "_" + y);
    FragmentsInSecond(u, "_", y, 0);
    assert ("_" + y)[0] == '_';
  }

  /** Without any of these an identifier is one fragment. */
  lemma Uncut(u: CharClasses, x: string)
    requires x != "" && forall i :: 0 <= i < |x| ==> x[i] != '_'
    requires forall i :: 0 < i < |x| ==>
               && !(u.isLower(x[i-1]) && u.isUpper(x[i]))
               && u.isDigit(x[i-1]) == u.isDigit(x[i])
               && !(u.isUpper(x[i-1]) && u.isUpper(x[i]) && i + 1 < |x| && u.isLower(x[i+1]))
    ensures Fragments(u, x) == [x]
  {
    WholeSegment(u, x);
    assert x[0..|x|] == x && FragmentsFrom(u, x, |x|) == [];
  }

  lemma WholeSegment(u: CharClasses, x: string)
    requires x != "" && forall i :: 0 <= i < |x| ==> x[i] != '_'
    requires forall i :: 0 < i < |x| ==> !IsBreak(u, x, i)
    ensures SegmentEnd(u, x, 0) == |x|
  {}
}
