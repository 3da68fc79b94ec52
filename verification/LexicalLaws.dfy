/** How a BM25 score depends on the documents (internal/db/lexical/bm25.go, lines 135-155), said of the document map
    alone: of rarity, repetition and length, and what a query of several terms adds up to. */
module LexicalLaws {
  import opened Bm25

  /** The natural logarithm as far as order matters. */
  ghost predicate Increasing(ln: real -> real) {
    forall x, y :: 0.0 < x < y ==> ln(x) < ln(y)
  }

  ghost function TermScore(ln: real -> real, docs: Docs, term: string, d: string): real
    requires d in docs && NoEmptyDoc(docs)
  {
    Score(ln, docs, [term], d)
  }

  // ---------- the numbers ----------

  /** The document frequency enters as a quotient. */
  lemma IdfArgumentIs(n: real, df: real)
    requires df >= 0.0
    ensures IdfArgument(n, df) == (n + 1.0) / (df + 0.5)
  {
    OneMore(n - df + 0.5, df + 0.5);
  }

  lemma OneMore(x: real, y: real)
    requires y > 0.0
    ensures x / y + 1.0 == (x + y) / y
  {
    assert y / y == 1.0;
    assert (x + y) / y == x / y + y / y;
  }

  lemma QuotientFalls(a: real, x: real, y: real)
    requires a > 0.0 && 0.0 < x < y
    ensures a / y < a / x
  {
    assert a / x - a / y == a * (y - x) / (x * y);
  }

  lemma QuotientGrows(x: real, y: real, b: real)
    requires b > 0.0 && x < y
    ensures x / b < y / b
  {
    assert y / b - x / b == (y - x) / b;
  }

  lemma ProductGrows(k: real, a: real, b: real)
    requires k > 0.0 && a < b
    ensures k * a < k * b
  {}

  /** Fewer documents, larger argument. */
  lemma RarerArgument(n: real, a: real, b: real)
    requires n >= 0.0 && 0.0 <= a < b <= n
    ensures IdfArgument(n, a) > IdfArgument(n, b) > 1.0
  {
    IdfArgumentIs(n, a);
    IdfArgumentIs(n, b);
    QuotientFalls(n + 1.0, a + 0.5, b + 0.5);
    QuotientFalls(n + 1.0, b + 0.5, n + 1.0);
    assert (n + 1.0) / (n + 1.0) == 1.0;
  }

  lemma TfNormIs(tf: real, dl: real, avgdl: real)
    requires tf >= 0.0 && dl >= 0.0 && avgdl > 0.0
    ensures tf + 0.3 + 0.9 * (dl / avgdl) > 0.0
    ensures TfNorm(tf, dl, avgdl) == 2.2 * tf / (tf + 0.3 + 0.9 * (dl / avgdl))
  {
    TfDenominatorPositive(tf, dl, avgdl);
    assert B * dl / avgdl == B * (dl / avgdl);
  }

  /** More occurrences, larger factor. */
  lemma TfNormGrows(a: real, b: real, dl: real, avgdl: real)
    requires 0.0 < a < b && dl >= 0.0 && avgdl > 0.0
    ensures TfNorm(a, dl, avgdl) < TfNorm(b, dl, avgdl)
  {
    TfNormIs(a, dl, avgdl);
    TfNormIs(b, dl, avgdl);
    Saturates(a, b, 0.3 + 0.9 * (dl / avgdl));
  }

  lemma Saturates(a: real, b: real, c: real)
    requires 0.0 < a < b && c > 0.0
    ensures 2.2 * a / (a + c) < 2.2 * b / (b + c)
  {
    assert 2.2 * b / (b + c) - 2.2 * a / (a + c) == 2.2 * c * (b - a) / ((a + c) * (b + c));
  }

  /** A longer document, a smaller factor. */
  lemma TfNormFalls(tf: real, a: real, b: real, avgdl: real)
    requires tf > 0.0 && 0.0 <= a < b && avgdl > 0.0
    ensures TfNorm(tf, a, avgdl) > TfNorm(tf, b, avgdl)
  {
    TfNormIs(tf, a, avgdl);
    TfNormIs(tf, b, avgdl);
    QuotientGrows(a, b, avgdl);
    QuotientFalls(2.2 * tf, tf + 0.3 + 0.9 * (a / avgdl), tf + 0.3 + 0.9 * (b / avgdl));
  }

  // ---------- one term ----------

  lemma TermScoreIs(ln: real -> real, docs: Docs, term: string, d: string)
    requires d in docs && NoEmptyDoc(docs) && term in docs[d].tf
    ensures AverageLen(docs) > 0.0
    ensures TermScore(ln, docs, term, d) ==
            Idf(ln, docs, term) * TfNorm(docs[d].tf[term] as real, docs[d].len as real, AverageLen(docs))
  {
    AverageLenPositive(docs);
    assert [term][..0] == [];
    assert Score(ln, docs, [], d) == 0.0;
  }

  /** The document frequency of a term a document has is positive and at most the number of documents. */
  lemma FrequencyRange(docs: Docs, term: string, d: string)
    requires d in docs && term in docs[d].tf
    ensures 1.0 <= DocFreq(docs, term) as real <= |docs| as real
  {
    DocFreqBounds(docs, term, d);
  }

  lemma IdfPositive(ln: real -> real, docs: Docs, term: string, d: string)
    requires IsLog(ln) && d in docs && term in docs[d].tf
    ensures Idf(ln, docs, term) > 0.0
  {
    FrequencyRange(docs, term, d);
    RarerArgument(|docs| as real, DocFreq(docs, term) as real - 0.5, DocFreq(docs, term) as real);
  }

  /** The whole score of a term by the numbers of the document map. */
  lemma TermScoreFormula(ln: real -> real, docs: Docs, term: string, d: string)
    requires d in docs && NoEmptyDoc(docs) && term in docs[d].tf
    ensures TotalLen(docs) > 0
    ensures var n, df, tf := |docs| as real, DocFreq(docs, term) as real, docs[d].tf[term] as real;
            var relative := docs[d].len as real / (TotalLen(docs) as real / n);
            && tf + 0.3 + 0.9 * relative > 0.0
            && TermScore(ln, docs, term, d) == ln((n + 1.0) / (df + 0.5)) * (2.2 * tf / (tf + 0.3 + 0.9 * relative))
  {
    TermScoreIs(ln, docs, term, d);
    IdfArgumentIs(|docs| as real, DocFreq(docs, term) as real);
    TfNormIs(docs[d].tf[term] as real, docs[d].len as real, AverageLen(docs));
  }

  /** Of two terms that a document has equally often, the one in fewer documents scores strictly more. */
  lemma RarerTermScoresMore(ln: real -> real, docs: Docs, rare: string, common: string, d: string)
    requires Increasing(ln) && d in docs && NoEmptyDoc(docs) && rare in docs[d].tf && common in docs[d].tf
    requires docs[d].tf[rare] == docs[d].tf[common] && DocFreq(docs, rare) < DocFreq(docs, common)
    ensures TermScore(ln, docs, rare, d) > TermScore(ln, docs, common, d)
  {
    RarerAcross(ln, docs, rare, common, d, d);
  }

  /** So it does in another document of the same length. */
  lemma RarerAcross(ln: real -> real, docs: Docs, rare: string, common: string, d: string, e: string)
    requires Increasing(ln) && d in docs && e in docs && NoEmptyDoc(docs)
    requires rare in docs[d].tf && common in docs[e].tf && docs[d].len == docs[e].len
    requires docs[d].tf[rare] == docs[e].tf[common] && DocFreq(docs, rare) < DocFreq(docs, common)
    ensures TermScore(ln, docs, rare, d) > TermScore(ln, docs, common, e)
  {
    TermScoreIs(ln, docs, rare, d);
    TermScoreIs(ln, docs, common, e);
    FrequencyRange(docs, rare, d);
    FrequencyRange(docs, common, e);
    RarerArgument(|docs| as real, DocFreq(docs, rare) as real, DocFreq(docs, common) as real);
    assert docs[d].tf[rare] > 0;
    var factor := TfNorm(docs[d].tf[rare] as real, docs[d].len as real, AverageLen(docs));
    TfNormBounds(docs[d].tf[rare] as real, docs[d].len as real, AverageLen(docs));
    ProductGrows(factor, Idf(ln, docs, common), Idf(ln, docs, rare));
  }

  /** Of two documents of equal length, the one with more occurrences scores strictly more. */
  lemma MoreOccurrencesScoreMore(ln: real -> real, docs: Docs, term: string, d: string, e: string)
    requires IsLog(ln) && d in docs && e in docs && NoEmptyDoc(docs) && term in docs[d].tf && term in docs[e].tf
    requires docs[d].len == docs[e].len && docs[d].tf[term] > docs[e].tf[term]
    ensures TermScore(ln, docs, term, d) > TermScore(ln, docs, term, e)
  {
    TermScoreIs(ln, docs, term, d);
    TermScoreIs(ln, docs, term, e);
    IdfPositive(ln, docs, term, d);
    var avg, len := AverageLen(docs), docs[d].len as real;
    assert docs[e].tf[term] > 0;
    TfNormGrows(docs[e].tf[term] as real, docs[d].tf[term] as real, len, avg);
    ProductGrows(Idf(ln, docs, term), TfNorm(docs[e].tf[term] as real, len, avg),
                 TfNorm(docs[d].tf[term] as real, len, avg));
  }

  /** Of two documents with equally many occurrences, the shorter one scores strictly more. */
  lemma ShorterDocumentScoresMore(ln: real -> real, docs: Docs, term: string, d: string, e: string)
    requires IsLog(ln) && d in docs && e in docs && NoEmptyDoc(docs) && term in docs[d].tf && term in docs[e].tf
    requires docs[d].tf[term] == docs[e].tf[term] && docs[d].len < docs[e].len
    ensures TermScore(ln, docs, term, d) > TermScore(ln, docs, term, e)
  {
    TermScoreIs(ln, docs, term, d);
    TermScoreIs(ln, docs, term, e);
    IdfPositive(ln, docs, term, d);
    var avg, tf := AverageLen(docs), docs[d].tf[term] as real;
    assert docs[d].tf[term] > 0;
    TfNormFalls(tf, docs[d].len as real, docs[e].len as real, avg);
    ProductGrows(Idf(ln, docs, term), TfNorm(tf, docs[e].len as real, avg), TfNorm(tf, docs[d].len as real, avg));
  }

  // ---------- several terms ----------

  /** A query scores what its parts score together. */
  lemma {:induction false} ScoreConcat(ln: real -> real, docs: Docs, a: seq<string>, b: seq<string>, d: string)
    requires d in docs && NoEmptyDoc(docs)
    ensures Score(ln, docs, a + b, d) == Score(ln, docs, a, d) + Score(ln, docs, b, d)
  {
    if b == [] {
      assert a + b == a;
    } else {
      var n := |b| - 1;
      assert (a + b)[..|a + b|-1] == a + b[..n] && (a + b)[|a + b|-1] == b[n];
      ScoreConcat(ln, docs, a, b[..n], d);
    }
  }

  /** So one more term, wherever it stands, adds its own score. */
  lemma ScoreOfMore(ln: real -> real, docs: Docs, a: seq<string>, term: string, b: seq<string>, d: string)
    requires d in docs && NoEmptyDoc(docs)
    ensures Score(ln, docs, a + [term] + b, d) == Score(ln, docs, a + b, d) + TermScore(ln, docs, term, d)
  {
    ScoreConcat(ln, docs, a + [term], b, d);
    ScoreConcat(ln, docs, a, [term], d);
    ScoreConcat(ln, docs, a, b, d);
  }
}
