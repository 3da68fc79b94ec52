/** What the BM25 index stands for: a map from document to its bag of tokens, and the scores a scan of that map
    would give (internal/db/lexical/bm25.go, lines 1-169). */
module Bm25 {
  import opened Ranking

  /** How often each term occurs in a token list. */
  function Counts(tokens: seq<string>): map<string, nat> {
    if tokens == [] then map[]
    else
      var tf := Counts(tokens[..|tokens|-1]);
      var t := tokens[|tokens|-1];
      tf[t := (if t in tf then tf[t] else 0) + 1]
  }

  lemma {:induction false} CountsAreMultiplicities(tokens: seq<string>)
    ensures forall t :: t in Counts(tokens) <==> t in tokens
    ensures forall t :: t in Counts(tokens) ==> Counts(tokens)[t] == multiset(tokens)[t]
  {
    if tokens != [] {
      var n := |tokens| - 1;
      CountsAreMultiplicities(tokens[..n]);
      assert tokens == tokens[..n] + [tokens[n]];
      assert forall t :: t in tokens[..n] <==> t in multiset(tokens[..n]);
    }
  }

  /** A document as the index sees it: its number of tokens and the frequency of each of its terms. */
  datatype Bag = Bag(len: nat, tf: map<string, nat>)

  type Docs = map<string, Bag>

  function BagOf(tokens: seq<string>): Bag {
    Bag(|tokens|, Counts(tokens))
  }

  datatype Posting = Posting(docID: string, tf: nat)

  // ---------- sizes ----------

  /** The sum of all document lengths. */
  ghost function TotalLen(docs: Docs): nat {
    if docs == map[] then 0
    else
      var d :| d in docs;
      docs[d].len + TotalLen(docs - {d})
  }

  lemma {:induction false} TotalLenRemove(docs: Docs, d: string)
    requires d in docs
    ensures TotalLen(docs) == docs[d].len + TotalLen(docs - {d})
    decreases |docs|
  {
    var e :| e in docs && TotalLen(docs) == docs[e].len + TotalLen(docs - {e});
    if e != d {
      assert docs.Keys == (docs - {e}).Keys + {e};
      TotalLenRemove(docs - {e}, d);
      assert docs.Keys == (docs - {d}).Keys + {d};
      TotalLenRemove(docs - {d}, e);
      assert docs - {e} - {d} == docs - {d} - {e};
    }
  }

  /** A mean of `n` values that sum to `total`, 0 when there are none. */
  function Mean(total: int, n: int): real {
    if n == 0 then 0.0 else total as real / n as real
  }

  /** A mean is exact: times the number of values it is their sum. */
  lemma MeanTimes(total: int, n: int)
    requires n == 0 ==> total == 0
    ensures Mean(total, n) * n as real == total as real
  {}

  /** The average document length. */
  ghost function AverageLen(docs: Docs): real {
    Mean(TotalLen(docs), |docs|)
  }

  lemma MapSizeRemove<T>(docs: map<string, T>, d: string)
    requires d in docs
    ensures |docs| == |docs - {d}| + 1
  {
    assert docs.Keys == (docs - {d}).Keys + {d};
  }

  ghost predicate ProperBag(bag: Bag) {
    bag.len > 0 && forall t :: t in bag.tf ==> bag.tf[t] > 0
  }

  /** Every document of an index has a token. */
  ghost predicate NoEmptyDoc(docs: Docs) {
    forall d :: d in docs ==> ProperBag(docs[d])
  }

  lemma BagOfProper(tokens: seq<string>)
    requires tokens != []
    ensures ProperBag(BagOf(tokens))
  {
    CountsAreMultiplicities(tokens);
    assert forall t :: t in tokens <==> t in multiset(tokens);
  }

  // ---------- posting lists ----------

  ghost function PostingSet(docs: Docs, term: string): set<Posting> {
    set d | d in docs && term in docs[d].tf :: Posting(d, docs[d].tf[term])
  }

  lemma InPostingSet(docs: Docs, term: string, p: Posting)
    ensures p in PostingSet(docs, term) <==>
            p.docID in docs && term in docs[p.docID].tf && p.tf == docs[p.docID].tf[term]
  {}

  /** `posts` lists each document with `term` once, with its true frequency. */
  ghost predicate ListsPostings(posts: seq<Posting>, docs: Docs, term: string) {
    multiset(posts) == multiset(PostingSet(docs, term))
  }

  lemma PostingFacts(posts: seq<Posting>, docs: Docs, term: string)
    requires ListsPostings(posts, docs, term)
    ensures forall i :: 0 <= i < |posts| ==>
              posts[i].docID in docs && term in docs[posts[i].docID].tf && posts[i].tf == docs[posts[i].docID].tf[term]
    ensures forall i, j :: 0 <= i < j < |posts| ==> posts[i].docID != posts[j].docID
    ensures forall d :: d in docs && term in docs[d].tf ==> exists i :: 0 <= i < |posts| && posts[i].docID == d
    ensures |posts| == DocFreq(docs, term)
  {
    forall i | 0 <= i < |posts|
      ensures posts[i].docID in docs && term in docs[posts[i].docID].tf && posts[i].tf == docs[posts[i].docID].tf[term]
    {
      assert posts[i] in multiset(posts);
      InPostingSet(docs, term, posts[i]);
    }
    forall i, j | 0 <= i < j < |posts| ensures posts[i].docID != posts[j].docID {
      if posts[i] == posts[j] {
        TwiceInMultiset(posts, i, j);
        assert false;
      }
    }
    forall d | d in docs && term in docs[d].tf ensures exists i :: 0 <= i < |posts| && posts[i].docID == d {
      InPostingSet(docs, term, Posting(d, docs[d].tf[term]));
      assert Posting(d, docs[d].tf[term]) in multiset(posts);
    }
    assert |multiset(posts)| == |posts|;
    PostingSetSize(docs, term);
  }

  /** The number of documents a term occurs in. */
  ghost function DocFreq(docs: Docs, term: string): nat {
    |set d | d in docs && term in docs[d].tf|
  }

  lemma PostingSetAdd(docs: Docs, d: string, bag: Bag, term: string)
    requires d !in docs
    ensures PostingSet(docs[d := bag], term) ==
            PostingSet(docs, term) + (if term in bag.tf then {Posting(d, bag.tf[term])} else {})
    ensures forall n :: Posting(d, n) !in PostingSet(docs, term)
  {
    forall p ensures p in PostingSet(docs[d := bag], term) <==>
                     p in PostingSet(docs, term) || (term in bag.tf && p == Posting(d, bag.tf[term]))
    {
      InPostingSet(docs, term, p);
      InPostingSet(docs[d := bag], term, p);
    }
  }

  lemma {:induction false} PostingSetSize(docs: Docs, term: string)
    ensures |PostingSet(docs, term)| == DocFreq(docs, term)
    decreases |docs|
  {
    if docs != map[] {
      var d :| d in docs;
      var rest := docs - {d};
      MapSizeRemove(docs, d);
      PostingSetSize(rest, term);
      assert docs == rest[d := docs[d]];
      PostingSetAdd(rest, d, docs[d], term);
      DocFreqAdd(rest, d, docs[d], term);
    }
  }

  lemma DocFreqAdd(docs: Docs, d: string, bag: Bag, term: string)
    requires d !in docs
    ensures DocFreq(docs[d := bag], term) == DocFreq(docs, term) + (if term in bag.tf then 1 else 0)
  {
    var docs' := docs[d := bag];
    var after := set e | e in docs' && term in docs'[e].tf;
    var before := set e | e in docs && term in docs[e].tf;
    if term in bag.tf {
      assert after == before + {d};
    } else {
      assert after == before;
    }
  }

  // ---------- the representation ----------

  /** The fields of an index. */
  datatype Fields = Fields(postings: map<string, seq<Posting>>, docLen: map<string, nat>, docCount: int, avgLen: real)

  ghost function Lengths(docs: Docs): map<string, nat> {
    map d | d in docs :: docs[d].len
  }

  ghost predicate LengthsRepresent(f: Fields, docs: Docs) {
    && f.docLen == Lengths(docs)
    && f.docCount == |docs|
    && f.avgLen == AverageLen(docs)
  }

  ghost predicate PostingsRepresent(postings: map<string, seq<Posting>>, docs: Docs) {
    && (forall t :: t in postings <==> PostingSet(docs, t) != {})
    && (forall t :: t in postings ==> ListsPostings(postings[t], docs, t))
  }

  /** The index with these fields represents exactly `docs`. */
  ghost predicate Represents(f: Fields, docs: Docs) {
    NoEmptyDoc(docs) && LengthsRepresent(f, docs) && PostingsRepresent(f.postings, docs)
  }

  /** Equality of indexes up to the order inside posting lists. */
  ghost predicate SameUpToOrder(f: Fields, g: Fields) {
    && f.docLen == g.docLen && f.docCount == g.docCount && f.avgLen == g.avgLen
    && f.postings.Keys == g.postings.Keys
    && forall t :: t in f.postings ==> multiset(f.postings[t]) == multiset(g.postings[t])
  }

  /** A document map has only one index, up to posting order: an index forgets its history. */
  lemma HistoryIndependence(f: Fields, g: Fields, docs: Docs)
    requires Represents(f, docs) && Represents(g, docs)
    ensures SameUpToOrder(f, g)
  {
    forall d | d in docs ensures f.docLen[d] == g.docLen[d] {}
    assert f.docLen == g.docLen;
    assert f.postings.Keys == g.postings.Keys;
  }

  /** And an index represents at most one document map: the index loses nothing of it. */
  lemma RepresentsOne(f: Fields, docs: Docs, docs': Docs)
    requires Represents(f, docs) && Represents(f, docs')
    ensures docs == docs'
  {
    assert Lengths(docs).Keys == docs.Keys && Lengths(docs').Keys == docs'.Keys;
    forall d | d in docs ensures docs[d] == docs'[d] {
      assert Lengths(docs)[d] == docs[d].len && Lengths(docs')[d] == docs'[d].len;
      forall t
        ensures (t in docs[d].tf <==> t in docs'[d].tf) && (t in docs[d].tf ==> docs[d].tf[t] == docs'[d].tf[t])
      {
        SameFrequency(f, docs, docs', d, t);
        SameFrequency(f, docs', docs, d, t);
      }
      assert docs[d].tf == docs'[d].tf;
    }
  }

  lemma SameFrequency(f: Fields, docs: Docs, docs': Docs, d: string, t: string)
    requires Represents(f, docs) && Represents(f, docs') && d in docs && d in docs'
    ensures t in docs[d].tf ==> t in docs'[d].tf && docs[d].tf[t] == docs'[d].tf[t]
  {
    if t in docs[d].tf {
      var p := Posting(d, docs[d].tf[t]);
      InPostingSet(docs, t, p);
      assert p in multiset(f.postings[t]);
      InPostingSet(docs', t, p);
    }
  }

  // ---------- histories ----------

  datatype Op = AddOp(docID: string, tokens: seq<string>) | RemoveOp(docID: string)

  /** Add ignores a text without tokens, and then keeps what was indexed under that ID before. */
  ghost function AddDoc(docs: Docs, docID: string, tokens: seq<string>): Docs {
    if tokens == [] then docs else docs[docID := BagOf(tokens)]
  }

  ghost function Apply(docs: Docs, op: Op): Docs {
    match op
    case AddOp(d, tokens) => AddDoc(docs, d, tokens)
    case RemoveOp(d) => docs - {d}
  }

  ghost function Run(ops: seq<Op>): Docs {
    if ops == [] then map[] else Apply(Run(ops[..|ops|-1]), ops[|ops|-1])
  }

  /** `ops[i]` is the last operation that touches `d`, and it is an Add with tokens. */
  ghost predicate LastAdded(ops: seq<Op>, d: string, i: nat) {
    && i < |ops| && ops[i].AddOp? && ops[i].docID == d && ops[i].tokens != []
    && forall j :: i < j < |ops| && ops[j].docID == d ==> ops[j].AddOp? && ops[j].tokens == []
  }

  /** After any history a document is present exactly when its last effective operation was an Add, and it is
      present with the tokens of that Add. */
  lemma {:induction false} RunIsLastWrite(ops: seq<Op>, d: string)
    ensures d in Run(ops) <==> exists i: nat :: LastAdded(ops, d, i)
    ensures forall i: nat :: LastAdded(ops, d, i) ==> d in Run(ops) && Run(ops)[d] == BagOf(ops[i].tokens)
  {
    if |ops| > 0 {
      var n := |ops| - 1;
      var op := ops[n];
      var prior := ops[..n];
      RunIsLastWrite(prior, d);
      if op.docID == d && (op.RemoveOp? || op.tokens != []) {
        assert forall i: nat :: LastAdded(ops, d, i) ==> i == n;
        assert op.AddOp? ==> LastAdded(ops, d, n);
      } else {
        forall i: nat ensures LastAdded(ops, d, i) <==> LastAdded(prior, d, i) {
          if LastAdded(prior, d, i) {
            assert forall j :: i < j < n ==> prior[j] == ops[j];
          }
          if LastAdded(ops, d, i) {
            assert i != n;
          }
        }
      }
    }
  }

  // ---------- scores ----------

  /** bm25K1, bm25B and BM25Offset. */
  const K1: real := 1.2
  const B: real := 0.75
  const OFFSET: real := 0.5

  function IdfArgument(n: real, df: real): real
    requires df >= 0.0
  {
    (n - df + OFFSET) / (df + OFFSET) + 1.0
  }

  /** The saturation denominator of the term-frequency component. */
  function TfDenominator(tf: real, dl: real, avgdl: real): real
    requires avgdl != 0.0
  {
    tf + K1 * (1.0 - B + B * dl / avgdl)
  }

  lemma TfDenominatorPositive(tf: real, dl: real, avgdl: real)
    requires tf >= 0.0 && dl >= 0.0 && avgdl > 0.0
    ensures TfDenominator(tf, dl, avgdl) > tf
  {
    var q := B * dl / avgdl;
    assert q >= 0.0;
  }

  function TfNorm(tf: real, dl: real, avgdl: real): real
    requires tf >= 0.0 && dl >= 0.0 && avgdl > 0.0
  {
    TfDenominatorPositive(tf, dl, avgdl);
    tf * (K1 + 1.0) / TfDenominator(tf, dl, avgdl)
  }

  /** A term counts for something, and for less than k1 + 1 however often it occurs. */
  lemma TfNormBounds(tf: real, dl: real, avgdl: real)
    requires tf > 0.0 && dl >= 0.0 && avgdl > 0.0
    ensures 0.0 < TfNorm(tf, dl, avgdl) < K1 + 1.0
  {
    TfDenominatorPositive(tf, dl, avgdl);
  }

  lemma AverageLenPositive(docs: Docs)
    requires docs != map[] && NoEmptyDoc(docs)
    ensures AverageLen(docs) > 0.0
  {
    var d :| d in docs;
    TotalLenRemove(docs, d);
  }

  ghost function Idf(ln: real -> real, docs: Docs, term: string): real {
    ln(IdfArgument(|docs| as real, DocFreq(docs, term) as real))
  }

  /** What one query term adds to the score of a document, read off the document map. */
  ghost function Contribution(ln: real -> real, docs: Docs, term: string, d: string): real
    requires d in docs && NoEmptyDoc(docs)
  {
    AverageLenPositive(docs);
    if term in docs[d].tf then
      Idf(ln, docs, term) * TfNorm(docs[d].tf[term] as real, docs[d].len as real, AverageLen(docs))
    else 0.0
  }

  /** The BM25 score of a document by a scan of the document map, one summand per query term. */
  ghost function Score(ln: real -> real, docs: Docs, terms: seq<string>, d: string): real
    requires d in docs && NoEmptyDoc(docs)
  {
    if terms == [] then 0.0
    else Score(ln, docs, terms[..|terms|-1], d) + Contribution(ln, docs, terms[|terms|-1], d)
  }

  ghost predicate Matches(docs: Docs, terms: seq<string>, d: string)
    requires d in docs
  {
    exists i :: 0 <= i < |terms| && terms[i] in docs[d].tf
  }

  /** All documents that share a token with the query, with their scores. */
  ghost function Scored(ln: real -> real, docs: Docs, terms: seq<string>): map<string, real>
    requires NoEmptyDoc(docs)
  {
    map d | d in docs && Matches(docs, terms, d) :: Score(ln, docs, terms, d)
  }

  /** The natural logarithm as far as it matters here: positive above 1. */
  ghost predicate IsLog(ln: real -> real) {
    forall x :: x > 1.0 ==> ln(x) > 0.0
  }

  lemma DocFreqBounds(docs: Docs, term: string, d: string)
    requires d in docs && term in docs[d].tf
    ensures 1 <= DocFreq(docs, term) <= |docs|
  {
    var having := set e | e in docs && term in docs[e].tf;
    assert d in having && having <= docs.Keys;
    assert docs.Keys == having + (docs.Keys - having);
    assert |having + (docs.Keys - having)| == |having| + |docs.Keys - having|;
  }

  lemma ContributionPositive(ln: real -> real, docs: Docs, term: string, d: string)
    requires IsLog(ln) && d in docs && NoEmptyDoc(docs)
    ensures term in docs[d].tf ==> Contribution(ln, docs, term, d) > 0.0
    ensures term !in docs[d].tf ==> Contribution(ln, docs, term, d) == 0.0
  {
    if term in docs[d].tf {
      DocFreqBounds(docs, term, d);
      AverageLenPositive(docs);
      var n, df := |docs| as real, DocFreq(docs, term) as real;
      assert IdfArgument(n, df) > 1.0;
      TfNormBounds(docs[d].tf[term] as real, docs[d].len as real, AverageLen(docs));
    }
  }

  /** A score is positive exactly for the documents that share a token with the query. */
  lemma {:induction false} ScorePositive(ln: real -> real, docs: Docs, terms: seq<string>, d: string)
    requires IsLog(ln) && d in docs && NoEmptyDoc(docs)
    ensures Score(ln, docs, terms, d) >= 0.0
    ensures Score(ln, docs, terms, d) > 0.0 <==> Matches(docs, terms, d)
  {
    if terms != [] {
      var n := |terms| - 1;
      ScorePositive(ln, docs, terms[..n], d);
      ContributionPositive(ln, docs, terms[n], d);
      if Matches(docs, terms[..n], d) {
        var i :| 0 <= i < n && terms[..n][i] in docs[d].tf;
        assert terms[i] in docs[d].tf;
      }
      if Matches(docs, terms, d) && terms[n] !in docs[d].tf {
        var i :| 0 <= i < |terms| && terms[i] in docs[d].tf;
        assert terms[..n][i] in docs[d].tf;
      }
    }
  }
}
