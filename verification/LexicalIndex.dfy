/** The BM25 inverted index as the object the source updates in place (internal/db/lexical/bm25.go). */
module LexicalIndex {
  import opened Ranking
  import opened Identifiers
  import opened Bm25

  // ---------- compaction of one posting list ----------

  function Without(posts: seq<Posting>, docID: string): seq<Posting> {
    if posts == [] then []
    else
      var rest := Without(posts[..|posts|-1], docID);
      if posts[|posts|-1].docID != docID then rest + [posts[|posts|-1]] else rest
  }

  lemma {:induction false} WithoutMultiset(posts: seq<Posting>, docID: string)
    ensures forall p :: multiset(Without(posts, docID))[p] == if p.docID == docID then 0 else multiset(posts)[p]
  {
    if posts != [] {
      var n := |posts| - 1;
      WithoutMultiset(posts[..n], docID);
      assert posts == posts[..n] + [posts[n]];
    }
  }

  /** Removing a document's postings from a true posting list leaves the true list of the remaining documents. */
  lemma WithoutListsRest(posts: seq<Posting>, docs: Docs, term: string, docID: string)
    requires ListsPostings(posts, docs, term)
    ensures ListsPostings(Without(posts, docID), docs - {docID}, term)
  {
    WithoutMultiset(posts, docID);
    forall p ensures multiset(Without(posts, docID))[p] == multiset(PostingSet(docs - {docID}, term))[p] {
      InPostingSet(docs, term, p);
      InPostingSet(docs - {docID}, term, p);
    }
  }

  /** The filter of removeLocked (lines 97-102): the kept postings are written over the front of the same backing
      array that is being read; `kept` never overtakes the read position. */
  method Compact(posts: array<Posting>, docID: string) returns (kept: nat)
    modifies posts
    ensures kept <= posts.Length && posts[..kept] == Without(old(posts[..]), docID)
  {
    kept := 0;
    for i := 0 to posts.Length
      invariant kept <= i
      invariant posts[..kept] == Without(old(posts[..])[..i], docID)
      invariant posts[i..] == old(posts[..])[i..]
    {
      ghost var before := old(posts[..]);
      assert before[..i+1][..i] == before[..i];
      var p := posts[i];
      assert p == posts[i..][0] == before[i];
      if p.docID != docID {
        posts[kept] := p;
        kept := kept + 1;
      }
      assert posts[i+1..] == before[i+1..];
    }
    assert old(posts[..])[..posts.Length] == old(posts[..]);
  }

  // ---------- the effect on the fields ----------

  /** Lines 66-67: the mean after one more value `len`, `n` of them now. */
  method MeanWith(avg: real, n: int, len: nat, ghost total: nat) returns (r: real)
    requires n > 0 && avg == Mean(total, n - 1) && (n == 1 ==> total == 0)
    ensures r == Mean(total + len, n)
  {
    MeanTimes(total, n - 1);
    var totalLen := avg * (n - 1) as real;
    r := (totalLen + len as real) / n as real;
  }

  /** Lines 89-94: the mean after a value has gone, `n` of them left. */
  method MeanWithout(avg: real, n: int, oldLen: nat, ghost total: nat) returns (r: real)
    requires n >= 0 && avg == Mean(total, n + 1) && oldLen <= total
    ensures r == Mean(total - oldLen, n)
  {
    MeanTimes(total, n + 1);
    if n > 0 {
      var totalLen := avg * (n + 1) as real - oldLen as real;
      r := totalLen / n as real;
    } else {
      r := 0.0;
    }
  }

  /** The posting lists after lines 69-71: each counted term's list has grown by one posting. */
  ghost predicate Appended(before: map<string, seq<Posting>>, docID: string, tf: map<string, nat>,
                           todo: set<string>, postings: map<string, seq<Posting>>) {
    forall t :: if t in tf && t !in todo
                then t in postings && postings[t] == (if t in before then before[t] else []) + [Posting(docID, tf[t])]
                else (t in postings <==> t in before) && (t in before ==> postings[t] == before[t])
  }

  /** A list with the new document's posting at its end is the list of the larger map. */
  lemma GrownList(shorter: seq<Posting>, rest: Docs, docID: string, bag: Bag, t: string)
    requires ListsPostings(shorter, rest, t) && docID !in rest && t in bag.tf
    ensures ListsPostings(shorter + [Posting(docID, bag.tf[t])], rest[docID := bag], t)
    ensures PostingSet(rest[docID := bag], t) != {}
  {
    PostingSetAdd(rest, docID, bag, t);
    var p, prior := Posting(docID, bag.tf[t]), PostingSet(rest, t);
    assert p !in prior;
    assert PostingSet(rest[docID := bag], t) == prior + {p};
    assert multiset(prior + {p}) == multiset(prior) + multiset{p};
  }

  lemma SameList(rest: Docs, docID: string, bag: Bag, t: string)
    requires docID !in rest && t !in bag.tf
    ensures PostingSet(rest[docID := bag], t) == PostingSet(rest, t)
  {
    PostingSetAdd(rest, docID, bag, t);
  }

  lemma AppendedTerm(before: map<string, seq<Posting>>, rest: Docs, docID: string, bag: Bag,
                     postings: map<string, seq<Posting>>, t: string)
    requires PostingsRepresent(before, rest) && docID !in rest && Appended(before, docID, bag.tf, {}, postings)
    ensures t in postings <==> PostingSet(rest[docID := bag], t) != {}
    ensures t in postings ==> ListsPostings(postings[t], rest[docID := bag], t)
  {
    if t in bag.tf {
      var shorter := if t in before then before[t] else [];
      assert ListsPostings(shorter, rest, t);
      GrownList(shorter, rest, docID, bag, t);
    } else {
      SameList(rest, docID, bag, t);
    }
  }

  lemma AppendedRepresents(before: map<string, seq<Posting>>, rest: Docs, docID: string, bag: Bag,
                           postings: map<string, seq<Posting>>)
    requires PostingsRepresent(before, rest) && docID !in rest && Appended(before, docID, bag.tf, {}, postings)
    ensures PostingsRepresent(postings, rest[docID := bag])
  {
    forall t ensures t in postings <==> PostingSet(rest[docID := bag], t) != {}
             ensures t in postings ==> ListsPostings(postings[t], rest[docID := bag], t)
    {
      AppendedTerm(before, rest, docID, bag, postings, t);
    }
  }

  lemma TotalsAfterAdd(docs: Docs, d: string, bag: Bag)
    requires d !in docs
    ensures TotalLen(docs[d := bag]) == TotalLen(docs) + bag.len
    ensures |docs[d := bag]| == |docs| + 1
  {
    var docs' := docs[d := bag];
    assert docs' - {d} == docs;
    TotalLenRemove(docs', d);
    MapSizeRemove(docs', d);
  }

  lemma TotalsAfterRemove(docs: Docs, d: string)
    requires d in docs
    ensures TotalLen(docs - {d}) == TotalLen(docs) - docs[d].len
    ensures |docs - {d}| == |docs| - 1
  {
    TotalLenRemove(docs, d);
    MapSizeRemove(docs, d);
  }

  lemma LengthsAdd(docs: Docs, d: string, bag: Bag)
    ensures Lengths(docs[d := bag]) == Lengths(docs)[d := bag.len]
  {}

  lemma LengthsRemove(docs: Docs, d: string)
    ensures Lengths(docs - {d}) == Lengths(docs) - {d}
  {}

  lemma PutAfterRemove<T>(m: map<string, T>, k: string, v: T)
    ensures (m - {k})[k := v] == m[k := v]
  {}

  lemma RemoveAbsent<T>(m: map<string, T>, k: string)
    requires k !in m
    ensures m - {k} == m
  {}

  lemma NoDocsNoTokens(docs: Docs)
    ensures |docs| == 0 ==> TotalLen(docs) == 0
  {
    if |docs| == 0 {
      assert docs == map[];
    }
  }

  /** The posting lists after lines 96-108 have been done for all terms but `todo`. */
  ghost predicate Filtered(before: map<string, seq<Posting>>, docID: string, todo: set<string>,
                           postings: map<string, seq<Posting>>) {
    forall t ::
      if t !in before then t !in postings
      else if t in todo then t in postings && postings[t] == before[t]
      else if Without(before[t], docID) == [] then t !in postings
      else t in postings && postings[t] == Without(before[t], docID)
  }

  lemma FilteredStep(before: map<string, seq<Posting>>, docID: string, todo: set<string>,
                     postings: map<string, seq<Posting>>, term: string)
    requires Filtered(before, docID, todo, postings) && todo <= before.Keys && term in todo
    ensures term in postings && postings[term] == before[term]
    ensures var kept := Without(before[term], docID);
            Filtered(before, docID, todo - {term}, if kept == [] then postings - {term} else postings[term := kept])
  {}

  lemma FilteredRepresents(before: map<string, seq<Posting>>, all: Docs, docID: string,
                           postings: map<string, seq<Posting>>)
    requires PostingsRepresent(before, all) && Filtered(before, docID, {}, postings)
    ensures PostingsRepresent(postings, all - {docID})
  {
    var docs := all - {docID};
    forall t ensures t in postings <==> PostingSet(docs, t) != {}
             ensures t in postings ==> ListsPostings(postings[t], docs, t)
    {
      if t in before {
        WithoutListsRest(before[t], all, t, docID);
        EmptyListsEmpty(Without(before[t], docID), docs, t);
      } else {
        forall p ensures p !in PostingSet(docs, t) {
          InPostingSet(docs, t, p);
          InPostingSet(all, t, p);
        }
      }
    }
  }

  class Index {
    const u: CharClasses
    var postings: map<string, seq<Posting>>
    var docLen: map<string, nat>
    var docCount: int
    var avgLen: real
    /** The documents the index stands for. */
    ghost var docs: Docs

    ghost function State(): Fields
      reads this
    {
      Fields(postings, docLen, docCount, avgLen)
    }

    ghost predicate Valid()
      reads this
    {
      Represents(State(), docs)
    }

    constructor (u: CharClasses)
      ensures Valid() && docs == map[] && this.u == u
    {
      this.u := u;
      postings, docLen, docCount, avgLen := map[], map[], 0, 0.0;
      docs := map[];
    }

    /** Lines 51-54. */
    method CountTerms(tokens: seq<string>) returns (tf: map<string, nat>)
      ensures tf == Counts(tokens)
    {
      tf := map[];
      for i := 0 to |tokens|
        invariant tf == Counts(tokens[..i])
      {
        var t := tokens[i];
        assert tokens[..i+1][..i] == tokens[..i];
        tf := tf[t := (if t in tf then tf[t] else 0) + 1];
      }
      assert tokens[..|tokens|] == tokens;
    }

    method Add(docID: string, text: string)
      requires Valid()
      modifies this
      ensures Valid()
      ensures docs == AddDoc(old(docs), docID, Tokens(u, text))
    {
      var tokens := Tokenize(u, text);
      if |tokens| == 0 {
        return;
      }
      var tf := CountTerms(tokens);
      RemoveLocked(docID);
      BagOfProper(tokens);
      PutAfterRemove(old(docs), docID, BagOf(tokens));
      InsertFresh(docID, |tokens|, tf);
    }

    /** Lines 62-71: the document is not in the index any more. */
    method InsertFresh(docID: string, len: nat, tf: map<string, nat>)
      requires Valid() && docID !in docs && ProperBag(Bag(len, tf))
      modifies this
      ensures Valid()
      ensures docs == old(docs)[docID := Bag(len, tf)]
    {
      AddLength(docID, Bag(len, tf), docs);
      AppendPostings(docID, tf, docs, Bag(len, tf));
      docs := docs[docID := Bag(len, tf)];
    }

    /** Lines 62-67. */
    method AddLength(docID: string, bag: Bag, ghost rest: Docs)
      requires docID !in rest && LengthsRepresent(State(), rest)
      modifies this`docLen, this`docCount, this`avgLen
      ensures LengthsRepresent(State(), rest[docID := bag])
    {
      TotalsAfterAdd(rest, docID, bag);
      LengthsAdd(rest, docID, bag);
      NoDocsNoTokens(rest);
      docLen := docLen[docID := bag.len];
      docCount := docCount + 1;
      avgLen := MeanWith(avgLen, docCount, bag.len, TotalLen(rest));
    }

    /** Lines 69-71: one posting per counted term, in any order of the terms. */
    method AppendPostings(docID: string, tf: map<string, nat>, ghost rest: Docs, ghost bag: Bag)
      requires docID !in rest && PostingsRepresent(postings, rest) && tf == bag.tf
      modifies this`postings
      ensures PostingsRepresent(postings, rest[docID := bag])
    {
      ghost var before := postings;
      var todo := tf.Keys;
      while todo != {}
        invariant todo <= tf.Keys
        invariant Appended(before, docID, tf, todo, postings)
      {
        var term :| term in todo;
        var posts := if term in postings then postings[term] else [];
        postings := postings[term := posts + [Posting(docID, tf[term])]];
        todo := todo - {term};
      }
      AppendedRepresents(before, rest, docID, bag, postings);
    }

    method Remove(docID: string)
      requires Valid()
      modifies this
      ensures Valid()
      ensures docs == old(docs) - {docID}
    {
      RemoveLocked(docID);
    }

    method RemoveLocked(docID: string)
      requires Valid()
      modifies this
      ensures Valid()
      ensures docs == old(docs) - {docID}
    {
      if docID !in docLen {
        RemoveAbsent(docs, docID);
        return;
      }
      DropLength(docID, docs);
      FilterPostings(docID, docs);
      docs := docs - {docID};
    }

    /** Lines 85-94. */
    method DropLength(docID: string, ghost all: Docs)
      requires docID in all && LengthsRepresent(State(), all)
      modifies this`docLen, this`docCount, this`avgLen
      ensures LengthsRepresent(State(), all - {docID})
    {
      TotalsAfterRemove(all, docID);
      LengthsRemove(all, docID);
      var oldLen := docLen[docID];
      docLen := docLen - {docID};
      docCount := docCount - 1;
      avgLen := MeanWithout(avgLen, docCount, oldLen, TotalLen(all));
    }

    /** Lines 96-108: every posting list is compacted, and dropped when nothing is left of it. */
    method FilterPostings(docID: string, ghost all: Docs)
      requires PostingsRepresent(postings, all)
      modifies this`postings
      ensures PostingsRepresent(postings, all - {docID})
    {
      ghost var before := postings;
      var todo := postings.Keys;
      while todo != {}
        invariant todo <= before.Keys
        invariant Filtered(before, docID, todo, postings)
      {
        var term :| term in todo;
        FilteredStep(before, docID, todo, postings, term);
        var posts := WithoutDocument(postings[term], docID);
        if |posts| == 0 {
          postings := postings - {term};
        } else {
          postings := postings[term := posts];
        }
        todo := todo - {term};
      }
      FilteredRepresents(before, all, docID, postings);
    }

    /** Lines 97-102 for one list. */
    static method WithoutDocument(list: seq<Posting>, docID: string) returns (kept: seq<Posting>)
      ensures kept == Without(list, docID)
    {
      var posts := new Posting[|list|](i requires 0 <= i < |list| => list[i]);
      assert posts[..] == list;
      var n := Compact(posts, docID);
      kept := posts[..n];
    }

    method Size() returns (n: int)
      requires Valid()
      ensures n == |docs|
    {
      n := docCount;
    }

    // ---------- search ----------

    /** The score a map of partial scores gives to a document: 0 where there is no entry yet. */
    static function Entry(scores: map<string, real>, d: string): real {
      if d in scores then scores[d] else 0.0
    }

    method Search(ln: real -> real, query: string, topK: int) returns (results: seq<Result>)
      requires Valid()
      ensures NoEmptyDoc(docs)
      ensures IsTopK(results, Scored(ln, docs, Tokens(u, query)), if topK <= 0 then 0 else topK)
    {
      if topK <= 0 {
        return [];
      }
      var terms := Tokenize(u, query);
      if |terms| == 0 {
        assert Scored(ln, docs, Tokens(u, query)) == map[];
        return [];
      }
      if docCount == 0 {
        assert docs == map[];
        assert Scored(ln, docs, Tokens(u, query)) == map[];
        return [];
      }
      var scores := ScoreTerms(ln, terms);
      var found := Collect(scores);
      results := Best(found, topK, scores);
    }

    /** Lines 139-155. */
    method ScoreTerms(ln: real -> real, terms: seq<string>) returns (scores: map<string, real>)
      requires Valid() && docs != map[]
      ensures NoEmptyDoc(docs) && scores == Scored(ln, docs, terms)
    {
      scores := map[];
      for i := 0 to |terms|
        invariant ScoresUpTo(ln, docs, terms[..i], scores)
      {
        scores := ScoreTerm(ln, terms[..i], terms[i], scores);
        assert terms[..i+1] == terms[..i] + [terms[i]];
      }
      assert terms[..|terms|] == terms;
    }

    /** Lines 163-168, over the listed scores. */
    static method Best(found: seq<Result>, topK: nat, ghost scores: map<string, real>) returns (results: seq<Result>)
      requires Lists(found, scores)
      ensures IsTopK(results, scores, topK)
    {
      var k := if topK > |found| then |found| else topK;
      var a := new Result[|found|](i requires 0 <= i < |found| => found[i]);
      assert a[..] == found;
      ListsFacts(found, scores);
      PartialSort(a, k);
      TopKOfSorted(a[..], scores, topK, k);
      results := a[..k];
    }

    /** Lines 139-155 for one query term. */
    method ScoreTerm(ln: real -> real, ghost done: seq<string>, term: string, scores0: map<string, real>)
      returns (scores: map<string, real>)
      requires Valid() && docs != map[] && ScoresUpTo(ln, docs, done, scores0)
      ensures ScoresUpTo(ln, docs, done + [term], scores)
    {
      scores := scores0;
      assert (done + [term])[..|done|] == done;
      if term !in postings {
        NoPostingNoContribution(ln, docs, done, term, scores);
        return;
      }
      scores := ScorePostings(ln, term, postings[term], scores0);
      assert NoEmptyDoc(docs);
      TermScored(ln, docs, done, term, postings[term], scores0, scores);
    }

    /** Lines 148-154. */
    method ScorePostings(ln: real -> real, term: string, posts: seq<Posting>, scores0: map<string, real>)
      returns (scores: map<string, real>)
      requires Valid() && ListsPostings(posts, docs, term) && scores0.Keys <= docs.Keys
      ensures TermAdded(ln, docs, term, posts, |posts|, scores0, scores)
    {
      scores := scores0;
      for j := 0 to |posts|
        invariant TermAdded(ln, docs, term, posts, j, scores0, scores)
      {
        scores := AddPosting(ln, term, posts, j, scores0, scores);
      }
    }

    /** Lines 149-153. */
    method AddPosting(ln: real -> real, term: string, posts: seq<Posting>, j: nat, ghost scores0: map<string, real>,
                      before: map<string, real>) returns (scores: map<string, real>)
      requires Valid() && ListsPostings(posts, docs, term)
      requires j < |posts| && TermAdded(ln, docs, term, posts, j, scores0, before)
      ensures TermAdded(ln, docs, term, posts, j + 1, scores0, scores)
    {
      PostingFacts(posts, docs, term);
      var p := posts[j];
      var s := PostingScore(ln, term, p, |posts|);
      TermAddedStep(ln, docs, term, posts, j, scores0, before, s);
      scores := before[p.docID := Entry(before, p.docID) + s];
    }

    /** Lines 136-137, 145-146 and 149-153: what one posting adds to its document's score. */
    method PostingScore(ln: real -> real, term: string, p: Posting, df: nat) returns (s: real)
      requires Valid() && p.docID in docs && term in docs[p.docID].tf && p.tf == docs[p.docID].tf[term]
      requires df == DocFreq(docs, term)
      ensures NoEmptyDoc(docs) && s == Contribution(ln, docs, term, p.docID)
    {
      var n := docCount as real;
      var avgdl := avgLen;
      AverageLenPositive(docs);
      var idf := ln((n - df as real + OFFSET) / (df as real + OFFSET) + 1.0);
      var dl := docLen[p.docID] as real;
      var tf := p.tf as real;
      TfDenominatorPositive(tf, dl, avgdl);
      var tfNorm := tf * (K1 + 1.0) / (tf + K1 * (1.0 - B + B * dl / avgdl));
      s := idf * tfNorm;
    }

    /** Lines 158-161: the entries of the score map, in some order. */
    method Collect(scores: map<string, real>) returns (results: seq<Result>)
      ensures Lists(results, scores)
    {
      results := [];
      var todo := scores.Keys;
      while todo != {}
        invariant todo <= scores.Keys
        invariant forall r :: multiset(results)[r] == if r in ResultSet(scores) && r.docID !in todo then 1 else 0
      {
        var id :| id in todo;
        forall r ensures r in ResultSet(scores) <==> r.docID in scores && r.score == scores[r.docID] {
          InResultSet(scores, r);
        }
        results := results + [Result(id, scores[id])];
        todo := todo - {id};
      }
    }
  }

  lemma EmptyListsEmpty(posts: seq<Posting>, docs: Docs, term: string)
    requires ListsPostings(posts, docs, term)
    ensures posts == [] <==> PostingSet(docs, term) == {}
  {
    assert |posts| == |multiset(posts)|;
    if PostingSet(docs, term) != {} {
      var p :| p in PostingSet(docs, term);
      assert p in multiset(posts);
    }
  }

  /** The partial scores after a prefix of the query terms. */
  ghost predicate ScoresUpTo(ln: real -> real, docs: Docs, done: seq<string>, scores: map<string, real>) {
    NoEmptyDoc(docs) && scores == Scored(ln, docs, done)
  }

  lemma MatchesSnoc(docs: Docs, done: seq<string>, term: string, d: string)
    requires d in docs
    ensures Matches(docs, done + [term], d) <==> Matches(docs, done, d) || term in docs[d].tf
  {
    var all := done + [term];
    if term in docs[d].tf {
      assert all[|done|] in docs[d].tf;
    }
    if Matches(docs, done, d) {
      var i :| 0 <= i < |done| && done[i] in docs[d].tf;
      assert all[i] in docs[d].tf;
    }
  }

  lemma {:induction false} NoMatchNoScore(ln: real -> real, docs: Docs, terms: seq<string>, d: string)
    requires d in docs && NoEmptyDoc(docs) && !Matches(docs, terms, d)
    ensures Score(ln, docs, terms, d) == 0.0
  {
    if terms != [] {
      var n := |terms| - 1;
      assert terms == terms[..n] + [terms[n]];
      MatchesSnoc(docs, terms[..n], terms[n], d);
      NoMatchNoScore(ln, docs, terms[..n], d);
    }
  }

  lemma NoPostingNoContribution(ln: real -> real, docs: Docs, done: seq<string>, term: string,
                                scores: map<string, real>)
    requires ScoresUpTo(ln, docs, done, scores) && PostingSet(docs, term) == {}
    ensures ScoresUpTo(ln, docs, done + [term], scores)
  {
    forall d | d in docs ensures term !in docs[d].tf {
      if term in docs[d].tf {
        InPostingSet(docs, term, Posting(d, docs[d].tf[term]));
      }
    }
    forall d | d in docs
      ensures Matches(docs, done + [term], d) <==> Matches(docs, done, d)
      ensures Score(ln, docs, done + [term], d) == Score(ln, docs, done, d)
    {
      MatchesSnoc(docs, done, term, d);
      assert (done + [term])[..|done|] == done;
    }
  }

  ghost predicate HasPosting(posts: seq<Posting>, n: nat, d: string) {
    exists i :: 0 <= i < n && i < |posts| && posts[i].docID == d
  }

  /** A document's entry after its posting, if it has one, has been scored. */
  ghost predicate EntryAfter(ln: real -> real, docs: Docs, term: string, has: bool, d: string,
                             scores0: map<string, real>, scores: map<string, real>)
    requires NoEmptyDoc(docs) && d in docs
  {
    && (d in scores <==> d in scores0 || has)
    && (d in scores ==> scores[d] == Index.Entry(scores0, d) + if has then Contribution(ln, docs, term, d) else 0.0)
  }

  /** The score map after the first `n` postings of a term. */
  ghost predicate TermAdded(ln: real -> real, docs: Docs, term: string, posts: seq<Posting>, n: nat,
                            scores0: map<string, real>, scores: map<string, real>)
  {
    && NoEmptyDoc(docs)
    && scores.Keys <= docs.Keys
    && forall d :: d in docs ==> EntryAfter(ln, docs, term, HasPosting(posts, n, d), d, scores0, scores)
  }

  lemma TermAddedStep(ln: real -> real, docs: Docs, term: string, posts: seq<Posting>, n: nat,
                      scores0: map<string, real>, scores: map<string, real>, s: real)
    requires n < |posts| && TermAdded(ln, docs, term, posts, n, scores0, scores)
    requires posts[n].docID in docs && forall i :: 0 <= i < n ==> posts[i].docID != posts[n].docID
    requires s == Contribution(ln, docs, term, posts[n].docID)
    ensures var e := posts[n].docID;
            TermAdded(ln, docs, term, posts, n + 1, scores0, scores[e := Index.Entry(scores, e) + s])
  {
    var e := posts[n].docID;
    forall d ensures HasPosting(posts, n + 1, d) <==> HasPosting(posts, n, d) || d == e {}
  }

  /** Folding a term's posting list into the scores gives the scores of the longer query. */
  lemma TermScored(ln: real -> real, docs: Docs, done: seq<string>, term: string, posts: seq<Posting>,
                   scores0: map<string, real>, scores: map<string, real>)
    requires ScoresUpTo(ln, docs, done, scores0) && ListsPostings(posts, docs, term)
    requires TermAdded(ln, docs, term, posts, |posts|, scores0, scores)
    ensures ScoresUpTo(ln, docs, done + [term], scores)
  {
    var want := Scored(ln, docs, done + [term]);
    forall d ensures d in scores <==> d in want
             ensures d in scores ==> scores[d] == want[d]
    {
      if d in docs {
        DocumentScored(ln, docs, done, term, posts, scores0, scores, d);
      }
    }
    assert scores == want;
  }

  lemma DocumentScored(ln: real -> real, docs: Docs, done: seq<string>, term: string, posts: seq<Posting>,
                       scores0: map<string, real>, scores: map<string, real>, d: string)
    requires ScoresUpTo(ln, docs, done, scores0) && ListsPostings(posts, docs, term) && d in docs
    requires EntryAfter(ln, docs, term, HasPosting(posts, |posts|, d), d, scores0, scores)
    ensures d in scores <==> Matches(docs, done + [term], d)
    ensures d in scores ==> scores[d] == Score(ln, docs, done + [term], d)
  {
    PostingFacts(posts, docs, term);
    assert HasPosting(posts, |posts|, d) <==> term in docs[d].tf;
    MatchesSnoc(docs, done, term, d);
    assert (done + [term])[..|done|] == done;
    if !Matches(docs, done, d) {
      NoMatchNoScore(ln, docs, done, d);
    }
  }

  /** Every fragment of every identifier of an indexed text is a term under which the document is posted, with the
      number of times that term occurs among the text's tokens. */
  lemma FragmentIsPosted(u: CharClasses, f: Fields, docs: Docs, docID: string, text: string, w: string,
                         fragment: string)
    requires w in Words(u, text) && fragment in Fragments(u, w)
    requires Represents(f, AddDoc(docs, docID, Tokens(u, text)))
    ensures Lower(u, fragment) in f.postings
    ensures exists i :: 0 <= i < |f.postings[Lower(u, fragment)]| &&
              f.postings[Lower(u, fragment)][i] == Posting(docID, multiset(Tokens(u, text))[Lower(u, fragment)])
  {
    var term, tokens := Lower(u, fragment), Tokens(u, text);
    EveryFragmentIsAToken(u, text, w, fragment);
    CountsAreMultiplicities(tokens);
    var after := AddDoc(docs, docID, tokens);
    assert after[docID] == BagOf(tokens);
    InPostingSet(after, term, Posting(docID, after[docID].tf[term]));
    PostingFacts(f.postings[term], after, term);
  }
}
