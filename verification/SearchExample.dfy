/** Every lexical search has an outcome (internal/db/store.go, lines 189-283), and a collection on which the rarer of
    two words decides it. */
module SearchExample {
  import opened Bm25
  import opened FieldLaws
  import opened Identifiers
  import opened LexicalLaws
  import opened LexicalQuery
  import opened Ranking
  import opened SearchLimits
  import opened SearchModel
  import opened StoreModel
  import opened TokenLaws

  // ---------- outcomes exist ----------

  lemma {:induction false} SortedExists<T>(s: seq<T>, key: T -> real) returns (r: seq<T>)
    ensures Permutation(r, s) && DescendingBy(r, key)
  {
    if s == [] {
      r := [];
    } else {
      var n := |s| - 1;
      var rest := SortedExists(s[..n], key);
      r := InsertedExists(rest, s[n], key);
      assert s == s[..n] + [s[n]];
    }
  }

  lemma {:induction false} InsertedExists<T>(s: seq<T>, x: T, key: T -> real) returns (r: seq<T>)
    requires DescendingBy(s, key)
    ensures DescendingBy(r, key) && multiset(r) == multiset(s) + multiset{x}
    ensures |r| > 0 && (key(r[0]) == key(x) || (s != [] && r[0] == s[0]))
  {
    if s == [] || key(x) >= key(s[0]) {
      r := [x] + s;
      OnTop(x, s, key);
    } else {
      var rest := InsertedExists(s[1..], x, key);
      r := [s[0]] + rest;
      assert s == [s[0]] + s[1..];
      OnTop(s[0], rest, key);
    }
  }

  lemma OnTop<T>(x: T, s: seq<T>, key: T -> real)
    requires DescendingBy(s, key) && (s != [] ==> key(x) >= key(s[0]))
    ensures DescendingBy([x] + s, key)
  {
    assert forall i :: 0 <= i < |s| ==> key(s[0]) >= key(s[i]);
  }

  function ScoreIn(r: Result): real {
    r.score
  }

  lemma {:induction false} ListExists(cand: map<string, real>) returns (all: seq<Result>)
    ensures multiset(all) == multiset(ResultSet(cand))
    decreases |cand|
  {
    if cand == map[] {
      all := [];
    } else {
      var id :| id in cand;
      MapSizeRemove(cand, id);
      var rest := ListExists(cand - {id});
      all := rest + [Result(id, cand[id])];
      forall r ensures r in ResultSet(cand) <==> r in ResultSet(cand - {id}) || r == Result(id, cand[id]) {
        InResultSet(cand, r);
        InResultSet(cand - {id}, r);
      }
      assert ResultSet(cand) == ResultSet(cand - {id}) + {Result(id, cand[id])};
    }
  }

  lemma TopKExists(cand: map<string, real>, k: nat) returns (fetched: seq<Result>)
    ensures IsTopK(fetched, cand, k)
  {
    var all := ListExists(cand);
    var sorted := SortedExists(all, ScoreIn);
    assert Lists(sorted, cand);
    ListsFacts(sorted, cand);
    var n := Min(k, |cand|);
    assert forall i, j :: 0 <= i < j < |sorted| ==> ScoreIn(sorted[i]) >= ScoreIn(sorted[j]);
    TopKOfSorted(sorted, cand, k, n);
    fetched := sorted[..n];
  }

  lemma {:induction false} RecordsExist(col: Collection, ids: set<string>) returns (res: seq<Record>)
    requires ids <= col.Keys
    ensures forall i :: 0 <= i < |res| ==> res[i].id in ids && res[i].doc == col[res[i].id]
    ensures forall i, j :: 0 <= i < j < |res| ==> res[i].id != res[j].id
    ensures forall id :: id in ids ==> Returned(res, |res|, id)
    decreases |ids|
  {
    if ids == {} {
      res := [];
    } else {
      var id :| id in ids;
      var rest := RecordsExist(col, ids - {id});
      res := rest + [Record(id, col[id])];
      assert res[|rest|].id == id;
      forall x | x in ids ensures Returned(res, |res|, x) {
        if x != id {
          assert Returned(rest, |rest|, x);
          var i :| 0 <= i < |rest| && rest[i].id == x;
          assert res[i].id == x;
        }
      }
    }
  }

  lemma MatchingExists(col: Collection, filter: Filter) returns (res: seq<Record>)
    ensures ListsMatching(col, filter, res)
  {
    res := RecordsExist(col, Matching(col, filter));
  }

  lemma {:induction false} FetchedEachExists(col: Collection, projectIDs: seq<string>, category: string)
    returns (all: seq<Record>)
    ensures FetchedEach(col, projectIDs, category, all)
  {
    if projectIDs == [] {
      all := [];
    } else {
      var n := |projectIDs| - 1;
      var before := FetchedEachExists(col, projectIDs[..n], category);
      var res := MatchingExists(col, ProjectCategoryFilter(projectIDs[n], category));
      all := before + res;
      assert all[..|before|] == before && all[|before|..] == res;
      FetchedCons(col, projectIDs, category, all, |before|);
    }
  }

  /** Whatever the collection, the scores and the arguments, there is an outcome. */
  lemma OutcomeExists(col: Collection, cand: map<string, real>, projectIDs: seq<string>, category: string, topK: nat)
    returns (records: seq<Record>)
    ensures SearchOutcome(col, cand, projectIDs, category, topK, records)
  {
    var fetched := TopKExists(cand, FetchK(topK, |col|));
    var all: seq<Record>;
    if projectIDs == [] {
      all := MatchingExists(col, CategoryFilter(category));
    } else {
      all := FetchedEachExists(col, projectIDs, category);
    }
    var ms := MatchesOf(all, Restrict(cand, SelectedIds(fetched)));
    var sorted := SortedExists(ms, ScoreOf);
    var rs := Cut(sorted, topK);
    assert BestOf(rs, ms, topK);
    OutcomeIntro(col, cand, projectIDs, category, topK, fetched, all, rs);
    records := RecordsOf(rs);
  }

  // ---------- everything that matches ----------

  /** Asked for at least as many as there are, an unfiltered search in a store in step returns exactly the records one
      of whose fields shares a token with the query. */
  lemma WideSearchFindsAll(env: Env, ln: real -> real, s: State, query: string, topK: nat, records: seq<Record>,
                           id: string)
    requires SpaceEndsWords(env) && Coherent(DocTokens(env), s) && NoEmptyDoc(s.docs) && topK >= |s.col|
    requires SearchOutcome(s.col, Scored(ln, s.docs, Tokens(env.u, query)), [], "", topK, records)
    ensures (exists r :: r in records && r.id == id) <==>
            id in s.col && exists text :: IsFieldText(env, s.col[id], text) && ShareToken(env.u, text, query)
  {
    var cand := ScanScores(env, ln, s.col, query);
    CoherentSearchIsScan(env, ln, s, query, topK, records);
    ScanKeys(env, ln, s.col, query);
    KeysSize(cand, s.col);
    AllReturned(cand, s.col.Keys, topK, records, id);
    FoundIffFieldShares(env, ln, s.col, query, id);
  }

  /** A selection of all candidates has each of them. */
  lemma AllReturned(cand: map<string, real>, passing: set<string>, topK: nat, records: seq<Record>, id: string)
    requires BestPassing(cand, passing, topK, records) && cand.Keys <= passing && topK >= |cand|
    ensures (exists r :: r in records && r.id == id) <==> id in cand
  {
    var ranked := RankedBy(records, cand);
    assert Restrict(cand, passing) == cand;
    FullSelection(ranked, cand, topK);
    InSelectedIds(ranked, id);
    if Selected(ranked, id) {
      var i :| 0 <= i < |ranked| && ranked[i].docID == id;
      assert records[i] in records && records[i].id == id;
    }
  }

  // ---------- the rarer word decides ----------

  /** Lower-case letters belong to words, are no digits and stay as they are; a blank ends a word. */
  ghost predicate ReadsLetters(env: Env) {
    && !IsWordRune(env.u, ' ')
    && forall c :: 'a' <= c <= 'z' ==>
         && IsWordRune(env.u, c) && !env.u.isDigit(c) && !env.u.isUpper(c) && env.u.toLower(c) == c && !env.isSpace(c)
  }

  predicate LowerWord(w: string) {
    w != "" && forall i :: 0 <= i < |w| ==> 'a' <= w[i] <= 'z'
  }

  lemma OneToken(u: CharClasses, w: string)
    requires Fragments(u, w) == [w] && Lower(u, w) == w
    ensures WordTokens(u, w) == [w]
  {
    assert [w][..0] == [];
    assert FragmentTokens(u, w, [w]) == FragmentTokens(u, w, []);
  }

  lemma LowerUncut(env: Env, w: string)
    requires ReadsLetters(env) && LowerWord(w)
    ensures Fragments(env.u, w) == [w] && Lower(env.u, w) == w
  {
    Uncut(env.u, w);
  }

  lemma LowerWordTokens(env: Env, w: string)
    requires ReadsLetters(env) && LowerWord(w)
    ensures Words(env.u, w) == [w] && Tokens(env.u, w) == [w]
  {
    var u := env.u;
    FieldsOfWord(u, w, "");
    assert "" + w == w;
    LowerUncut(env, w);
    OneToken(u, w);
    assert [w][..0] == [];
    assert TokensOf(u, [w]) == TokensOf(u, []) + WordTokens(u, w);
  }

  lemma TwoWordTokens(env: Env, a: string, b: string)
    requires ReadsLetters(env) && LowerWord(a) && LowerWord(b)
    ensures Tokens(env.u, a + " " + b) == [a, b]
  {
    LowerWordTokens(env, a);
    LowerWordTokens(env, b);
    WordsSplit(env.u, a, ' ', b);
    assert a + [' '] + b == a + " " + b;
    TokensOfConcat(env.u, Words(env.u, a), Words(env.u, b));
  }

  function Plain(content: string): Doc {
    Doc(content, map[])
  }

  function WordBag(w: string): Bag {
    Bag(1, map[w := 1])
  }

  lemma BagOfWord(w: string)
    ensures BagOf([w]) == WordBag(w)
  {
    assert [w][..0] == [];
    assert Counts([]) == map[];
  }

  lemma PlainTokens(env: Env, w: string)
    requires ReadsLetters(env) && LowerWord(w)
    ensures DocTokens(env)(Plain(w)) == [w]
  {
    PlainText(env, Plain(w));
    LowerWordTokens(env, w);
  }

  /** Four documents of one word each, one word twice. */
  function Four(rare: string, common: string, other: string): Collection {
    map["a" := Plain(rare), "b" := Plain(common), "c" := Plain(common), "d" := Plain(other)]
  }

  /** What they are indexed as. */
  ghost predicate FourBags(docs: Docs, rare: string, common: string, other: string) {
    && docs.Keys == {"a", "b", "c", "d"} && rare != common && other !in {rare, common}
    && docs["a"] == WordBag(rare) && docs["b"] == docs["c"] == WordBag(common) && docs["d"] == WordBag(other)
  }

  lemma FourAs(tok: Tokenizer, rare: string, common: string, other: string)
    requires rare != common && other !in {rare, common}
    requires tok(Plain(rare)) == [rare] && tok(Plain(common)) == [common] && tok(Plain(other)) == [other]
    requires BagOf([rare]) == WordBag(rare) && BagOf([common]) == WordBag(common) && BagOf([other]) == WordBag(other)
    ensures FourBags(IndexOf(tok, Four(rare, common, other)), rare, common, other)
  {
    IndexEntries(tok, Four(rare, common, other));
    assert Four(rare, common, other).Keys == {"a", "b", "c", "d"};
  }

  lemma FourFrequencies(docs: Docs, rare: string, common: string, other: string)
    requires FourBags(docs, rare, common, other)
    ensures DocFreq(docs, rare) == 1 && DocFreq(docs, common) == 2
  {
    var once := set d | d in docs && rare in docs[d].tf;
    var twice := set d | d in docs && common in docs[d].tf;
    assert once == {"a"};
    assert twice == {"b", "c"};
  }

  lemma AbsentTerm(ln: real -> real, docs: Docs, term: string, d: string)
    requires d in docs && NoEmptyDoc(docs) && term !in docs[d].tf
    ensures TermScore(ln, docs, term, d) == 0.0
  {
    assert [term][..0] == [];
    assert Score(ln, docs, [], d) == 0.0;
  }

  /** A document that has one of two words scores for that. */
  lemma OneOfTwo(ln: real -> real, docs: Docs, a: string, b: string, d: string)
    requires d in docs && NoEmptyDoc(docs)
    ensures b !in docs[d].tf ==> Score(ln, docs, [a, b], d) == TermScore(ln, docs, a, d)
    ensures a !in docs[d].tf ==> Score(ln, docs, [a, b], d) == TermScore(ln, docs, b, d)
  {
    assert [a] + [b] == [a, b];
    ScoreConcat(ln, docs, [a], [b], d);
    if b !in docs[d].tf {
      AbsentTerm(ln, docs, b, d);
    }
    if a !in docs[d].tf {
      AbsentTerm(ln, docs, a, d);
    }
  }

  lemma HasOneOfTwo(docs: Docs, a: string, b: string, d: string)
    requires d in docs
    ensures Matches(docs, [a, b], d) <==> a in docs[d].tf || b in docs[d].tf
  {
    assert [a, b][0] == a && [a, b][1] == b;
  }

  lemma RarerWins(ln: real -> real, docs: Docs, rare: string, common: string, d: string, e: string)
    requires Increasing(ln) && NoEmptyDoc(docs) && d in docs && e in docs && rare != common
    requires docs[d] == WordBag(rare) && docs[e] == WordBag(common) && DocFreq(docs, rare) < DocFreq(docs, common)
    ensures Score(ln, docs, [rare, common], d) > Score(ln, docs, [rare, common], e)
  {
    OneOfTwo(ln, docs, rare, common, d);
    OneOfTwo(ln, docs, rare, common, e);
    RarerAcross(ln, docs, rare, common, d, e);
  }

  /** For both words the document with the rarer one scores most. */
  lemma FourScored(ln: real -> real, docs: Docs, rare: string, common: string, other: string)
    requires Increasing(ln) && FourBags(docs, rare, common, other) && NoEmptyDoc(docs)
    ensures BestIn(Scored(ln, docs, [rare, common]), "a")
  {
    FourFrequencies(docs, rare, common, other);
    HasOneOfTwo(docs, rare, common, "a");
    HasOneOfTwo(docs, rare, common, "d");
    RarerWins(ln, docs, rare, common, "a", "b");
    RarerWins(ln, docs, rare, common, "a", "c");
    BestScored(ln, docs, [rare, common], "a");
  }

  lemma BestScored(ln: real -> real, docs: Docs, terms: seq<string>, best: string)
    requires NoEmptyDoc(docs) && best in docs && Matches(docs, terms, best)
    requires forall d :: d in docs && Matches(docs, terms, d) && d != best ==>
               Score(ln, docs, terms, best) > Score(ln, docs, terms, d)
    ensures BestIn(Scored(ln, docs, terms), best)
  {}

  /** The candidates that beat all others: one or none. */
  ghost function Winners(cand: map<string, real>): set<string> {
    set d | d in cand && BestIn(cand, d)
  }

  ghost predicate BestIn(cand: map<string, real>, best: string) {
    best in cand && forall d :: d in cand && d != best ==> cand[best] > cand[d]
  }

  lemma ScanIs(env: Env, ln: real -> real, col: Collection, query: string, terms: seq<string>)
    requires Tokens(env.u, query) == terms
    ensures NoEmptyDoc(IndexOf(DocTokens(env), col))
    ensures ScanScores(env, ln, col, query) == Scored(ln, IndexOf(DocTokens(env), col), terms)
  {
    IndexOfProper(DocTokens(env), col);
  }

  lemma FourScan(env: Env, ln: real -> real, rare: string, common: string, other: string)
    requires ReadsLetters(env) && Increasing(ln) && rare != common && other !in {rare, common}
    requires LowerWord(rare) && LowerWord(common) && LowerWord(other)
    ensures "a" in Winners(ScanScores(env, ln, Four(rare, common, other), rare + " " + common))
  {
    var col := Four(rare, common, other);
    PlainTokens(env, rare);
    PlainTokens(env, common);
    PlainTokens(env, other);
    BagOfWord(rare);
    BagOfWord(common);
    BagOfWord(other);
    FourAs(DocTokens(env), rare, common, other);
    TwoWordTokens(env, rare, common);
    ScanIs(env, ln, col, rare + " " + common, [rare, common]);
    FourScored(ln, IndexOf(DocTokens(env), col), rare, common, other);
  }

  /** All that a search can return. */
  ghost function Outcomes(col: Collection, cand: map<string, real>, projectIDs: seq<string>, category: string,
                          topK: nat)
    : iset<seq<Record>>
  {
    iset records | SearchOutcome(col, cand, projectIDs, category, topK, records)
  }

  /** Of four documents, one with a word that no other has and two with another: searching for both words, the one
      record asked for is that with the rarer word, and nothing else is an outcome. */
  lemma RareWordWins(env: Env, ln: real -> real, rare: string, common: string, other: string)
    requires ReadsLetters(env) && Increasing(ln) && rare != common && other !in {rare, common}
    requires LowerWord(rare) && LowerWord(common) && LowerWord(other)
    ensures var col := Four(rare, common, other);
            Outcomes(col, ScanScores(env, ln, col, rare + " " + common), [], "", 1) ==
            iset{[Record("a", Plain(rare))]}
  {
    var col := Four(rare, common, other);
    FourScan(env, ln, rare, common, other);
    WinnerIsOnly(env, ln, col, rare + " " + common, "a");
    FourAt(rare, common, other);
    OneRecord(col["a"], Plain(rare));
  }

  lemma FourAt(rare: string, common: string, other: string)
    ensures "a" in Four(rare, common, other) && Four(rare, common, other)["a"] == Plain(rare)
  {}

  lemma OneRecord(a: Doc, b: Doc)
    requires a == b
    ensures iset{[Record("a", a)]} == iset{[Record("a", b)]}
  {}

  lemma WinnerIsOnly(env: Env, ln: real -> real, col: Collection, query: string, best: string)
    requires best in Winners(ScanScores(env, ln, col, query))
    ensures best in col
    ensures Outcomes(col, ScanScores(env, ln, col, query), [], "", 1) == iset{[Record(best, col[best])]}
  {
    ScanKeys(env, ln, col, query);
    BestIsOnly(col, ScanScores(env, ln, col, query), best);
  }

  /** Asked for one, a search without filters can return the candidate that beats all others, and nothing else. */
  lemma BestIsOnly(col: Collection, cand: map<string, real>, best: string)
    requires best in Winners(cand) && cand.Keys <= col.Keys
    ensures Outcomes(col, cand, [], "", 1) == iset{[Record(best, col[best])]}
  {
    forall records | SearchOutcome(col, cand, [], "", 1, records) ensures records == [Record(best, col[best])] {
      UnfilteredOutcome(col, cand, 1, records);
      OnlyBest(col, cand, best, records);
    }
    var some := OutcomeExists(col, cand, [], "", 1);
  }

  lemma OnlyBest(col: Collection, cand: map<string, real>, best: string, records: seq<Record>)
    requires BestIn(cand, best) && cand.Keys <= col.Keys
    requires BestPassing(cand, col.Keys, 1, records)
    requires forall r :: r in records ==> r.id in col && r.doc == col[r.id]
    ensures records == [Record(best, col[best])]
  {
    var ranked := RankedBy(records, cand);
    assert Restrict(cand, col.Keys) == cand;
    assert cand.Keys != {};
    assert |records| == 1;
    assert records[0] in records && ranked[0] == Result(records[0].id, cand[records[0].id]);
    if !Selected(ranked, best) {
      assert false;
    }
  }
}
