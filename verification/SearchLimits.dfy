/** When a filtered search is exact and when its results are distinct, for whole collections and queries
    (internal/db/store.go, lines 189-283). */
module SearchLimits {
  import opened Bm25
  import opened Identifiers
  import opened LexicalLaws
  import opened LexicalQuery
  import opened Ranking
  import opened SearchModel
  import opened StoreModel

  /** The score of every document of the collection that shares a token with the query, by a scan. */
  ghost function ScanScores(env: Env, ln: real -> real, col: Collection, query: string): map<string, real> {
    IndexOfProper(DocTokens(env), col);
    Scored(ln, IndexOf(DocTokens(env), col), Tokens(env.u, query))
  }

  lemma IndexOfProper(tok: Tokenizer, col: Collection)
    ensures NoEmptyDoc(IndexOf(tok, col))
  {
    var docs := IndexOf(tok, col);
    forall id | id in docs ensures ProperBag(docs[id]) {
      BagOfProper(tok(col[id]));
    }
  }

  /** `records` are the best of the candidates that pass. */
  ghost predicate BestPassing(cand: map<string, real>, passing: set<string>, topK: nat, records: seq<Record>) {
    && (forall r :: r in records ==> r.id in cand)
    && IsTopK(RankedBy(records, cand), Restrict(cand, passing), topK)
  }

  // ---------- unfiltered searches ----------

  lemma UnfilteredOutcome(col: Collection, cand: map<string, real>, topK: nat, records: seq<Record>)
    requires cand.Keys <= col.Keys && SearchOutcome(col, cand, [], "", topK, records)
    ensures forall r :: r in records ==> r.id in col && r.doc == col[r.id]
    ensures BestPassing(cand, col.Keys, topK, records)
  {
    assert DistinctStrings([]);
    OutcomeIsLexicalResult(col, cand, [], "", topK, records);
    UnfilteredLexicalResult(col, cand, topK, records);
    assert Restrict(cand, col.Keys) == cand;
  }

  lemma ScanKeys(env: Env, ln: real -> real, col: Collection, query: string)
    ensures ScanScores(env, ln, col, query).Keys <= col.Keys
  {}

  /** In a store whose index is in step with its collection, a search without filters returns the best matches of a
      scan of the collection. */
  lemma CoherentSearchIsScan(env: Env, ln: real -> real, s: State, query: string, topK: nat, records: seq<Record>)
    requires Coherent(DocTokens(env), s) && NoEmptyDoc(s.docs)
    requires SearchOutcome(s.col, Scored(ln, s.docs, Tokens(env.u, query)), [], "", topK, records)
    ensures forall r :: r in records ==> r.id in s.col && r.doc == s.col[r.id]
    ensures BestPassing(ScanScores(env, ln, s.col, query), s.col.Keys, topK, records)
  {
    ScanKeys(env, ln, s.col, query);
    UnfilteredOutcome(s.col, ScanScores(env, ln, s.col, query), topK, records);
  }

  /** The same for any search, where it applies. */
  lemma IfCoherent(env: Env, ln: real -> real, s: State, query: string, projectIDs: seq<string>, category: string,
                   topK: nat, records: seq<Record>)
    requires NoEmptyDoc(s.docs)
    requires SearchOutcome(s.col, Scored(ln, s.docs, Tokens(env.u, query)), projectIDs, category, topK, records)
    ensures Coherent(DocTokens(env), s) && projectIDs == [] && category == "" ==>
              BestPassing(ScanScores(env, ln, s.col, query), s.col.Keys, topK, records)
  {
    if Coherent(DocTokens(env), s) && projectIDs == [] && category == "" {
      CoherentSearchIsScan(env, ln, s, query, topK, records);
    }
  }

  // ---------- filtered searches ----------

  /** Whatever is asked of this collection, and with whatever filters, the best of what passes is returned. */
  ghost predicate AlwaysExact(env: Env, ln: real -> real, topK: nat, col: Collection) {
    forall query: string, projectIDs: seq<string>, category: string, records: seq<Record> ::
      DistinctStrings(projectIDs) &&
      SearchOutcome(col, ScanScores(env, ln, col, query), projectIDs, category, topK, records) ==>
        BestPassing(ScanScores(env, ln, col, query), Passing(col, projectIDs, category), topK, records)
  }

  /** A filtered search of `count` documents is exact, for all collections, queries, filters and outcomes, exactly
      when the fetch takes in the whole collection. Fetching three times as many does not do for less (lines 207-208
      say that it does). */
  lemma FilteredSearchExactIff(env: Env, ln: real -> real, topK: nat, count: nat)
    requires ReadsWords(env) && IsLog(ln)
    ensures (forall col: Collection :: |col| == count ==> AlwaysExact(env, ln, topK, col)) <==>
            topK == 0 || 3 * topK >= count
  {
    if topK == 0 || 3 * topK >= count {
      forall col: Collection | |col| == count ensures AlwaysExact(env, ln, topK, col) {
        WideAlwaysExact(env, ln, topK, col);
      }
    } else {
      CrowdSize(count);
      NarrowMisses(env, ln, topK, count);
    }
  }

  lemma WideAlwaysExact(env: Env, ln: real -> real, topK: nat, col: Collection)
    requires topK == 0 || 3 * topK >= |col|
    ensures AlwaysExact(env, ln, topK, col)
  {
    forall query: string, projectIDs: seq<string>, category: string, records: seq<Record> |
      DistinctStrings(projectIDs) &&
      SearchOutcome(col, ScanScores(env, ln, col, query), projectIDs, category, topK, records)
      ensures BestPassing(ScanScores(env, ln, col, query), Passing(col, projectIDs, category), topK, records)
    {
      ScanKeys(env, ln, col, query);
      WideSearchExact(col, ScanScores(env, ln, col, query), projectIDs, category, topK, records);
    }
  }

  lemma NarrowMisses(env: Env, ln: real -> real, topK: nat, count: nat)
    requires ReadsWords(env) && IsLog(ln) && topK > 0 && 3 * topK < count
    ensures !AlwaysExact(env, ln, topK, Crowd(count))
  {
    FilterCanStarve(env, ln, topK, count);
    Missed(env, ln, topK, Crowd(count), "x", "document", LONGEST);
  }

  lemma Missed(env: Env, ln: real -> real, topK: nat, col: Collection, query: string, category: string, id: string)
    requires topK > 0 && id in Restrict(ScanScores(env, ln, col, query), Passing(col, [], category))
    requires SearchOutcome(col, ScanScores(env, ln, col, query), [], category, topK, [])
    ensures !AlwaysExact(env, ln, topK, col)
  {
    assert DistinctStrings([]);
    NothingIsNotBest(ScanScores(env, ln, col, query), Passing(col, [], category), topK, id);
  }

  lemma NothingIsNotBest(cand: map<string, real>, passing: set<string>, topK: nat, id: string)
    requires topK > 0 && id in Restrict(cand, passing)
    ensures !BestPassing(cand, passing, topK, [])
  {
    assert RankedBy([], cand) == [];
  }

  lemma WideSearchExact(col: Collection, cand: map<string, real>, projectIDs: seq<string>, category: string,
                        topK: nat, records: seq<Record>)
    requires cand.Keys <= col.Keys && (topK == 0 || 3 * topK >= |col|)
    requires DistinctStrings(projectIDs) && SearchOutcome(col, cand, projectIDs, category, topK, records)
    ensures BestPassing(cand, Passing(col, projectIDs, category), topK, records)
  {
    OutcomeIsLexicalResult(col, cand, projectIDs, category, topK, records);
    if topK > 0 {
      LargeLexicalResult(col, cand, Passing(col, projectIDs, category), topK, records);
    }
  }

  // ---------- a collection that starves the search ----------

  /** What the witness needs of the library tables: x and y are lower-case letters, a blank ends a word. */
  ghost predicate ReadsWords(env: Env) {
    && IsWordRune(env.u, 'x') && IsWordRune(env.u, 'y') && !IsWordRune(env.u, ' ')
    && env.u.toLower('x') == 'x' && env.u.toLower('y') == 'y'
    && !env.isSpace('x') && !env.isSpace('y')
  }

  const SHORT := Doc("x", map[])
  const LONG := Doc("x y", map["category" := "document"])

  function Name(i: nat): (s: string)
    ensures |s| == i
  {
    seq(i, _ => 'a')
  }

  /** `n` documents with the word x: the longest is the only one of its category. */
  function Crowd(n: nat): Collection {
    if n == 0 then map[] else Crowd(n - 1)[Name(n) := if n == 1 then LONG else SHORT]
  }

  const LONGEST := Name(1)

  lemma {:induction false} CrowdKey(n: nat, id: string)
    ensures id in Crowd(n) <==> 1 <= |id| <= n && id == Name(|id|)
    ensures id in Crowd(n) ==> Crowd(n)[id] == if id == LONGEST then LONG else SHORT
  {
    if n > 0 {
      CrowdKey(n - 1, id);
    }
  }

  lemma {:induction false} CrowdSize(n: nat)
    ensures |Crowd(n)| == n
  {
    if n > 0 {
      CrowdSize(n - 1);
      CrowdKey(n - 1, Name(n));
      assert Crowd(n) - {Name(n)} == Crowd(n - 1);
      MapSizeRemove(Crowd(n), Name(n));
    }
  }

  lemma CrowdFacts(n: nat)
    requires n > 0
    ensures LONGEST in Crowd(n)
    ensures forall id :: id in Crowd(n) ==> Crowd(n)[id] == if id == LONGEST then LONG else SHORT
  {
    CrowdKey(n, LONGEST);
    forall id | id in Crowd(n) ensures Crowd(n)[id] == if id == LONGEST then LONG else SHORT {
      CrowdKey(n, id);
    }
  }

  lemma ShortTokens(env: Env)
    requires ReadsWords(env)
    ensures DocTokens(env)(SHORT) == Tokens(env.u, "x") == ["x"]
  {
    PlainText(env, SHORT);
    FieldsStep(env.u, 'x', "", "");
    assert ['x'] + "" == "" + ['x'] == "x";
    assert Words(env.u, "x") == ["x"];
    OneLetterWord(env.u, 'x');
    assert ["x"][..0] == [];
    assert TokensOf(env.u, ["x"]) == ["x"];
  }

  lemma LongTokens(env: Env)
    requires ReadsWords(env)
    ensures DocTokens(env)(LONG) == ["x", "y"]
  {
    PlainText(env, LONG);
    var u := env.u;
    FieldsStep(u, 'x', " y", "");
    FieldsStep(u, ' ', "y", "x");
    FieldsStep(u, 'y', "", "");
    assert ['x'] + " y" == "x y" && [' '] + "y" == " y" && ['y'] + "" == "" + ['y'] == "y" && "" + ['x'] == "x";
    assert Words(u, "x y") == ["x", "y"];
    OneLetterWord(u, 'x');
    OneLetterWord(u, 'y');
    assert ["x", "y"][..1] == ["x"] && ["x"][..0] == [];
    assert TokensOf(u, ["x"]) == ["x"];
    assert TokensOf(u, ["x", "y"]) == ["x", "y"];
  }

  lemma FieldsStep(u: CharClasses, c: char, rest: string, open: string)
    ensures Identifiers.Fields(u, [c] + rest, open) ==
            if IsWordRune(u, c) then Identifiers.Fields(u, rest, open + [c])
            else (if open == "" then [] else [open]) + Identifiers.Fields(u, rest, "")
  {
    assert ([c] + rest)[1..] == rest;
  }

  /** A document without any of the other fields is indexed under its content. */
  lemma PlainText(env: Env, doc: Doc)
    requires doc.content != "" && !env.isSpace(doc.content[0]) && !env.isSpace(doc.content[|doc.content|-1])
    requires forall k :: k in doc.meta ==> k !in ["name", "path", "symbols", "calls"]
    ensures LexicalText(env, doc) == doc.content
  {
    assert "name" in ["name", "path", "symbols", "calls"];
    assert "path" in ["name", "path", "symbols", "calls"];
    assert "symbols" in ["name", "path", "symbols", "calls"];
    assert "calls" in ["name", "path", "symbols", "calls"];
    var fields := [doc.content, "", ""];
    assert fields + [] + [] == fields;
    assert fields[..2] == [doc.content, ""] && fields[..2][..1] == [doc.content] && [doc.content][..0] == [];
    assert AppendFields(env, "", []) == "";
    assert AppendFields(env, "", [doc.content]) == doc.content;
    assert AppendFields(env, "", [doc.content, ""]) == doc.content;
  }

  lemma OneLetterWord(u: CharClasses, c: char)
    requires u.toLower(c) == c && c != '_'
    ensures WordTokens(u, [c]) == [[c]]
  {
    assert SegmentEnd(u, [c], 0) == 1 && [c][0..1] == [c];
    assert FragmentsFrom(u, [c], 0) == [[c]] + FragmentsFrom(u, [c], 1);
    assert Fragments(u, [c]) == [[c]] && [[c]][..0] == [];
    assert Lower(u, [c]) == [c];
    assert FragmentTokens(u, [c], [[c]]) == FragmentTokens(u, [c], []) == [];
  }

  // ---------- its scores ----------

  lemma WordBags()
    ensures BagOf(["x"]) == Bag(1, map["x" := 1])
    ensures BagOf(["x", "y"]) == Bag(2, map["x" := 1, "y" := 1])
  {
    assert ["x", "y"][..1] == ["x"] && ["x"][..0] == [];
    assert Counts([]) == map[];
  }

  /** All candidates but one have the same score, and that one a lower one. */
  ghost predicate OneIsWorst(cand: map<string, real>, worst: string) {
    && worst in cand
    && (forall d, e :: d in cand && e in cand && d != worst && e != worst ==> cand[d] == cand[e])
    && (forall d :: d in cand && d != worst ==> cand[d] > cand[worst])
  }

  /** The index of a crowd: two kinds of documents. */
  ghost predicate TwoKinds(docs: Docs) {
    && LONGEST in docs && docs[LONGEST] == BagOf(["x", "y"])
    && forall d :: d in docs && d != LONGEST ==> docs[d] == BagOf(["x"])
  }

  lemma CrowdIndex(env: Env, n: nat)
    requires ReadsWords(env) && n > 0
    ensures IndexOf(DocTokens(env), Crowd(n)).Keys == Crowd(n).Keys
    ensures TwoKinds(IndexOf(DocTokens(env), Crowd(n)))
  {
    CrowdFacts(n);
    LongTokens(env);
    ShortTokens(env);
    TwoKindsIndexed(DocTokens(env), Crowd(n));
  }

  lemma TwoKindsIndexed(tok: Tokenizer, col: Collection)
    requires tok(LONG) == ["x", "y"] && tok(SHORT) == ["x"] && LONGEST in col
    requires forall id :: id in col ==> col[id] == if id == LONGEST then LONG else SHORT
    ensures IndexOf(tok, col).Keys == col.Keys
    ensures TwoKinds(IndexOf(tok, col))
  {
    IndexEntries(tok, col);
  }

  lemma IndexEntries(tok: Tokenizer, col: Collection)
    ensures forall id :: id in IndexOf(tok, col) <==> id in col && tok(col[id]) != []
    ensures forall id :: id in IndexOf(tok, col) ==> IndexOf(tok, col)[id] == BagOf(tok(col[id]))
  {}

  lemma WordOnce(docs: Docs, d: string)
    requires TwoKinds(docs) && d in docs
    ensures "x" in docs[d].tf && docs[d].tf["x"] == 1 && docs[d].len == if d == LONGEST then 2 else 1
  {
    WordBags();
  }

  lemma SameKindScores(ln: real -> real, docs: Docs, d: string, e: string)
    requires NoEmptyDoc(docs) && d in docs && e in docs && docs[d] == docs[e] && "x" in docs[d].tf
    ensures Score(ln, docs, ["x"], d) == Score(ln, docs, ["x"], e)
  {
    TermScoreIs(ln, docs, "x", d);
    TermScoreIs(ln, docs, "x", e);
  }

  lemma TwoKindsScored(ln: real -> real, docs: Docs)
    requires IsLog(ln) && NoEmptyDoc(docs) && TwoKinds(docs)
    ensures Scored(ln, docs, ["x"]).Keys == docs.Keys
    ensures OneIsWorst(Scored(ln, docs, ["x"]), LONGEST)
  {
    forall d | d in docs ensures Matches(docs, ["x"], d) {
      WordBags();
      assert ["x"][0] in docs[d].tf;
    }
    forall d, e | d in docs && e in docs && d != LONGEST
      ensures e != LONGEST ==> Score(ln, docs, ["x"], d) == Score(ln, docs, ["x"], e)
      ensures e == LONGEST ==> Score(ln, docs, ["x"], d) > Score(ln, docs, ["x"], e)
    {
      WordOnce(docs, d);
      WordOnce(docs, e);
      if e == LONGEST {
        ShorterDocumentScoresMore(ln, docs, "x", d, e);
      } else {
        SameKindScores(ln, docs, d, e);
      }
    }
  }

  /** Every document is a candidate, and the only one of its category is the worst. */
  lemma CrowdScores(env: Env, ln: real -> real, n: nat)
    requires ReadsWords(env) && IsLog(ln) && n > 0
    ensures ScanScores(env, ln, Crowd(n), "x").Keys == Crowd(n).Keys
    ensures OneIsWorst(ScanScores(env, ln, Crowd(n), "x"), LONGEST)
  {
    ShortTokens(env);
    IndexOfProper(DocTokens(env), Crowd(n));
    CrowdIndex(env, n);
    TwoKindsScored(ln, IndexOf(DocTokens(env), Crowd(n)));
  }

  // ---------- the search on it ----------

  /** A selection that does not take all candidates does not take the worst one. */
  lemma WorstLeftOut(cand: map<string, real>, fetched: seq<Result>, f: nat, worst: string)
    requires f < |cand| && IsTopK(fetched, cand, f) && OneIsWorst(cand, worst)
    ensures !Selected(fetched, worst)
  {
    DistinctIdsSize(fetched);
    SomeLeft(SelectedIds(fetched), cand);
    var d :| d in cand && d !in SelectedIds(fetched);
    InSelectedIds(fetched, d);
    if d != worst && Selected(fetched, worst) {
      assert false;
    }
  }

  lemma {:induction false} SomeLeft(taken: set<string>, cand: map<string, real>)
    requires |taken| < |cand|
    ensures exists d :: d in cand && d !in taken
    decreases |cand|
  {
    var d :| d in cand.Keys;
    if d in taken {
      MapSizeRemove(cand, d);
      SomeLeft(taken - {d}, cand - {d});
      var e :| e in cand - {d} && e !in taken - {d};
      assert e in cand && e !in taken;
    }
  }

  /** A list of some of the others is a selection of that size. */
  lemma SelectionOf(ids: seq<string>, cand: map<string, real>, worst: string)
    requires OneIsWorst(cand, worst) && |ids| <= |cand|
    requires forall i :: 0 <= i < |ids| ==> ids[i] in cand && ids[i] != worst
    requires forall i, j :: 0 <= i < j < |ids| ==> ids[i] != ids[j]
    ensures exists fetched :: IsTopK(fetched, cand, |ids|)
  {
    var fetched := seq(|ids|, i requires 0 <= i < |ids| => Result(ids[i], cand[ids[i]]));
    assert forall i :: 0 <= i < |ids| ==> fetched[i].docID == ids[i];
    assert IsTopK(fetched, cand, |ids|);
  }

  lemma CrowdSelection(n: nat, cand: map<string, real>, f: nat)
    requires f < n == |cand| && cand.Keys == Crowd(n).Keys && OneIsWorst(cand, LONGEST)
    ensures exists fetched :: IsTopK(fetched, cand, f)
  {
    var ids := seq(f, i requires 0 <= i < f => Name(i + 2));
    forall i | 0 <= i < f ensures ids[i] in cand && ids[i] != LONGEST {
      assert |ids[i]| == i + 2;
      CrowdKey(n, ids[i]);
    }
    forall i, j | 0 <= i < j < f ensures ids[i] != ids[j] {
      assert |ids[i]| == i + 2 && |ids[j]| == j + 2;
    }
    SelectionOf(ids, cand, LONGEST);
  }

  lemma SameKeysSize<S, T>(a: map<string, S>, b: map<string, T>)
    requires a.Keys == b.Keys
    ensures |a| == |b|
  {
    assert |a.Keys| == |b.Keys|;
  }

  /** If the only document that passes is the worst candidate, a fetch of less than all leaves nothing. */
  lemma OnlyEmptyOutcome(col: Collection, cand: map<string, real>, topK: nat, r: Record)
    requires OneIsWorst(cand, r.id) && FetchK(topK, |col|) < |cand|
    requires ListsMatching(col, CategoryFilter("document"), [r]) && Passing(col, [], "document") == {r.id}
    requires exists fetched :: IsTopK(fetched, cand, FetchK(topK, |col|))
    ensures forall records :: SearchOutcome(col, cand, [], "document", topK, records) <==> records == []
  {
    forall fetched, records | IsTopK(fetched, cand, FetchK(topK, |col|))
      ensures SelectedFrom(col, cand, [], "document", topK, fetched, records) <==> records == []
    {
      WorstLeftOut(cand, fetched, FetchK(topK, |col|), r.id);
      NothingPasses(col, cand, topK, fetched, records, r);
    }
  }

  /** Asked for less than a third of the crowd, the search for the only document of the category finds nothing,
      though it matches the query and passes the filter: whichever documents are fetched, it is not among them. */
  lemma FilterCanStarve(env: Env, ln: real -> real, topK: nat, count: nat)
    requires ReadsWords(env) && IsLog(ln) && topK > 0 && 3 * topK < count
    ensures var scan := ScanScores(env, ln, Crowd(count), "x");
            && LONGEST in Restrict(scan, Passing(Crowd(count), [], "document"))
            && forall records :: SearchOutcome(Crowd(count), scan, [], "document", topK, records) <==> records == []
  {
    var cand := ScanScores(env, ln, Crowd(count), "x");
    CrowdSize(count);
    CrowdScores(env, ln, count);
    SameKeysSize(cand, Crowd(count));
    OnlyCategory(count);
    CrowdSelection(count, cand, FetchK(topK, count));
    OnlyEmptyOutcome(Crowd(count), cand, topK, Record(LONGEST, LONG));
  }

  lemma OnlyCategory(n: nat)
    requires n > 0
    ensures Passing(Crowd(n), [], "document") == {LONGEST}
    ensures ListsMatching(Crowd(n), CategoryFilter("document"), [Record(LONGEST, LONG)])
  {
    CrowdFacts(n);
    forall id | id in Crowd(n) ensures id in Passing(Crowd(n), [], "document") <==> id == LONGEST {}
    forall id | id in Crowd(n) ensures id in Matching(Crowd(n), CategoryFilter("document")) <==> id == LONGEST {
      CategoryFilterMeaning(Crowd(n)[id], "document");
    }
    assert [Record(LONGEST, LONG)][0].id == LONGEST;
  }

  /** If the only record that passes was not fetched, the selection is empty. */
  lemma NothingPasses(col: Collection, cand: map<string, real>, topK: nat, fetched: seq<Result>, records: seq<Record>,
                      r: Record)
    requires ListsMatching(col, CategoryFilter("document"), [r]) && Passing(col, [], "document") == {r.id}
    requires !Selected(fetched, r.id)
    ensures SelectedFrom(col, cand, [], "document", topK, fetched, records) <==> records == []
  {
    var idSet := Restrict(cand, SelectedIds(fetched));
    InSelectedIds(fetched, r.id);
    if records != [] && SelectedFrom(col, cand, [], "document", topK, fetched, records) {
      var all, rs :| Fetched(col, [], "document", all) && records == RecordsOf(rs) &&
          BestOf(rs, MatchesOf(all, idSet), topK);
      FetchedPasses(col, [], "document", all);
      NoMatches(all, idSet);
      BestOfNothing(rs, topK);
      assert false;
    }
    assert Fetched(col, [], "document", [r]);
    NoMatches([r], idSet);
    assert BestOf([], MatchesOf([r], idSet), topK) by {
      assert Permutation<ScoredRecord>([], []);
    }
    assert RecordsOf([]) == [];
    if records == [] {
      assert records == RecordsOf([]);
    }
  }

  lemma {:induction false} NoMatches(all: seq<Record>, idSet: map<string, real>)
    requires forall r :: r in all ==> r.id !in idSet
    ensures MatchesOf(all, idSet) == []
  {
    if all != [] {
      NoMatches(all[..|all|-1], idSet);
    }
  }

  lemma BestOfNothing(rs: seq<ScoredRecord>, topK: nat)
    requires BestOf(rs, [], topK)
    ensures rs == []
  {
    var sorted: seq<ScoredRecord> :|
      Permutation(sorted, []) && DescendingBy(sorted, ScoreOf) && rs == Cut(sorted, topK);
    assert |multiset(sorted)| == |sorted|;
  }

  // ---------- repeated records ----------

  /** No outcome of a search over these projects has a record twice, whatever is in the collection. */
  ghost predicate NeverRepeats(env: Env, ln: real -> real, projectIDs: seq<string>, topK: nat) {
    forall col: Collection, query: string, category: string, records: seq<Record> ::
      SearchOutcome(col, ScanScores(env, ln, col, query), projectIDs, category, topK, records) ==>
        DistinctBy(records, RecordId)
  }

  /** A search never repeats a record exactly when no project is named twice, or only one record is asked for: the
      results of the projects' queries are appended without looking for records that are there already. */
  lemma NeverRepeatsIff(env: Env, ln: real -> real, projectIDs: seq<string>, topK: nat)
    requires ReadsWords(env)
    ensures NeverRepeats(env, ln, projectIDs, topK) <==> topK <= 1 || DistinctStrings(projectIDs)
  {
    if topK <= 1 || DistinctStrings(projectIDs) {
      forall col: Collection, query: string, category: string, records: seq<Record> |
        SearchOutcome(col, ScanScores(env, ln, col, query), projectIDs, category, topK, records)
        ensures DistinctBy(records, RecordId)
      {
        OutcomeDistinct(col, ScanScores(env, ln, col, query), projectIDs, category, topK, records);
      }
    } else {
      RepeatedRecord(env, ln, projectIDs, topK);
    }
  }

  lemma OutcomeDistinct(col: Collection, cand: map<string, real>, projectIDs: seq<string>, category: string, topK: nat,
                        records: seq<Record>)
    requires topK <= 1 || DistinctStrings(projectIDs)
    requires SearchOutcome(col, cand, projectIDs, category, topK, records)
    ensures DistinctBy(records, RecordId)
  {
    if topK <= 1 {
      OutcomeSize(col, cand, projectIDs, category, topK, records);
    } else {
      OutcomeIsLexicalResult(col, cand, projectIDs, category, topK, records);
      forall i, j | 0 <= i < j < |records| ensures RecordId(records[i]) != RecordId(records[j]) {
        assert RankedBy(records, cand)[i].docID != RankedBy(records, cand)[j].docID;
      }
    }
  }

  lemma OutcomeSize(col: Collection, cand: map<string, real>, projectIDs: seq<string>, category: string, topK: nat,
                    records: seq<Record>)
    requires SearchOutcome(col, cand, projectIDs, category, topK, records)
    ensures |records| <= topK
  {
    var fetched :| IsTopK(fetched, cand, FetchK(topK, |col|)) &&
                   SelectedFrom(col, cand, projectIDs, category, topK, fetched, records);
  }

  /** One document, of a project that is named twice. */
  function Owned(pid: string): Doc {
    Doc("x", map["project_id" := pid])
  }

  lemma RepeatedRecord(env: Env, ln: real -> real, projectIDs: seq<string>, topK: nat)
    requires ReadsWords(env) && topK > 1 && !DistinctStrings(projectIDs)
    ensures !NeverRepeats(env, ln, projectIDs, topK)
  {
    var i, j :| 0 <= i < j < |projectIDs| && projectIDs[i] == projectIDs[j];
    var pid := projectIDs[i];
    var r := Record("x", Owned(pid));
    var col := map["x" := Owned(pid)];
    var cand := ScanScores(env, ln, col, "x");
    OwnedScored(env, ln, pid);
    TwiceInMultiset(projectIDs, i, j);
    CopiesFetched(projectIDs, r, pid);
    var records := RepeatedOutcome(col, cand, projectIDs, topK, r, pid);
    Repeats(env, ln, projectIDs, topK, col, "x", "", records);
  }

  lemma Repeats(env: Env, ln: real -> real, projectIDs: seq<string>, topK: nat, col: Collection, query: string,
                category: string, records: seq<Record>)
    requires SearchOutcome(col, ScanScores(env, ln, col, query), projectIDs, category, topK, records)
    requires !DistinctBy(records, RecordId)
    ensures !NeverRepeats(env, ln, projectIDs, topK)
  {}

  lemma OwnedScored(env: Env, ln: real -> real, pid: string)
    requires ReadsWords(env)
    ensures ScanScores(env, ln, map["x" := Owned(pid)], "x").Keys == {"x"}
  {
    var col := map["x" := Owned(pid)];
    ShortTokens(env);
    PlainText(env, SHORT);
    PlainText(env, Owned(pid));
    WordBags();
    IndexEntries(DocTokens(env), col);
    var docs := IndexOf(DocTokens(env), col);
    assert docs["x"] == BagOf(["x"]);
    assert ["x"][0] in docs["x"].tf;
    assert "x" in ScanScores(env, ln, col, "x");
  }

  /** What the queries return: the record once for every time its project is named. */
  function Copies(projectIDs: seq<string>, r: Record, pid: string): seq<Record> {
    if projectIDs == [] then []
    else
      var n := |projectIDs| - 1;
      Copies(projectIDs[..n], r, pid) + (if projectIDs[n] == pid then [r] else [])
  }

  ghost predicate AllAre<T>(s: seq<T>, x: T) {
    forall i :: 0 <= i < |s| ==> s[i] == x
  }

  lemma {:induction false} CopiesCount(projectIDs: seq<string>, r: Record, pid: string)
    ensures |Copies(projectIDs, r, pid)| == multiset(projectIDs)[pid]
  {
    if projectIDs != [] {
      var n := |projectIDs| - 1;
      CopiesCount(projectIDs[..n], r, pid);
      assert projectIDs == projectIDs[..n] + [projectIDs[n]];
    }
  }

  lemma {:induction false} CopiesAlike(projectIDs: seq<string>, r: Record, pid: string)
    ensures AllAre(Copies(projectIDs, r, pid), r)
  {
    if projectIDs != [] {
      CopiesAlike(projectIDs[..|projectIDs|-1], r, pid);
    }
  }

  lemma {:induction false} CopiesFetched(projectIDs: seq<string>, r: Record, pid: string)
    requires r == Record("x", Owned(pid))
    ensures FetchedEach(map["x" := Owned(pid)], projectIDs, "", Copies(projectIDs, r, pid))
  {
    if projectIDs != [] {
      var n := |projectIDs| - 1;
      var col, all := map["x" := Owned(pid)], Copies(projectIDs, r, pid);
      var rest := Copies(projectIDs[..n], r, pid);
      CopiesFetched(projectIDs[..n], r, pid);
      OwnedQuery(pid, projectIDs[n]);
      assert all[..|rest|] == rest;
      assert all[|rest|..] == if projectIDs[n] == pid then [r] else [];
      FetchedCons(col, projectIDs, "", all, |rest|);
    }
  }

  lemma OwnedQuery(pid: string, asked: string)
    ensures ListsMatching(map["x" := Owned(pid)], ProjectCategoryFilter(asked, ""),
                          if asked == pid then [Record("x", Owned(pid))] else [])
  {
    ProjectCategoryMeaning(Owned(pid), asked, "");
    assert Passes(Owned(pid), [asked], "") <==> asked == pid;
    if asked == pid {
      assert [Record("x", Owned(pid))][0].id == "x";
    }
  }

  lemma {:induction false} MatchesOfCopies(all: seq<Record>, idSet: map<string, real>, r: Record)
    requires r.id in idSet && AllAre(all, r)
    ensures |MatchesOf(all, idSet)| == |all|
    ensures AllAre(MatchesOf(all, idSet), ScoredRecord(r, idSet[r.id]))
  {
    if all != [] {
      MatchesOfCopies(all[..|all|-1], idSet, r);
    }
  }

  lemma RepeatedOutcome(col: Collection, cand: map<string, real>, projectIDs: seq<string>, topK: nat, r: Record,
                        pid: string) returns (records: seq<Record>)
    requires topK > 1 && |col| == 1 && cand.Keys == {r.id} && multiset(projectIDs)[pid] > 1
    requires FetchedEach(col, projectIDs, "", Copies(projectIDs, r, pid))
    ensures SearchOutcome(col, cand, projectIDs, "", topK, records)
    ensures !DistinctBy(records, RecordId)
  {
    var all := Copies(projectIDs, r, pid);
    CopiesCount(projectIDs, r, pid);
    CopiesAlike(projectIDs, r, pid);
    var fetched := [Result(r.id, cand[r.id])];
    OnlyCandidate(cand, r.id, FetchK(topK, 1));
    var idSet := Restrict(cand, SelectedIds(fetched));
    InSelectedIds(fetched, r.id);
    assert fetched[0].docID == r.id;
    MatchesOfCopies(all, idSet, r);
    var ms := MatchesOf(all, idSet);
    SameScores(ms, topK, ScoredRecord(r, idSet[r.id]));
    var rs := Cut(ms, topK);
    OutcomeIntro(col, cand, projectIDs, "", topK, fetched, all, rs);
    records := RecordsOf(rs);
    assert RecordId(records[0]) == RecordId(records[1]);
  }

  lemma OnlyCandidate(cand: map<string, real>, id: string, k: nat)
    requires cand.Keys == {id} && k >= 1
    ensures IsTopK([Result(id, cand[id])], cand, k)
  {
    var rs := [Result(id, cand[id])];
    assert |cand| == |cand.Keys| == 1;
    assert rs[0].docID == id;
  }

  /** Equal records are in order as they come. */
  lemma SameScores(ms: seq<ScoredRecord>, topK: nat, m: ScoredRecord)
    requires AllAre(ms, m)
    ensures BestOf(Cut(ms, topK), ms, topK)
  {
    assert Permutation(ms, ms);
    assert DescendingBy(ms, ScoreOf);
  }
}
