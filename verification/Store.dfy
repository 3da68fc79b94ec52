/** The record store as the object the source updates (internal/db/store.go): the collection, the lexical index
    beside it, and the cache of parsed metadata. Every method is tied to a step of StoreModel. */
module RecordStore {
  import opened Identifiers
  import opened Bm25
  import opened LexicalIndex
  import opened StoreModel
  import opened Ranking
  import opened SearchModel
  import opened LexicalQuery
  import opened SearchLimits
  import opened Fusion
  import opened Wrappers

  const MAX_PARSED_CACHE_SIZE := 10000

  // ---------- collection queries ----------

  /** QueryEmbedding asked for as many results as there are documents. */
  method QueryAll(col: Collection, filter: Filter) returns (res: seq<Record>)
    ensures ListsMatching(col, filter, res)
  {
    res := [];
    var todo := Matching(col, filter);
    while todo != {}
      invariant todo <= Matching(col, filter)
      invariant forall i :: 0 <= i < |res| ==>
                  res[i].id in Matching(col, filter) && res[i].id !in todo && res[i].doc == col[res[i].id]
      invariant forall i, j :: 0 <= i < j < |res| ==> res[i].id != res[j].id
      invariant forall id :: id in Matching(col, filter) && id !in todo ==> Returned(res, |res|, id)
    {
      var id :| id in todo;
      ghost var before := res;
      res := res + [Record(id, col[id])];
      assert forall x :: Returned(before, |before|, x) ==> Returned(res, |res|, x) by {
        assert forall i :: 0 <= i < |before| ==> res[i] == before[i];
      }
      assert res[|before|].id == id;
      todo := todo - {id};
    }
  }

  function Indices<T>(s: seq<T>): set<int> {
    set i {:trigger s[i]} | 0 <= i < |s|
  }

  /** AddDocuments: the records are written in any order. */
  method AddDocuments(col: Collection, batch: seq<Record>) returns (col': Collection)
    ensures AddedTo(col, batch, col')
  {
    col' := col;
    var todo := Indices(batch);
    while todo != {}
      invariant todo <= Indices(batch)
      invariant forall id :: id in col' <==> id in col || Written(batch, todo, id)
      invariant forall id :: id in col && !Written(batch, todo, id) ==> col'[id] == col[id]
      invariant forall id :: Written(batch, todo, id) ==>
          exists i :: 0 <= i < |batch| && batch[i] == Record(id, col'[id])
    {
      var i :| i in todo;
      todo := todo - {i};
      col' := col'[batch[i].id := batch[i].doc];
      assert batch[i] == Record(batch[i].id, col'[batch[i].id]);
    }
    assert forall id :: Written(batch, {}, id) <==> InBatch(batch, id);
  }

  /** Some record with this ID is already written. */
  ghost predicate Written(batch: seq<Record>, todo: set<int>, id: string) {
    exists i :: 0 <= i < |batch| && i !in todo && batch[i].id == id
  }

  class Store {
    const env: Env
    var collection: Collection
    var bm25: Index
    var parsedCache: map<string, seq<string>>

    /** A cached parse is the parse. */
    ghost predicate CacheValid()
      reads this`parsedCache
    {
      && |parsedCache| <= MAX_PARSED_CACHE_SIZE + 1
      && forall raw :: raw in parsedCache ==> env.parse(raw) == Some(parsedCache[raw])
    }

    ghost predicate Valid()
      reads this, bm25
    {
      CacheValid() && bm25.Valid() && bm25.u == env.u
    }

    ghost function Abs(): State
      reads this, bm25
    {
      State(collection, bm25.docs)
    }

    /** Connect on an existing collection (lines 53-86). */
    constructor (env: Env, col: Collection)
      ensures Valid() && fresh(bm25) && this.env == env
      ensures collection == col && Coherent(DocTokens(env), Abs())
    {
      this.env := env;
      collection := col;
      bm25 := new Index(env.u);
      parsedCache := map[];
      new;
      RebuildLexicalIndex();
      NothingIndexed(DocTokens(env));
    }

    // ---------- parsing and text ----------

    static function Parsed(env: Env, raw: string): seq<string> {
      match env.parse(raw)
      case Some(values) => values
      case None => []
    }

    /** Lines 751-779: a parse is looked up before it is computed; when the cache is full some entries are dropped. */
    method ParseStringArray(raw: string) returns (arr: seq<string>)
      requires CacheValid()
      modifies this`parsedCache
      ensures CacheValid()
      ensures arr == Parsed(env, raw)
    {
      if raw in parsedCache {
        return parsedCache[raw];
      }
      match env.parse(raw)
      case None =>
        return [];
      case Some(values) =>
        if |parsedCache| > MAX_PARSED_CACHE_SIZE {
          EvictParsed(raw);
        }
        MapSizeAdd(parsedCache, raw, values);
        parsedCache := parsedCache[raw := values];
        return values;
    }

    /** Lines 770-776: up to 1000 entries go, whichever come first. */
    method EvictParsed(ghost raw: string)
      requires CacheValid() && raw !in parsedCache && parsedCache != map[]
      modifies this`parsedCache
      ensures CacheValid() && raw !in parsedCache
      ensures |parsedCache| <= MAX_PARSED_CACHE_SIZE
    {
      var evictCount := 1000;
      while evictCount > 0 && parsedCache != map[]
        invariant evictCount < 1000 ==> |parsedCache| <= MAX_PARSED_CACHE_SIZE
        invariant CacheValid() && raw !in parsedCache
        decreases evictCount
      {
        var k :| k in parsedCache;
        MapSizeRemove(parsedCache, k);
        parsedCache := parsedCache - {k};
        evictCount := evictCount - 1;
      }
    }

    static lemma MapSizeAdd<T>(m: map<string, T>, k: string, v: T)
      requires k !in m
      ensures |m[k := v]| == |m| + 1
    {
      assert m[k := v] - {k} == m;
      MapSizeRemove(m[k := v], k);
    }

    /** Lines 127-157. */
    method LexicalDocumentText(doc: Doc) returns (text: string)
      requires CacheValid()
      modifies this`parsedCache
      ensures CacheValid()
      ensures text == LexicalText(env, doc)
    {
      var fixed := [doc.content, Field(doc.meta, "name"), Field(doc.meta, "path")];
      text := AppendField(env, "", fixed[0]);
      text := AppendField(env, text, fixed[1]);
      text := AppendField(env, text, fixed[2]);
      FixedFields(env, fixed);
      var symbols := Field(doc.meta, "symbols");
      text := AppendListField(text, fixed, symbols);
      var calls := Field(doc.meta, "calls");
      text := AppendListField(text, fixed + ListField(env, symbols), calls);
    }

    /** Lines 145-153 for one key. */
    method AppendListField(built: string, ghost done: seq<string>, raw: string) returns (text: string)
      requires CacheValid() && built == AppendFields(env, "", done)
      modifies this`parsedCache
      ensures CacheValid()
      ensures text == AppendFields(env, "", done + ListField(env, raw))
    {
      text := built;
      if raw == "" {
        assert done + [] == done;
        return;
      }
      var parsed := ParseStringArray(raw);
      if |parsed| > 0 {
        assert done + parsed[..0] == done;
        for i := 0 to |parsed|
          invariant CacheValid()
          invariant text == AppendFields(env, "", done + parsed[..i])
        {
          text := AppendField(env, text, parsed[i]);
          AppendFieldsSnoc(env, done + parsed[..i], parsed[i]);
          assert done + parsed[..i] + [parsed[i]] == done + parsed[..i+1];
        }
        assert parsed[..|parsed|] == parsed;
        return;
      }
      text := AppendField(env, text, raw);
      AppendFieldsSnoc(env, done, raw);
    }

    // ---------- operations ----------

    /** Lines 88-106. */
    method RebuildLexicalIndex()
      requires Valid()
      modifies this
      ensures Valid() && collection == old(collection)
      ensures collection == map[] ==> bm25 == old(bm25)
      ensures collection != map[] ==> fresh(bm25) && bm25.docs == IndexOf(DocTokens(env), collection)
    {
      if collection == map[] {
        return;
      }
      ghost var col := collection;
      var index := IndexCollection(collection);
      assert CacheValid() && collection == col;
      bm25 := index;
    }

    /** Lines 95-103: a new index of everything a query for all documents lists. */
    method IndexCollection(col: Collection) returns (index: Index)
      requires CacheValid()
      modifies this`parsedCache
      ensures CacheValid()
      ensures fresh(index) && index.Valid() && index.u == env.u
      ensures index.docs == IndexOf(DocTokens(env), col)
    {
      var results := QueryAll(col, map[]);
      index := IndexRecords(results);
      RebuiltIndex(DocTokens(env), col, results);
    }

    /** Lines 100-103. */
    method IndexRecords(results: seq<Record>) returns (index: Index)
      requires CacheValid()
      modifies this`parsedCache
      ensures CacheValid()
      ensures fresh(index) && index.Valid() && index.u == env.u
      ensures index.docs == AddAll(DocTokens(env), map[], results)
    {
      index := new Index(env.u);
      for i := 0 to |results|
        invariant CacheValid() && fresh(index) && index.Valid() && index.u == env.u
        invariant index.docs == AddAll(DocTokens(env), map[], results[..i])
      {
        AddRecord(index, results[i]);
        AddAllSnoc(DocTokens(env), map[], results, i);
      }
      assert results[..|results|] == results;
    }

    /** index.Add(doc.ID, lexicalDocumentText(doc)). */
    method AddRecord(index: Index, r: Record)
      requires CacheValid() && index.Valid() && index.u == env.u
      modifies this`parsedCache, index
      ensures CacheValid() && index.Valid()
      ensures index.docs == AddDoc(old(index.docs), r.id, DocTokens(env)(r.doc))
    {
      var text := LexicalDocumentText(r.doc);
      index.Add(r.id, text);
    }

    /** Lines 160-176. */
    method Insert(records: seq<Record>)
      requires Valid()
      modifies this`collection, this`parsedCache, bm25
      ensures bm25 == old(bm25)
      ensures Valid()
      ensures Inserted(DocTokens(env), old(Abs()), records, Abs())
    {
      for i := 0 to |records|
        invariant CacheValid() && bm25.Valid() && collection == old(collection)
        invariant bm25.docs == AddAll(DocTokens(env), old(bm25.docs), records[..i])
      {
        AddRecord(bm25, records[i]);
        AddAllSnoc(DocTokens(env), old(bm25.docs), records, i);
      }
      assert records[..|records|] == records;
      collection := AddDocuments(collection, records);
    }

    /** Lines 108-125. */
    method DeleteByFilter(filter: Filter)
      requires Valid()
      modifies this`collection, bm25
      ensures bm25 == old(bm25)
      ensures Valid()
      ensures Abs() == Deleted(old(Abs()), Matching(old(collection), filter))
    {
      ghost var s := Abs();
      if collection == map[] {
        NothingDeleted(s);
        return;
      }
      RemoveMatching(filter);
      assert Valid();
      ghost var docs := bm25.docs;
      collection := Unmatched(collection, filter);
      FilteredOut(s.col, filter);
      assert Abs() == State(collection, docs);
    }

    /** Lines 112-122: the matching records leave the index. */
    method RemoveMatching(filter: Filter)
      requires bm25.Valid()
      modifies bm25
      ensures bm25.Valid() && bm25.docs == old(bm25.docs) - Matching(collection, filter)
    {
      ghost var docs := bm25.docs;
      var results := QueryAll(collection, filter);
      RemoveListed(results);
      RemovedListed(docs, collection, filter, results);
    }

    /** Lines 120-122. */
    method RemoveListed(results: seq<Record>)
      requires bm25.Valid()
      modifies bm25
      ensures bm25.Valid() && bm25.docs == RemoveAll(old(bm25.docs), results)
    {
      for i := 0 to |results|
        invariant bm25.Valid() && bm25.docs == RemoveAll(old(bm25.docs), results[..i])
      {
        assert results[..i+1][..i] == results[..i];
        RemoveRecord(results[i].id);
      }
      assert results[..|results|] == results;
    }

    /** s.bm25.Remove(doc.ID). */
    method RemoveRecord(id: string)
      requires bm25.Valid()
      modifies bm25
      ensures bm25.Valid() && bm25.docs == Drop(old(bm25.docs), id)
    {
      bm25.Remove(id);
    }

    /** Lines 497-502. */
    method DeleteByPath(path: string, projectID: string)
      requires Valid()
      modifies this`collection, bm25
      ensures bm25 == old(bm25)
      ensures Valid()
      ensures Abs() == Deleted(old(Abs()), Matching(old(collection), PathFilter(path, projectID)))
    {
      DeleteByFilter(PathFilter(path, projectID));
    }

    /** Lines 534-539. */
    method ClearProject(projectID: string)
      requires Valid()
      modifies this`collection, bm25
      ensures bm25 == old(bm25)
      ensures Valid()
      ensures Abs() == Deleted(old(Abs()), Matching(old(collection), ProjectFilter(projectID)))
    {
      DeleteByFilter(ProjectFilter(projectID));
    }

    /** Lines 506-531. Deleting by path takes all records of a path out of the collection at the first of them, while
        the index loses one record per round: in between the two are out of step. */
    method DeleteByPrefix(prefix: string, projectID: string)
      requires Valid()
      modifies this`collection, bm25
      ensures bm25 == old(bm25)
      ensures Valid()
      ensures Abs() == Deleted(old(Abs()), UnderPrefix(old(collection), prefix, projectID))
    {
      if collection == map[] {
        NothingDeleted(Abs());
        return;
      }
      var res := QueryAll(collection, ProjectFilter(projectID));
      ghost var s0 := Abs();
      PrefixStart(s0, res, prefix, projectID);
      for k := 0 to |res|
        invariant bm25.Valid()
        invariant MidPrefix(s0, res, k, prefix, projectID, Abs())
      {
        PrefixRound(s0, res, k, prefix, projectID, Abs());
        var doc := res[k];
        var path := Field(doc.doc.meta, "path");
        if Under(path, prefix) {
          bm25.Remove(doc.id);
          var filter := PathFilter(path, projectID);
          collection := Unmatched(collection, filter);
        }
      }
      PrefixDone(s0, res, prefix, projectID, Abs());
    }

    /** Lines 689-709. */
    method SetStatus(projectID: string, status: string)
      requires Valid()
      modifies this`collection, this`parsedCache, bm25
      ensures bm25 == old(bm25)
      ensures Valid()
      ensures Step(DocTokens(env), old(Abs()), OpSetStatus(projectID, status), Abs())
    {
      DeleteByFilter(StatusFilter(projectID));
      Insert([StatusRecord(projectID, status)]);
    }

    /** Lines 542-565: the hash of some file_meta record for every path that has one. */
    method GetPathHashMapping(projectID: string) returns (mapping: map<string, string>)
      ensures forall path :: path in mapping ==> exists id ::
                id in Matching(collection, MetaFilter(projectID)) && IsHashOf(collection[id], path, mapping[path])
      ensures forall id :: id in Matching(collection, MetaFilter(projectID)) && "path" in collection[id].meta ==>
                collection[id].meta["path"] in mapping
    {
      mapping := map[];
      var res := QueryAll(collection, MetaFilter(projectID));
      for i := 0 to |res|
        invariant forall path :: path in mapping ==> exists id ::
                    id in Matching(collection, MetaFilter(projectID)) && IsHashOf(collection[id], path, mapping[path])
        invariant forall j :: 0 <= j < i && "path" in res[j].doc.meta ==> res[j].doc.meta["path"] in mapping
      {
        var r := res[i];
        if "path" in r.doc.meta {
          mapping := mapping[r.doc.meta["path"] := Field(r.doc.meta, "hash")];
          assert IsHashOf(collection[r.id], r.doc.meta["path"], Field(r.doc.meta, "hash"));
        }
      }
    }

    // ---------- searches ----------

    /** Lines 229-249: one query per project, or one for all of them. */
    method FetchPassing(projectIDs: seq<string>, category: string) returns (all: seq<Record>)
      ensures Fetched(collection, projectIDs, category, all)
      ensures forall r :: r in all ==> r.id in Passing(collection, projectIDs, category) && r.doc == collection[r.id]
      ensures DistinctStrings(projectIDs) ==> ListsPassing(collection, Passing(collection, projectIDs, category), all)
    {
      if |projectIDs| == 0 {
        all := QueryAll(collection, CategoryFilter(category));
      } else {
        all := [];
        for k := 0 to |projectIDs|
          invariant FetchedEach(collection, projectIDs[..k], category, all)
        {
          var res := QueryAll(collection, ProjectCategoryFilter(projectIDs[k], category));
          FetchedSnoc(collection, projectIDs, k, category, all, res);
          all := all + res;
        }
        assert projectIDs[..|projectIDs|] == projectIDs;
      }
      FetchedPasses(collection, projectIDs, category, all);
    }

    /** Lines 214-218. */
    static method ScoresById(results: seq<Result>, ghost cand: map<string, real>, ghost k: nat)
      returns (idSet: map<string, real>)
      requires IsTopK(results, cand, k)
      ensures idSet == Restrict(cand, SelectedIds(results))
    {
      idSet := map[];
      for i := 0 to |results|
        invariant forall id :: id in idSet <==> exists j :: 0 <= j < i && results[j].docID == id
        invariant forall id :: id in idSet ==> id in cand && idSet[id] == cand[id]
      {
        idSet := idSet[results[i].docID := results[i].score];
      }
      forall id ensures id in SelectedIds(results) <==> id in idSet {
        InSelectedIds(results, id);
      }
    }

    /** Lines 255-267. */
    static method MatchRecords(all: seq<Record>, idSet: map<string, real>) returns (matches: seq<ScoredRecord>)
      ensures matches == MatchesOf(all, idSet)
    {
      matches := [];
      for i := 0 to |all|
        invariant matches == MatchesOf(all[..i], idSet)
      {
        assert all[..i+1][..i] == all[..i];
        if all[i].id in idSet {
          matches := matches + [ScoredRecord(all[i], idSet[all[i].id])];
        }
      }
      assert all[..|all|] == all;
    }

    /** Lines 189-283. */
    method LexicalSearch(ln: real -> real, query: string, topK: int, projectIDs: seq<string>, category: string)
      returns (records: seq<Record>)
      requires Valid()
      ensures NoEmptyDoc(bm25.docs)
      ensures topK <= 0 ==> records == []
      ensures topK > 0 ==> SearchOutcome(collection, Scored(ln, bm25.docs, Tokens(env.u, query)),
                                         projectIDs, category, topK, records)
      ensures topK > 0 && Coherent(DocTokens(env), Abs()) && projectIDs == [] && category == "" ==>
                BestPassing(ScanScores(env, ln, collection, query), collection.Keys, topK, records)
    {
      if topK <= 0 {
        return [];
      }
      ghost var cand := Scored(ln, bm25.docs, Tokens(env.u, query));
      var count := |collection|;
      if count == 0 {
        NothingSelected(collection, cand, projectIDs, category, topK, []);
        IfCoherent(env, ln, Abs(), query, projectIDs, category, topK, []);
        return [];
      }
      var fetchK := count;
      if topK <= count / 3 {
        fetchK := topK * FETCH_MULTIPLIER;
      }
      var bm25Results := bm25.Search(ln, query, fetchK);
      if |bm25Results| == 0 {
        NothingSelected(collection, cand, projectIDs, category, topK, bm25Results);
        IfCoherent(env, ln, Abs(), query, projectIDs, category, topK, []);
        return [];
      }
      var idSet := ScoresById(bm25Results, cand, fetchK);
      var all := FetchPassing(projectIDs, category);
      var matches := MatchRecords(all, idSet);
      var best := SortAndCut(matches, topK);
      records := RecordsOf(best);
      OutcomeIntro(collection, cand, projectIDs, category, topK, bm25Results, all, best);
      IfCoherent(env, ln, Abs(), query, projectIDs, category, topK, records);
    }

    /** Lines 286-413, given the ranking the vector search returned for the expanded count. */
    method HybridSearch(ln: real -> real, query: string, vectorResults: seq<Record>, topK: int,
                        projectIDs: seq<string>, category: string, nums: Numbers)
      returns (final: seq<Record>, ghost lexicalResults: seq<Record>)
      requires Valid()
      ensures topK <= 0 ==> final == []
      ensures topK > 0 ==>
                && NoEmptyDoc(bm25.docs)
                && SearchOutcome(collection, Scored(ln, bm25.docs, Tokens(env.u, query)),
                                 projectIDs, category, if 2 * topK <= MAX_INT then 2 * topK else topK,
                                 lexicalResults)
      ensures topK > 0 ==>
                var score := FinalScore(vectorResults, lexicalResults, LexicalWeight(query), Boost(nums));
                && IsTopK(Ranked(final, score), Candidates(score, RecordMap(vectorResults + lexicalResults)), topK)
                && forall r :: r in final ==>
                    && Listed(vectorResults + lexicalResults, |vectorResults + lexicalResults|, r.id)
                    && r == LastRecord(vectorResults + lexicalResults, r.id)
    {
      lexicalResults := [];
      if topK <= 0 {
        return [], [];
      }
      var expandedTopK := if topK <= MAX_INT / 2 then topK * 2 else topK;
      assert expandedTopK == if 2 * topK <= MAX_INT then 2 * topK else topK;
      var lexical := LexicalSearch(ln, query, expandedTopK, projectIDs, category);
      lexicalResults := lexical;
      final := Rank(vectorResults, lexical, LexicalWeight(query), Boost(nums), topK);
    }
  }

  const MAX_INT := 0x7FFF_FFFF_FFFF_FFFF

  // ---------- metadata ----------

  function MetaFilter(projectID: string): Filter {
    map["project_id" := projectID, "type" := "file_meta"]
  }

  predicate IsHashOf(doc: Doc, path: string, hash: string) {
    "path" in doc.meta && doc.meta["path"] == path && Field(doc.meta, "hash") == hash
  }

  // ---------- text lemmas ----------

  lemma AppendFieldsSnoc(env: Env, done: seq<string>, v: string)
    ensures AppendFields(env, "", done + [v]) == AppendField(env, AppendFields(env, "", done), v)
  {
    assert (done + [v])[..|done|] == done;
  }

  lemma FixedFields(env: Env, f: seq<string>)
    requires |f| == 3
    ensures AppendFields(env, "", f) == AppendField(env, AppendField(env, AppendField(env, "", f[0]), f[1]), f[2])
  {
    AppendFieldsSnoc(env, f[..2], f[2]);
    AppendFieldsSnoc(env, f[..1], f[1]);
    AppendFieldsSnoc(env, f[..0], f[0]);
    assert f[..2] + [f[2]] == f && f[..1] + [f[1]] == f[..2] && f[..0] + [f[0]] == f[..1];
  }

  lemma AddAllSnoc(tok: Tokenizer, docs: Docs, batch: seq<Record>, i: nat)
    requires i < |batch|
    ensures AddAll(tok, docs, batch[..i+1]) == AddDoc(AddAll(tok, docs, batch[..i]), batch[i].id, tok(batch[i].doc))
  {
    assert batch[..i+1][..i] == batch[..i];
  }

  // ---------- what the loops have deleted ----------

  ghost function Drop(docs: Docs, id: string): Docs {
    docs - {id}
  }

  ghost function RemoveAll(docs: Docs, res: seq<Record>): Docs {
    if res == [] then docs else Drop(RemoveAll(docs, res[..|res|-1]), res[|res|-1].id)
  }

  lemma {:induction false} RemoveAllEntry(docs: Docs, res: seq<Record>, id: string)
    ensures id in RemoveAll(docs, res) <==> id in docs && !Returned(res, |res|, id)
    ensures id in RemoveAll(docs, res) ==> RemoveAll(docs, res)[id] == docs[id]
  {
    if res != [] {
      var prior := res[..|res|-1];
      RemoveAllEntry(docs, prior, id);
      assert Returned(res, |res|, id) <==> Returned(prior, |prior|, id) || id == res[|res|-1].id by {
        assert forall i :: 0 <= i < |prior| ==> prior[i] == res[i];
      }
    }
  }

  lemma RemovedListed(docs: Docs, col: Collection, filter: Filter, res: seq<Record>)
    requires ListsMatching(col, filter, res)
    ensures RemoveAll(docs, res) == docs - Matching(col, filter)
  {
    forall id ensures id in RemoveAll(docs, res) <==> id in docs - Matching(col, filter)
              ensures id in RemoveAll(docs, res) ==> RemoveAll(docs, res)[id] == docs[id]
    {
      RemoveAllEntry(docs, res, id);
    }
  }

  /** collection.Delete with a filter. */
  function Unmatched(col: Collection, filter: Filter): Collection {
    map id | id in col && !MatchesFilter(col[id], filter) :: col[id]
  }

  lemma FilteredOut(col: Collection, filter: Filter)
    ensures Unmatched(col, filter) == col - Matching(col, filter)
  {}

  lemma NothingDeleted(s: State)
    requires s.col == map[]
    ensures forall filter :: s == Deleted(s, Matching(s.col, filter))
    ensures forall prefix, pid :: s == Deleted(s, UnderPrefix(s.col, prefix, pid))
  {
    assert s.docs - {} == s.docs;
  }

  lemma NothingIndexed(tok: Tokenizer)
    ensures IndexOf(tok, map[]) == map[]
  {}

  /** Rebuilding from a listing of the whole collection gives the index of the collection. */
  lemma RebuiltIndex(tok: Tokenizer, col: Collection, res: seq<Record>)
    requires ListsMatching(col, map[], res)
    ensures AddAll(tok, map[], res) == IndexOf(tok, col)
  {
    var docs := AddAll(tok, map[], res);
    forall id ensures id in docs <==> id in IndexOf(tok, col)
              ensures id in docs ==> docs[id] == IndexOf(tok, col)[id]
    {
      AddAllEntry(tok, map[], res, id);
      if id in col {
        assert id in Matching(col, map[]);
        assert Returned(res, |res|, id);
      }
    }
    assert docs == IndexOf(tok, col);
  }

  // ---------- deletion by prefix ----------

  /** After `k` of the listed records: the index has lost the matching ones among them, the collection everything
      that shares a path with one of them. */
  ghost predicate MidPrefix(s0: State, res: seq<Record>, k: nat, prefix: string, pid: string, s: State) {
    && s.docs == s0.docs - Hit(res, k, prefix)
    && s.col == s0.col - SharesPath(s0.col, res, k, prefix, pid)
  }

  ghost function Hit(res: seq<Record>, k: nat, prefix: string): set<string> {
    set i | 0 <= i < k && i < |res| && Under(Field(res[i].doc.meta, "path"), prefix) :: res[i].id
  }

  ghost predicate PathSeen(res: seq<Record>, k: nat, path: string) {
    exists i :: 0 <= i < k && i < |res| && Field(res[i].doc.meta, "path") == path
  }

  ghost function SharesPath(col: Collection, res: seq<Record>, k: nat, prefix: string, pid: string): set<string> {
    set id | id in UnderPrefix(col, prefix, pid) && PathSeen(res, k, Field(col[id].meta, "path"))
  }

  lemma PrefixStart(s0: State, res: seq<Record>, prefix: string, pid: string)
    ensures MidPrefix(s0, res, 0, prefix, pid, s0)
  {
    assert SharesPath(s0.col, res, 0, prefix, pid) == {};
    assert Hit(res, 0, prefix) == {};
  }

  lemma PathSeenSnoc(res: seq<Record>, k: nat, p: string)
    requires k < |res|
    ensures PathSeen(res, k + 1, p) <==> PathSeen(res, k, p) || p == Field(res[k].doc.meta, "path")
  {}

  /** The records that share a path with the first k + 1 listed ones. */
  lemma SharesPathSnoc(col: Collection, res: seq<Record>, k: nat, prefix: string, pid: string, id: string)
    requires k < |res| && id in col
    ensures id in SharesPath(col, res, k + 1, prefix, pid) <==>
            || id in SharesPath(col, res, k, prefix, pid)
            || (Under(Field(res[k].doc.meta, "path"), prefix) &&
                MatchesFilter(col[id], PathFilter(Field(res[k].doc.meta, "path"), pid)))
  {
    PathSeenSnoc(res, k, Field(col[id].meta, "path"));
    PathFilterMeaning(col[id], Field(res[k].doc.meta, "path"), pid);
  }

  /** One round of the loop. */
  lemma PrefixRound(s0: State, res: seq<Record>, k: nat, prefix: string, pid: string, s: State)
    requires k < |res| && MidPrefix(s0, res, k, prefix, pid, s)
    ensures var path := Field(res[k].doc.meta, "path");
            MidPrefix(s0, res, k + 1, prefix, pid, if Under(path, prefix)
                      then PathDeleted(s, res[k].id, path, pid) else s)
  {
    var path := Field(res[k].doc.meta, "path");
    var after := SharesPath(s0.col, res, k + 1, prefix, pid);
    var s' := if Under(path, prefix) then PathDeleted(s, res[k].id, path, pid) else s;
    forall id | id in s0.col ensures id in s'.col <==> id !in after {
      SharesPathSnoc(s0.col, res, k, prefix, pid, id);
    }
    assert s'.col == s0.col - after;
    HitSnoc(s0.docs, res, k, prefix);
  }

  /** bm25.Remove of one record and Delete of its path. */
  ghost function PathDeleted(s: State, id: string, path: string, pid: string): State {
    State(map x | x in s.col && !MatchesFilter(s.col[x], PathFilter(path, pid)) :: s.col[x], s.docs - {id})
  }

  lemma HitSnoc(docs: Docs, res: seq<Record>, k: nat, prefix: string)
    requires k < |res|
    ensures docs - Hit(res, k + 1, prefix) ==
            if Under(Field(res[k].doc.meta, "path"), prefix) then docs - Hit(res, k, prefix) - {res[k].id}
            else docs - Hit(res, k, prefix)
  {
    if Under(Field(res[k].doc.meta, "path"), prefix) {
      assert Hit(res, k + 1, prefix) == Hit(res, k, prefix) + {res[k].id};
    } else {
      assert Hit(res, k + 1, prefix) == Hit(res, k, prefix);
    }
  }

  lemma PathFilterMeaning(doc: Doc, path: string, pid: string)
    ensures MatchesFilter(doc, PathFilter(path, pid)) <==>
            Field(doc.meta, "path") == path && Field(doc.meta, "project_id") == pid
  {
    assert "path" in PathFilter(path, pid) && "project_id" in PathFilter(path, pid);
  }

  /** When all listed records are done, exactly the records under the prefix are gone from both sides. */
  lemma PrefixDone(s0: State, res: seq<Record>, prefix: string, pid: string, s: State)
    requires ListsMatching(s0.col, ProjectFilter(pid), res)
    requires MidPrefix(s0, res, |res|, prefix, pid, s)
    ensures s == Deleted(s0, UnderPrefix(s0.col, prefix, pid))
  {
    var all := UnderPrefix(s0.col, prefix, pid);
    assert "project_id" in ProjectFilter(pid);
    forall id | id in all
      ensures id in Hit(res, |res|, prefix) && id in SharesPath(s0.col, res, |res|, prefix, pid)
    {
      assert id in Matching(s0.col, ProjectFilter(pid));
      assert Returned(res, |res|, id);
    }
    forall id | id in Hit(res, |res|, prefix) ensures id in all {
      var i :| 0 <= i < |res| && res[i].id == id && Under(Field(res[i].doc.meta, "path"), prefix);
      assert res[i].id in Matching(s0.col, ProjectFilter(pid));
    }
    assert Hit(res, |res|, prefix) == all;
    assert SharesPath(s0.col, res, |res|, prefix, pid) == all;
  }
}
