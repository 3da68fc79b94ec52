/** What a lexical search can return: the queries it puts to the collection, and the outcomes they allow
    (internal/db/store.go, lines 189-283). */
module LexicalQuery {
  import opened Ranking
  import opened StoreModel
  import opened SearchModel

  // ---------- results of collection queries ----------

  /** `res` holds every document that matches the filter once, in whatever order the similarity gave. */
  ghost predicate ListsMatching(col: Collection, filter: Filter, res: seq<Record>) {
    && (forall i :: 0 <= i < |res| ==> res[i].id in Matching(col, filter) && res[i].doc == col[res[i].id])
    && (forall i, j :: 0 <= i < j < |res| ==> res[i].id != res[j].id)
    && (forall id :: id in Matching(col, filter) ==> Returned(res, |res|, id))
  }

  /** `id` is among the first `n` records. */
  ghost predicate Returned(res: seq<Record>, n: nat, id: string) {
    exists i :: 0 <= i < n && i < |res| && res[i].id == id
  }

  // ---------- the queries of a search ----------

  ghost predicate DistinctStrings(s: seq<string>) {
    forall i, j :: 0 <= i < j < |s| ==> s[i] != s[j]
  }

  function CategoryFilter(category: string): Filter {
    if category != "" then map["category" := category] else map[]
  }

  function ProjectCategoryFilter(pid: string, category: string): Filter {
    CategoryFilter(category)["project_id" := pid]
  }

  /** `all` is what the queries of the listed projects return, one after the other. */
  ghost predicate FetchedEach(col: Collection, projectIDs: seq<string>, category: string, all: seq<Record>) {
    if projectIDs == [] then all == []
    else
      var n := |projectIDs| - 1;
      exists k :: 0 <= k <= |all| && FetchedEach(col, projectIDs[..n], category, all[..k]) &&
                  ListsMatching(col, ProjectCategoryFilter(projectIDs[n], category), all[k..])
  }

  /** Lines 229-249: one query per project, or one for all of them. */
  ghost predicate Fetched(col: Collection, projectIDs: seq<string>, category: string, all: seq<Record>) {
    if projectIDs == [] then ListsMatching(col, CategoryFilter(category), all)
    else FetchedEach(col, projectIDs, category, all)
  }

  lemma FetchedCons(col: Collection, projectIDs: seq<string>, category: string, all: seq<Record>, k: nat)
    requires projectIDs != [] && k <= |all|
    requires FetchedEach(col, projectIDs[..|projectIDs|-1], category, all[..k])
    requires ListsMatching(col, ProjectCategoryFilter(projectIDs[|projectIDs|-1], category), all[k..])
    ensures FetchedEach(col, projectIDs, category, all)
  {}

  lemma FetchedSnoc(col: Collection, projectIDs: seq<string>, k: nat, category: string, all: seq<Record>,
                    res: seq<Record>)
    requires k < |projectIDs| && FetchedEach(col, projectIDs[..k], category, all)
    requires ListsMatching(col, ProjectCategoryFilter(projectIDs[k], category), res)
    ensures FetchedEach(col, projectIDs[..k+1], category, all + res)
  {
    assert projectIDs[..k+1][..k] == projectIDs[..k];
    assert (all + res)[..|all|] == all && (all + res)[|all|..] == res;
    FetchedCons(col, projectIDs[..k+1], category, all + res, |all|);
  }

  lemma CategoryFilterMeaning(doc: Doc, category: string)
    ensures MatchesFilter(doc, CategoryFilter(category)) <==> Passes(doc, [], category)
  {}

  lemma ProjectCategoryMeaning(doc: Doc, pid: string, category: string)
    ensures MatchesFilter(doc, ProjectCategoryFilter(pid, category)) <==> Passes(doc, [pid], category)
  {
    var filter := ProjectCategoryFilter(pid, category);
    assert "project_id" in filter;
    if category != "" {
      assert "category" in filter;
    }
  }

  lemma WholeQuery(col: Collection, category: string, all: seq<Record>)
    requires ListsMatching(col, CategoryFilter(category), all)
    ensures ListsPassing(col, Passing(col, [], category), all)
  {
    forall id | id in col ensures id in Matching(col, CategoryFilter(category)) <==> id in Passing(col, [], category) {
      CategoryFilterMeaning(col[id], category);
    }
    assert forall id :: id in Passing(col, [], category) ==> Returned(all, |all|, id);
  }

  lemma ReturnedConcat(a: seq<Record>, b: seq<Record>, id: string)
    ensures Returned(a + b, |a + b|, id) <==> Returned(a, |a|, id) || Returned(b, |b|, id)
  {
    var all := a + b;
    if Returned(a, |a|, id) {
      var i :| 0 <= i < |a| && a[i].id == id;
      assert all[i].id == id;
    }
    if Returned(b, |b|, id) {
      var i :| 0 <= i < |b| && b[i].id == id;
      assert all[|a|+i].id == id;
    }
    if Returned(all, |all|, id) {
      var i :| 0 <= i < |all| && all[i].id == id;
      assert if i < |a| then a[i].id == id else b[i-|a|].id == id;
    }
  }

  /** What the queries of several projects have returned: the documents that pass, and each once unless a project
      is named twice. */
  ghost predicate ProjectsFetched(col: Collection, projectIDs: seq<string>, category: string, all: seq<Record>) {
    && (forall r :: r in all ==> FetchedFor(col, projectIDs, category, r.id) && r.doc == col[r.id])
    && (forall id :: FetchedFor(col, projectIDs, category, id) ==> Returned(all, |all|, id))
    && (DistinctStrings(projectIDs) ==> DistinctBy(all, RecordId))
  }

  ghost predicate FetchedFor(col: Collection, projectIDs: seq<string>, category: string, id: string) {
    && id in col && Field(col[id].meta, "project_id") in projectIDs
    && (category != "" ==> Field(col[id].meta, "category") == category)
  }

  lemma FetchedUncons(col: Collection, projectIDs: seq<string>, category: string, all: seq<Record>) returns (k: nat)
    requires projectIDs != [] && FetchedEach(col, projectIDs, category, all)
    ensures k <= |all| && FetchedEach(col, projectIDs[..|projectIDs|-1], category, all[..k])
    ensures ListsMatching(col, ProjectCategoryFilter(projectIDs[|projectIDs|-1], category), all[k..])
  {
    var n := |projectIDs| - 1;
    k :| 0 <= k <= |all| && FetchedEach(col, projectIDs[..n], category, all[..k]) &&
         ListsMatching(col, ProjectCategoryFilter(projectIDs[n], category), all[k..]);
  }

  lemma {:induction false} FetchedEachMeaning(col: Collection, projectIDs: seq<string>, category: string,
                                              all: seq<Record>)
    requires FetchedEach(col, projectIDs, category, all)
    ensures ProjectsFetched(col, projectIDs, category, all)
  {
    if projectIDs != [] {
      var n := |projectIDs| - 1;
      var k := FetchedUncons(col, projectIDs, category, all);
      FetchedEachMeaning(col, projectIDs[..n], category, all[..k]);
      ProjectFetched(col, projectIDs[..n], category, all[..k], projectIDs[n], all[k..]);
      assert projectIDs[..n] + [projectIDs[n]] == projectIDs;
      assert all[..k] + all[k..] == all;
    }
  }

  lemma ProjectFetched(col: Collection, projectIDs: seq<string>, category: string, all: seq<Record>, pid: string,
                       res: seq<Record>)
    requires ProjectsFetched(col, projectIDs, category, all)
    requires ListsMatching(col, ProjectCategoryFilter(pid, category), res)
    ensures ProjectsFetched(col, projectIDs + [pid], category, all + res)
  {
    var filter := ProjectCategoryFilter(pid, category);
    forall id ensures FetchedFor(col, projectIDs + [pid], category, id) <==>
                      FetchedFor(col, projectIDs, category, id) || id in Matching(col, filter)
    {
      if id in col {
        ProjectCategoryMeaning(col[id], pid, category);
      }
    }
    forall r | r in all + res ensures FetchedFor(col, projectIDs + [pid], category, r.id) && r.doc == col[r.id] {
      if r !in all {
        var i :| 0 <= i < |res| && res[i] == r;
        assert res[i].id in Matching(col, filter);
      }
    }
    forall id | FetchedFor(col, projectIDs + [pid], category, id) ensures Returned(all + res, |all + res|, id) {
      ReturnedConcat(all, res, id);
    }
    if DistinctStrings(projectIDs + [pid]) {
      var pids, n := projectIDs + [pid], |projectIDs|;
      assert pids[..n] == projectIDs && pids[n] == pid;
      assert forall i :: 0 <= i < n ==> projectIDs[i] == pids[i] != pid;
      ProjectsDisjoint(col, projectIDs, category, all, pid, res);
    }
  }

  /** Different projects have different records. */
  lemma ProjectsDisjoint(col: Collection, projectIDs: seq<string>, category: string, all: seq<Record>, pid: string,
                         res: seq<Record>)
    requires ProjectsFetched(col, projectIDs, category, all) && DistinctBy(all, RecordId) && pid !in projectIDs
    requires ListsMatching(col, ProjectCategoryFilter(pid, category), res)
    ensures DistinctBy(all + res, RecordId)
  {
    forall i, j | 0 <= i < |all| && 0 <= j < |res| ensures RecordId(all[i]) != RecordId(res[j]) {
      assert all[i] in all;
      ProjectCategoryMeaning(col[res[j].id], pid, category);
    }
  }

  /** Every record that passes the filters is fetched, nothing else is, and each once unless a project is named
      twice. */
  lemma FetchedPasses(col: Collection, projectIDs: seq<string>, category: string, all: seq<Record>)
    requires Fetched(col, projectIDs, category, all)
    ensures forall r :: r in all ==> r.id in Passing(col, projectIDs, category) && r.doc == col[r.id]
    ensures DistinctStrings(projectIDs) ==> ListsPassing(col, Passing(col, projectIDs, category), all)
  {
    if projectIDs == [] {
      WholeQuery(col, category, all);
    } else {
      FetchedEachMeaning(col, projectIDs, category, all);
      assert forall id :: id in Passing(col, projectIDs, category) ==> Returned(all, |all|, id);
    }
  }

  // ---------- outcomes ----------

  /** The records `records` are what a search may return that scores the documents by `cand`: some best `FetchK`
      candidates are fetched, the queries list the documents that pass, and of those that were fetched the first
      `topK` of some best-first order are returned. */
  ghost predicate SearchOutcome(col: Collection, cand: map<string, real>, projectIDs: seq<string>, category: string,
                                topK: nat, records: seq<Record>) {
    exists fetched :: IsTopK(fetched, cand, FetchK(topK, |col|)) &&
                      SelectedFrom(col, cand, projectIDs, category, topK, fetched, records)
  }

  ghost predicate SelectedFrom(col: Collection, cand: map<string, real>, projectIDs: seq<string>, category: string,
                               topK: nat, fetched: seq<Result>, records: seq<Record>) {
    || (fetched == [] && records == [])
    || exists all, rs :: Fetched(col, projectIDs, category, all) && records == RecordsOf(rs) &&
                         BestOf(rs, MatchesOf(all, Restrict(cand, SelectedIds(fetched))), topK)
  }

  lemma OutcomeIntro(col: Collection, cand: map<string, real>, projectIDs: seq<string>, category: string, topK: nat,
                     fetched: seq<Result>, all: seq<Record>, rs: seq<ScoredRecord>)
    requires IsTopK(fetched, cand, FetchK(topK, |col|)) && Fetched(col, projectIDs, category, all)
    requires BestOf(rs, MatchesOf(all, Restrict(cand, SelectedIds(fetched))), topK)
    ensures SearchOutcome(col, cand, projectIDs, category, topK, RecordsOf(rs))
  {
    assert SelectedFrom(col, cand, projectIDs, category, topK, fetched, RecordsOf(rs));
  }

  lemma NothingSelected(col: Collection, cand: map<string, real>, projectIDs: seq<string>, category: string,
                        topK: nat, fetched: seq<Result>)
    requires fetched == [] && (col == map[] || IsTopK(fetched, cand, FetchK(topK, |col|)))
    ensures SearchOutcome(col, cand, projectIDs, category, topK, [])
  {
    assert IsTopK(fetched, cand, FetchK(topK, |col|));
    assert SelectedFrom(col, cand, projectIDs, category, topK, fetched, []);
  }

  /** If no project is named twice, every outcome is the best of the fetched candidates that pass. */
  lemma OutcomeIsLexicalResult(col: Collection, cand: map<string, real>, projectIDs: seq<string>, category: string,
                               topK: nat, records: seq<Record>)
    requires DistinctStrings(projectIDs) && SearchOutcome(col, cand, projectIDs, category, topK, records)
    ensures LexicalResult(col, cand, Passing(col, projectIDs, category), topK, records)
  {
    var fetched :| IsTopK(fetched, cand, FetchK(topK, |col|)) &&
                   SelectedFrom(col, cand, projectIDs, category, topK, fetched, records);
    var passing := Passing(col, projectIDs, category);
    if fetched == [] && records == [] {
      NothingFound(col, cand, passing, topK, fetched);
    } else {
      var all, rs :| Fetched(col, projectIDs, category, all) && records == RecordsOf(rs) &&
                     BestOf(rs, MatchesOf(all, Restrict(cand, SelectedIds(fetched))), topK);
      FetchedPasses(col, projectIDs, category, all);
      LexicalResultIntro(col, cand, passing, topK, fetched, all, rs);
    }
  }
}
