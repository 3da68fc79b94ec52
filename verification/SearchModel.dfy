/** Selection over selection: what LexicalSearch returns when it ranks, filters and cuts
    (internal/db/store.go, lines 188-283). */
module SearchModel {
  import opened Ranking
  import opened StoreModel

  const FETCH_MULTIPLIER := 3

  /** How many index results are fetched before filtering (lines 202-205). */
  function FetchK(topK: nat, count: nat): nat {
    if topK <= count / 3 then topK * FETCH_MULTIPLIER else count
  }

  lemma FetchKEnough(topK: nat, count: nat)
    ensures Min(topK, count) <= FetchK(topK, count) <= count
  {}

  /** The project and category filters of a search; an empty list or category filters nothing. */
  predicate Passes(doc: Doc, projectIDs: seq<string>, category: string) {
    && (projectIDs != [] ==> Field(doc.meta, "project_id") in projectIDs)
    && (category != "" ==> Field(doc.meta, "category") == category)
  }

  function Passing(col: Collection, projectIDs: seq<string>, category: string): set<string> {
    set id | id in col && Passes(col[id], projectIDs, category)
  }

  ghost function Restrict(cand: map<string, real>, ids: set<string>): map<string, real> {
    map id | id in cand && id in ids :: cand[id]
  }

  ghost function SelectedIds(rs: seq<Result>): set<string> {
    set i | 0 <= i < |rs| :: rs[i].docID
  }

  lemma InSelectedIds(rs: seq<Result>, id: string)
    ensures id in SelectedIds(rs) <==> Selected(rs, id)
  {}

  /** The candidates that are left to choose from after the fetch `fetched` and the filters. */
  ghost function Survivors(cand: map<string, real>, fetched: seq<Result>, passing: set<string>): map<string, real> {
    Restrict(cand, SelectedIds(fetched) * passing)
  }

  // ---------- sizes ----------

  lemma SubmapSize(small: map<string, real>, large: map<string, real>)
    requires small.Keys <= large.Keys
    ensures |small| <= |large|
    ensures |small| == |large| ==> small.Keys == large.Keys
  {
    var rest := large.Keys - small.Keys;
    assert large.Keys == small.Keys + rest;
    assert |small.Keys + rest| == |small.Keys| + |rest|;
    if |rest| == 0 {
      assert rest == {};
    }
  }

  /** A top-k selection of all candidates selects all of them. */
  lemma {:induction false} DistinctIdsSize(rs: seq<Result>)
    requires DistinctIds(rs)
    ensures |SelectedIds(rs)| == |rs|
  {
    if rs != [] {
      var n := |rs| - 1;
      DistinctIdsSize(rs[..n]);
      InSelectedIds(rs[..n], rs[n].docID);
      assert SelectedIds(rs) == SelectedIds(rs[..n]) + {rs[n].docID};
    }
  }

  lemma FullSelection(rs: seq<Result>, cand: map<string, real>, k: nat)
    requires IsTopK(rs, cand, k) && k >= |cand|
    ensures SelectedIds(rs) == cand.Keys
  {
    DistinctIdsSize(rs);
    assert SelectedIds(rs) <= cand.Keys;
    var rest := cand.Keys - SelectedIds(rs);
    assert cand.Keys == SelectedIds(rs) + rest;
    assert |SelectedIds(rs) + rest| == |SelectedIds(rs)| + |rest|;
    assert rest == {};
  }

  // ---------- choosing the best of a fetched selection ----------

  /** Cutting the filtered part of a fetched selection gives the best of all filtered candidates exactly when the
      fetch left enough of them to choose from. */
  lemma SearchExactIff(cand: map<string, real>, fetched: seq<Result>, f: nat, passing: set<string>, topK: nat,
                       rs: seq<Result>)
    requires IsTopK(fetched, cand, f)
    requires IsTopK(rs, Survivors(cand, fetched, passing), topK)
    ensures IsTopK(rs, Restrict(cand, passing), topK) <==>
            |Survivors(cand, fetched, passing)| >= Min(topK, |Restrict(cand, passing)|)
  {
    var left, wanted := Survivors(cand, fetched, passing), Restrict(cand, passing);
    SubmapSize(left, wanted);
    if |left| >= Min(topK, |wanted|) {
      forall id | id in wanted && !Selected(rs, id)
        ensures forall i :: 0 <= i < |rs| ==> wanted[id] <= rs[i].score
      {
        InSelectedIds(fetched, id);
        if id !in left {
          forall i | 0 <= i < |rs| ensures wanted[id] <= rs[i].score {
            InSelectedIds(fetched, rs[i].docID);
            var j :| 0 <= j < |fetched| && fetched[j].docID == rs[i].docID;
            assert cand[id] <= fetched[j].score;
          }
        }
      }
    }
  }

  /** Without filters the search is exact: the multiplier never fetches too little. */
  lemma UnfilteredSearchExact(cand: map<string, real>, fetched: seq<Result>, count: nat, passing: set<string>,
                              topK: nat, rs: seq<Result>)
    requires |cand| <= count && cand.Keys <= passing
    requires IsTopK(fetched, cand, FetchK(topK, count))
    requires IsTopK(rs, Survivors(cand, fetched, passing), topK)
    ensures IsTopK(rs, cand, topK)
  {
    FetchKEnough(topK, count);
    assert Restrict(cand, passing) == cand;
    var left := Survivors(cand, fetched, passing);
    forall id ensures id in left <==> id in SelectedIds(fetched) {
      InSelectedIds(fetched, id);
    }
    assert left.Keys == SelectedIds(fetched);
    DistinctIdsSize(fetched);
    SearchExactIff(cand, fetched, FetchK(topK, count), passing, topK, rs);
  }

  /** With filters it is exact whenever the caller asks for at least a third of the collection. */
  lemma LargeSearchExact(cand: map<string, real>, fetched: seq<Result>, count: nat, passing: set<string>, topK: nat,
                         rs: seq<Result>)
    requires |cand| <= count && 3 * topK >= count
    requires IsTopK(fetched, cand, FetchK(topK, count))
    requires IsTopK(rs, Survivors(cand, fetched, passing), topK)
    ensures IsTopK(rs, Restrict(cand, passing), topK)
  {
    FullSelection(fetched, cand, FetchK(topK, count));
    assert Survivors(cand, fetched, passing) == Restrict(cand, passing);
  }

  /** When no fetched document passes the filters the search finds nothing, whatever else would have passed. */
  lemma Starved(cand: map<string, real>, fetched: seq<Result>, passing: set<string>, topK: nat, id: string)
    requires topK > 0 && id in cand && id in passing
    requires forall r :: r in fetched ==> r.docID !in passing
    ensures IsTopK([], Survivors(cand, fetched, passing), topK)
    ensures !IsTopK([], Restrict(cand, passing), topK)
  {
    forall x ensures x !in Survivors(cand, fetched, passing) {
      InSelectedIds(fetched, x);
    }
    assert id in Restrict(cand, passing);
  }

  // ---------- sort and cut ----------

  datatype ScoredRecord = ScoredRecord(rec: Record, score: real)

  function ScoreOf(s: ScoredRecord): real {
    s.score
  }

  function RecId(s: ScoredRecord): string {
    s.rec.id
  }

  function Results(ms: seq<ScoredRecord>): seq<Result> {
    seq(|ms|, i requires 0 <= i < |ms| => Result(ms[i].rec.id, ms[i].score))
  }

  ghost predicate HasId(ms: seq<ScoredRecord>, id: string) {
    exists i :: 0 <= i < |ms| && ms[i].rec.id == id
  }

  lemma HasIdSnoc(ms: seq<ScoredRecord>, m: ScoredRecord, id: string)
    ensures HasId(ms + [m], id) <==> HasId(ms, id) || id == m.rec.id
  {
    var all := ms + [m];
    assert all[|ms|] == m;
    if HasId(ms, id) {
      var i :| 0 <= i < |ms| && ms[i].rec.id == id;
      assert all[i] == ms[i];
    }
  }

  /** `ms` has each candidate once, with its score and its record. */
  ghost predicate Scores(ms: seq<ScoredRecord>, cand: map<string, real>, record: map<string, Record>) {
    && DistinctBy(ms, RecId)
    && (forall m :: m in ms ==>
        m.rec.id in cand && m.rec.id in record && m.score == cand[m.rec.id] && m.rec == record[m.rec.id])
    && (forall id :: id in cand ==> HasId(ms, id))
  }

  lemma ScoresList(ms: seq<ScoredRecord>, cand: map<string, real>, record: map<string, Record>)
    requires Scores(ms, cand, record)
    ensures Lists(Results(ms), cand)
  {
    var rs := Results(ms);
    forall i, j | 0 <= i < j < |rs| ensures rs[i].docID != rs[j].docID {
      assert RecId(ms[i]) != RecId(ms[j]);
    }
    forall id | id in cand ensures Selected(rs, id) {
      var i :| 0 <= i < |ms| && ms[i].rec.id == id;
      assert rs[i].docID == id;
    }
    forall i | 0 <= i < |rs| ensures rs[i].docID in cand && rs[i].score == cand[rs[i].docID] {
      assert ms[i] in ms;
    }
    ListsIntro(rs, cand);
  }

  lemma ScoresPermuted(ms: seq<ScoredRecord>, sorted: seq<ScoredRecord>, cand: map<string, real>,
                       record: map<string, Record>)
    requires Scores(ms, cand, record) && Permutation(sorted, ms)
    ensures Scores(sorted, cand, record)
  {
    PermutationKeepsDistinct(ms, sorted, RecId);
    forall id | id in cand ensures HasId(sorted, id) {
      var i :| 0 <= i < |ms| && ms[i].rec.id == id;
      assert ms[i] in sorted;
      var k :| 0 <= k < |sorted| && sorted[k] == ms[i];
    }
  }

  lemma ResultsPrefix(ms: seq<ScoredRecord>, n: nat)
    requires n <= |ms|
    ensures Results(ms[..n]) == Results(ms)[..n]
  {}

  lemma CutOfSorted(sorted: seq<ScoredRecord>, topK: nat, n: nat, cand: map<string, real>, record: map<string, Record>)
    requires Scores(sorted, cand, record) && DescendingBy(sorted, ScoreOf)
    requires n == if |sorted| > topK then topK else |sorted|
    ensures IsTopK(Results(sorted[..n]), cand, topK)
  {
    ScoresList(sorted, cand, record);
    ListsFacts(Results(sorted), cand);
    TopKOfSorted(Results(sorted), cand, topK, n);
    ResultsPrefix(sorted, n);
  }

  /** `rs` is the front of some descending ordering of `ms`. */
  ghost predicate BestOf(rs: seq<ScoredRecord>, ms: seq<ScoredRecord>, topK: nat) {
    exists sorted: seq<ScoredRecord> :: Permutation(sorted, ms) && DescendingBy(sorted, ScoreOf) &&
        rs == Cut(sorted, topK)
  }

  function Cut(sorted: seq<ScoredRecord>, topK: nat): seq<ScoredRecord> {
    if |sorted| > topK then sorted[..topK] else sorted
  }

  /** Sort the scored records best first and keep `topK` of them (lines 270-281 and 402-410). */
  method SortAndCut(ms: seq<ScoredRecord>, topK: nat) returns (rs: seq<ScoredRecord>)
    ensures BestOf(rs, ms, topK)
  {
    var sorted := SortSlice(ms, ScoreOf);
    rs := Cut(sorted, topK);
  }

  lemma BestOfScores(rs: seq<ScoredRecord>, ms: seq<ScoredRecord>, topK: nat, cand: map<string, real>,
                     record: map<string, Record>)
    requires BestOf(rs, ms, topK) && Scores(ms, cand, record)
    ensures IsTopK(Results(rs), cand, topK)
    ensures forall m :: m in rs ==>
            m.rec.id in record && m.rec == record[m.rec.id] && m.rec.id in cand && m.score == cand[m.rec.id]
  {
    var sorted: seq<ScoredRecord> :| Permutation(sorted, ms) && DescendingBy(sorted, ScoreOf) &&
        rs == Cut(sorted, topK);
    ScoresPermuted(ms, sorted, cand, record);
    var n := if |sorted| > topK then topK else |sorted|;
    assert rs == sorted[..n];
    CutOfSorted(sorted, topK, n, cand, record);
    assert forall m :: m in rs ==> m in sorted;
  }

  function RecordsOf(ms: seq<ScoredRecord>): seq<Record> {
    seq(|ms|, i requires 0 <= i < |ms| => ms[i].rec)
  }

  // ---------- the result of a lexical search ----------

  /** `all` holds each document of `passing` once. */
  ghost predicate ListsPassing(col: Collection, passing: set<string>, all: seq<Record>) {
    && DistinctBy(all, RecordId)
    && (forall r :: r in all ==> r.id in passing && r.id in col && r.doc == col[r.id])
    && (forall id :: id in passing ==> exists i :: 0 <= i < |all| && all[i].id == id)
  }

  function RecordId(r: Record): string {
    r.id
  }

  /** The records that were fetched, with the scores of the fetch (lines 255-267). */
  function MatchesOf(all: seq<Record>, idSet: map<string, real>): seq<ScoredRecord> {
    if all == [] then []
    else
      var rest := MatchesOf(all[..|all|-1], idSet);
      var r := all[|all|-1];
      if r.id in idSet then rest + [ScoredRecord(r, idSet[r.id])] else rest
  }

  lemma {:induction false} MatchesOfFacts(all: seq<Record>, idSet: map<string, real>)
    ensures forall m :: m in MatchesOf(all, idSet) ==> m.rec in all && m.rec.id in idSet && m.score == idSet[m.rec.id]
    ensures forall id :: HasId(MatchesOf(all, idSet), id) <==>
            id in idSet && exists i :: 0 <= i < |all| && all[i].id == id
  {
    if all != [] {
      var n := |all| - 1;
      MatchesOfFacts(all[..n], idSet);
      var rest := MatchesOf(all[..n], idSet);
      forall id
        ensures HasId(MatchesOf(all, idSet), id) <==> id in idSet && exists i :: 0 <= i < |all| && all[i].id == id
      {
        if all[n].id in idSet {
          HasIdSnoc(rest, ScoredRecord(all[n], idSet[all[n].id]), id);
        }
        assert (exists i :: 0 <= i < |all| && all[i].id == id) <==>
               (exists i :: 0 <= i < n && all[..n][i].id == id) || all[n].id == id by {
          assert forall i :: 0 <= i < n ==> all[..n][i] == all[i];
        }
      }
    }
  }

  lemma {:induction false} MatchesOfDistinct(all: seq<Record>, idSet: map<string, real>)
    requires DistinctBy(all, RecordId)
    ensures DistinctBy(MatchesOf(all, idSet), RecId)
  {
    if all != [] {
      var n := |all| - 1;
      MatchesOfDistinct(all[..n], idSet);
      MatchesOfFacts(all[..n], idSet);
      if all[n].id in idSet {
        assert !HasId(MatchesOf(all[..n], idSet), all[n].id) by {
          assert forall i :: 0 <= i < n ==> RecordId(all[..n][i]) != RecordId(all[n]);
        }
      }
    }
  }

  ghost function CollectionRecords(col: Collection): map<string, Record> {
    map id | id in col :: Record(id, col[id])
  }

  /** What ranking the fetched and filtered records chooses from. */
  lemma MatchesScored(col: Collection, passing: set<string>, all: seq<Record>, cand: map<string, real>,
                      fetched: seq<Result>)
    requires ListsPassing(col, passing, all)
    ensures Scores(MatchesOf(all, Restrict(cand, SelectedIds(fetched))), Survivors(cand, fetched, passing),
                   CollectionRecords(col))
  {
    var idSet := Restrict(cand, SelectedIds(fetched));
    MatchesOfFacts(all, idSet);
    MatchesOfDistinct(all, idSet);
  }

  ghost function RankedBy(records: seq<Record>, cand: map<string, real>): seq<Result>
    requires forall r :: r in records ==> r.id in cand
  {
    seq(|records|, i requires 0 <= i < |records| => Result(records[i].id, cand[records[i].id]))
  }

  /** What a lexical search returns: some best `FetchK` candidates were fetched, and of those that pass the filters the
      best `topK` are returned, as they are in the collection. */
  ghost predicate LexicalResult(col: Collection, cand: map<string, real>, passing: set<string>, topK: nat,
                                records: seq<Record>) {
    && (forall r :: r in records ==> r.id in cand && r.id in col && r.doc == col[r.id])
    && exists fetched :: IsTopK(fetched, cand, FetchK(topK, |col|)) &&
                         IsTopK(RankedBy(records, cand), Survivors(cand, fetched, passing), topK)
  }

  lemma LexicalResultIntro(col: Collection, cand: map<string, real>, passing: set<string>, topK: nat,
                           fetched: seq<Result>, all: seq<Record>, rs: seq<ScoredRecord>)
    requires IsTopK(fetched, cand, FetchK(topK, |col|)) && ListsPassing(col, passing, all)
    requires BestOf(rs, MatchesOf(all, Restrict(cand, SelectedIds(fetched))), topK)
    ensures LexicalResult(col, cand, passing, topK, RecordsOf(rs))
  {
    var left := Survivors(cand, fetched, passing);
    MatchesScored(col, passing, all, cand, fetched);
    BestOfScores(rs, MatchesOf(all, Restrict(cand, SelectedIds(fetched))), topK, left, CollectionRecords(col));
    RecordsOfMembers(rs);
    RankedByIsResults(rs, cand);
  }

  /** Nothing was fetched: the result is empty. */
  lemma NothingFound(col: Collection, cand: map<string, real>, passing: set<string>, topK: nat, fetched: seq<Result>)
    requires fetched == [] && (col == map[] || IsTopK(fetched, cand, FetchK(topK, |col|)))
    ensures LexicalResult(col, cand, passing, topK, [])
  {
    forall id ensures id !in Survivors(cand, fetched, passing) {
      InSelectedIds(fetched, id);
    }
    assert IsTopK(fetched, cand, FetchK(topK, |col|));
    assert RankedBy([], cand) == [];
  }

  lemma RecordsOfMembers(rs: seq<ScoredRecord>)
    ensures forall r :: r in RecordsOf(rs) ==> exists m :: m in rs && m.rec == r
  {
    forall r | r in RecordsOf(rs) ensures exists m :: m in rs && m.rec == r {
      var i :| 0 <= i < |rs| && rs[i].rec == r;
      assert rs[i] in rs;
    }
  }

  lemma RankedByIsResults(rs: seq<ScoredRecord>, cand: map<string, real>)
    requires forall m :: m in rs ==> m.rec.id in cand && m.score == cand[m.rec.id]
    ensures forall r :: r in RecordsOf(rs) ==> r.id in cand
    ensures RankedBy(RecordsOf(rs), cand) == Results(rs)
  {
    forall i | 0 <= i < |rs| ensures rs[i].rec.id in cand && rs[i].score == cand[rs[i].rec.id] {
      assert rs[i] in rs;
    }
  }

  /** An unfiltered search returns the best matches of the whole collection. */
  lemma UnfilteredLexicalResult(col: Collection, cand: map<string, real>, topK: nat, records: seq<Record>)
    requires cand.Keys <= col.Keys && LexicalResult(col, cand, Passing(col, [], ""), topK, records)
    ensures IsTopK(RankedBy(records, cand), cand, topK)
  {
    var fetched :| IsTopK(fetched, cand, FetchK(topK, |col|)) &&
                   IsTopK(RankedBy(records, cand), Survivors(cand, fetched, Passing(col, [], "")), topK);
    KeysSize(cand, col);
    UnfilteredSearchExact(cand, fetched, |col|, Passing(col, [], ""), topK, RankedBy(records, cand));
  }

  /** A filtered search for at least a third of the collection returns the best of the matches that pass. */
  lemma LargeLexicalResult(col: Collection, cand: map<string, real>, passing: set<string>, topK: nat,
                           records: seq<Record>)
    requires cand.Keys <= col.Keys && 3 * topK >= |col|
    requires LexicalResult(col, cand, passing, topK, records)
    ensures IsTopK(RankedBy(records, cand), Restrict(cand, passing), topK)
  {
    var fetched :| IsTopK(fetched, cand, FetchK(topK, |col|)) &&
                   IsTopK(RankedBy(records, cand), Survivors(cand, fetched, passing), topK);
    KeysSize(cand, col);
    LargeSearchExact(cand, fetched, |col|, passing, topK, RankedBy(records, cand));
  }

  lemma KeysSize<T>(small: map<string, real>, large: map<string, T>)
    requires small.Keys <= large.Keys
    ensures |small| <= |large|
  {
    assert large.Keys == small.Keys + (large.Keys - small.Keys);
    assert |small.Keys + (large.Keys - small.Keys)| == |small.Keys| + |large.Keys - small.Keys|;
  }
}
