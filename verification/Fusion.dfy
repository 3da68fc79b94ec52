/** Reciprocal rank fusion of the vector and lexical rankings (internal/db/store.go, lines 331-413 and 743-747). */
module Fusion {
  import opened Ranking
  import opened StoreModel
  import opened SearchModel
  import opened Wrappers

  const RRF_K: real := 60.0

  // ---------- the fused score ----------

  /** What one appearance at position `i` of a list is worth. */
  function RankScore(w: real, i: nat): real {
    w * (1.0 / (RRF_K + (i + 1) as real))
  }

  /** The sum over all appearances of `id` among the first `n` records of a list. */
  function Rrf(list: seq<Record>, w: real, id: string, n: nat): real
    requires n <= |list|
  {
    if n == 0 then 0.0
    else if list[n-1].id == id then Rrf(list, w, id, n - 1) + RankScore(w, n - 1)
    else Rrf(list, w, id, n - 1)
  }

  function FusedScore(v: seq<Record>, l: seq<Record>, w: real, id: string): real {
    Rrf(v, 1.0, id, |v|) + Rrf(l, w, id, |l|)
  }

  /** The fused score as a function of the ID, and the boosted one as a function of the record. What is said about
      ranking holds for any such functions. */
  function Fused(v: seq<Record>, l: seq<Record>, w: real): string -> real {
    id => FusedScore(v, l, w, id)
  }

  function Boosted(fused: string -> real, boost: Record -> real): Record -> real {
    (r: Record) => fused(r.id) * boost(r)
  }

  function FinalScore(v: seq<Record>, l: seq<Record>, w: real, boost: Record -> real): Record -> real {
    Boosted(Fused(v, l, w), boost)
  }

  /** The IDs of the first `n` records. */
  ghost predicate Listed(list: seq<Record>, n: nat, id: string) {
    exists i :: 0 <= i < n && i < |list| && list[i].id == id
  }

  /** The record kept for an ID: its last one, the lexical list coming after the vector list. */
  ghost function LastRecord(list: seq<Record>, id: string): (r: Record)
    requires Listed(list, |list|, id)
    ensures r.id == id && r in list
  {
    if list[|list|-1].id == id then list[|list|-1]
    else
      assert forall i :: 0 <= i < |list| - 1 ==> list[..|list|-1][i] == list[i];
      LastRecord(list[..|list|-1], id)
  }

  ghost function RecordMap(list: seq<Record>): map<string, Record> {
    if list == [] then map[] else RecordMap(list[..|list|-1])[list[|list|-1].id := list[|list|-1]]
  }

  lemma {:induction false} RecordMapEntry(list: seq<Record>, id: string)
    ensures id in RecordMap(list) <==> Listed(list, |list|, id)
    ensures id in RecordMap(list) ==> RecordMap(list)[id] == LastRecord(list, id)
  {
    if list != [] {
      var prior := list[..|list|-1];
      RecordMapEntry(prior, id);
      assert forall i :: 0 <= i < |prior| ==> prior[i] == list[i];
      assert Listed(list, |list|, id) <==> Listed(prior, |prior|, id) || id == list[|list|-1].id;
    }
  }

  /** The final score of every ID that has a record. */
  ghost function Candidates(score: Record -> real, records: map<string, Record>): map<string, real> {
    map id | id in records :: score(records[id])
  }

  /** The returned records with their final scores. */
  ghost function Ranked(final: seq<Record>, score: Record -> real): seq<Result> {
    seq(|final|, i requires 0 <= i < |final| => Result(final[i].id, score(final[i])))
  }

  // ---------- the loops ----------

  /** The score map while the lists are being read: one entry per ID seen so far. */
  ghost predicate PartialScores(v: seq<Record>, i: nat, l: seq<Record>, j: nat, w: real,
                                scores: map<string, real>, records: map<string, Record>)
    requires i <= |v| && j <= |l|
  {
    && scores.Keys == records.Keys
    && records == RecordMap(v[..i] + l[..j])
    && forall id :: Total(scores, id) == Rrf(v, 1.0, id, i) + Rrf(l, w, id, j)
  }

  function Total(scores: map<string, real>, id: string): real {
    if id in scores then scores[id] else 0.0
  }

  lemma VectorStep(v: seq<Record>, i: nat, l: seq<Record>, w: real, scores: map<string, real>,
                   records: map<string, Record>)
    requires i < |v| && PartialScores(v, i, l, 0, w, scores, records)
    ensures PartialScores(v, i + 1, l, 0, w, scores[v[i].id := Total(scores, v[i].id) + RankScore(1.0, i)],
                          records[v[i].id := v[i]])
  {
    assert v[..i+1] + l[..0] == v[..i] + l[..0] + [v[i]];
  }

  lemma LexicalStep(v: seq<Record>, l: seq<Record>, j: nat, w: real, scores: map<string, real>,
                    records: map<string, Record>)
    requires j < |l| && PartialScores(v, |v|, l, j, w, scores, records)
    ensures PartialScores(v, |v|, l, j + 1, w, scores[l[j].id := Total(scores, l[j].id) + RankScore(w, j)],
                          records[l[j].id := l[j]])
  {
    assert v[..|v|] + l[..j+1] == v[..|v|] + l[..j] + [l[j]];
  }

  /** Lines 342-353. */
  method Fuse(v: seq<Record>, l: seq<Record>, w: real) returns (scores: map<string, real>, records: map<string, Record>)
    ensures records == RecordMap(v + l)
    ensures scores.Keys == records.Keys
    ensures forall id :: id in scores ==> scores[id] == Fused(v, l, w)(id)
  {
    scores, records := map[], map[];
    assert v[..0] + l[..0] == [];
    for i := 0 to |v|
      invariant PartialScores(v, i, l, 0, w, scores, records)
    {
      var r := v[i];
      VectorStep(v, i, l, w, scores, records);
      scores := scores[r.id := Total(scores, r.id) + 1.0 * (1.0 / (RRF_K + (i + 1) as real))];
      records := records[r.id := r];
    }
    for j := 0 to |l|
      invariant PartialScores(v, |v|, l, j, w, scores, records)
    {
      var r := l[j];
      LexicalStep(v, l, j, w, scores, records);
      scores := scores[r.id := Total(scores, r.id) + w * (1.0 / (RRF_K + (j + 1) as real))];
      records := records[r.id := r];
    }
    assert v[..|v|] + l[..|l|] == v + l;
    assert forall id :: id in scores ==> scores[id] == Total(scores, id);
  }

  /** Lines 360-400: the boosted scores, the score map being read in any order. */
  method BoostAll(scores: map<string, real>, records: map<string, Record>, boost: Record -> real,
                  ghost fused: string -> real)
    returns (ranked: seq<ScoredRecord>)
    requires scores.Keys == records.Keys && forall id :: id in records ==> records[id].id == id
    requires forall id :: id in scores ==> scores[id] == fused(id)
    ensures Scores(ranked, Candidates(Boosted(fused, boost), records), records)
  {
    ranked := [];
    var todo := scores.Keys;
    while todo != {}
      invariant todo <= scores.Keys
      invariant DistinctBy(ranked, RecId)
      invariant forall m :: m in ranked ==>
          m.rec.id in scores && m.rec == records[m.rec.id] && m.score == Boosted(fused, boost)(m.rec)
      invariant forall id :: HasId(ranked, id) <==> id in scores && id !in todo
    {
      var id :| id in todo;
      var r := records[id];
      var score := scores[id] * boost(r);
      var m := ScoredRecord(r, score);
      forall x ensures HasId(ranked + [m], x) <==> HasId(ranked, x) || x == id {
        HasIdSnoc(ranked, m, x);
      }
      ranked := ranked + [m];
      todo := todo - {id};
    }
  }

  /** Lines 342-412: fuse, boost, sort, cut. */
  method Rank(v: seq<Record>, l: seq<Record>, w: real, boost: Record -> real, topK: nat) returns (final: seq<Record>)
    ensures var score := FinalScore(v, l, w, boost);
            IsTopK(Ranked(final, score), Candidates(score, RecordMap(v + l)), topK)
    ensures forall r :: r in final ==> Listed(v + l, |v + l|, r.id) && r == LastRecord(v + l, r.id)
  {
    var scores, records := Fuse(v, l, w);
    ghost var score := FinalScore(v, l, w, boost);
    forall id | id in RecordMap(v + l) ensures RecordMap(v + l)[id].id == id {
      RecordMapEntry(v + l, id);
    }
    var ranked := BoostAll(scores, records, boost, Fused(v, l, w));
    var best := SortAndCut(ranked, topK);
    BestOfScores(best, ranked, topK, Candidates(score, records), records);
    RankedIsResults(best, score, records, topK);
    KeptRecords(best, v + l);
    final := RecordsOf(best);
  }

  lemma RankedIsResults(best: seq<ScoredRecord>, score: Record -> real, records: map<string, Record>, topK: nat)
    requires IsTopK(Results(best), Candidates(score, records), topK)
    requires forall m :: m in best ==> m.rec.id in records && m.rec == records[m.rec.id]
    ensures Ranked(RecordsOf(best), score) == Results(best)
  {
    forall i | 0 <= i < |best| ensures Ranked(RecordsOf(best), score)[i] == Results(best)[i] {
      assert best[i] in best;
      assert Results(best)[i].score == Candidates(score, records)[best[i].rec.id];
    }
  }

  lemma KeptRecords(best: seq<ScoredRecord>, all: seq<Record>)
    requires forall m :: m in best ==> m.rec.id in RecordMap(all) && m.rec == RecordMap(all)[m.rec.id]
    ensures forall r :: r in RecordsOf(best) ==> Listed(all, |all|, r.id) && r == LastRecord(all, r.id)
  {
    forall r | r in RecordsOf(best) ensures Listed(all, |all|, r.id) && r == LastRecord(all, r.id) {
      var i :| 0 <= i < |best| && best[i].rec == r;
      assert best[i] in best;
      RecordMapEntry(all, r.id);
    }
  }

  // ---------- dominance ----------

  lemma RankScoreDecreases(w: real, i: nat, j: nat)
    requires w > 0.0 && i < j
    ensures 0.0 < RankScore(w, j) < RankScore(w, i)
  {
    var x, y := RRF_K + (i + 1) as real, RRF_K + (j + 1) as real;
  }

  lemma {:induction false} RrfNonNegative(list: seq<Record>, w: real, id: string, n: nat)
    requires n <= |list| && w > 0.0
    ensures Rrf(list, w, id, n) >= 0.0
  {
    if n > 0 {
      RrfNonNegative(list, w, id, n - 1);
    }
  }

  /** A list gives at least the worth of any one appearance. */
  lemma {:induction false} RrfAtLeast(list: seq<Record>, w: real, id: string, n: nat, i: nat)
    requires i < n <= |list| && list[i].id == id && w > 0.0
    ensures Rrf(list, w, id, n) >= RankScore(w, i)
  {
    if i == n - 1 {
      RrfNonNegative(list, w, id, n - 1);
    } else {
      RrfAtLeast(list, w, id, n - 1, i);
    }
  }

  /** And exactly that for an ID that appears once. */
  lemma {:induction false} RrfOnce(list: seq<Record>, w: real, id: string, n: nat)
    requires n <= |list| && AtMostOnce(list, id)
    ensures forall i :: 0 <= i < n && list[i].id == id ==> Rrf(list, w, id, n) == RankScore(w, i)
    ensures !Listed(list, n, id) ==> Rrf(list, w, id, n) == 0.0
  {
    if n > 0 {
      RrfOnce(list, w, id, n - 1);
      assert Listed(list, n, id) <==> Listed(list, n - 1, id) || list[n-1].id == id;
      if list[n-1].id == id {
        assert !Listed(list, n - 1, id);
      }
    }
  }

  ghost predicate AtMostOnce(list: seq<Record>, id: string) {
    forall i, j :: 0 <= i < j < |list| && list[i].id == id ==> list[j].id != id
  }

  /** `a` stands ahead of every appearance of `b` in a list. */
  ghost predicate Ahead(list: seq<Record>, a: string, b: string) {
    forall j :: 0 <= j < |list| && list[j].id == b ==> exists i :: 0 <= i < j && list[i].id == a
  }

  lemma AheadScoresMore(list: seq<Record>, w: real, a: string, b: string)
    requires w > 0.0 && Ahead(list, a, b) && AtMostOnce(list, b)
    ensures Rrf(list, w, a, |list|) >= Rrf(list, w, b, |list|)
    ensures Listed(list, |list|, b) ==> Rrf(list, w, a, |list|) > Rrf(list, w, b, |list|)
  {
    RrfOnce(list, w, b, |list|);
    if Listed(list, |list|, b) {
      var j :| 0 <= j < |list| && list[j].id == b;
      var i :| 0 <= i < j && list[i].id == a;
      RrfAtLeast(list, w, a, |list|, i);
      RankScoreDecreases(w, i, j);
    } else {
      RrfNonNegative(list, w, a, |list|);
    }
  }

  lemma DominanceFinal(v: seq<Record>, l: seq<Record>, w: real, boost: Record -> real, ra: Record, rb: Record)
    requires w > 0.0 && Ahead(v, ra.id, rb.id) && Ahead(l, ra.id, rb.id) && AtMostOnce(v, rb.id) && AtMostOnce(l, rb.id)
    requires rb.id in RecordMap(v + l) && boost(ra) >= boost(rb) && boost(ra) > 0.0
    ensures FinalScore(v, l, w, boost)(ra) > FinalScore(v, l, w, boost)(rb)
  {
    DominanceFused(v, l, w, ra.id, rb.id);
  }

  /** A document that stands ahead of another in every list the other is in, and is boosted at least as much, comes
      first in every result: whenever the other is returned, it is returned before it. */
  lemma DominatorComesFirst(v: seq<Record>, l: seq<Record>, w: real, boost: Record -> real, rs: seq<Result>, topK: nat,
                            a: string, b: string)
    requires w > 0.0 && Ahead(v, a, b) && Ahead(l, a, b) && AtMostOnce(v, b) && AtMostOnce(l, b)
    requires a in RecordMap(v + l) && b in RecordMap(v + l)
    requires boost(RecordMap(v + l)[a]) >= boost(RecordMap(v + l)[b]) && boost(RecordMap(v + l)[a]) > 0.0
    requires IsTopK(rs, Candidates(FinalScore(v, l, w, boost), RecordMap(v + l)), topK)
    ensures forall j :: 0 <= j < |rs| && rs[j].docID == b ==> exists i :: 0 <= i < j && rs[i].docID == a
  {
    RecordMapEntry(v + l, a);
    RecordMapEntry(v + l, b);
    DominanceFinal(v, l, w, boost, RecordMap(v + l)[a], RecordMap(v + l)[b]);
    HigherComesFirst(rs, Candidates(FinalScore(v, l, w, boost), RecordMap(v + l)), topK, a, b);
  }

  lemma ListedInOne(v: seq<Record>, l: seq<Record>, id: string)
    requires id in RecordMap(v + l)
    ensures Listed(v, |v|, id) || Listed(l, |l|, id)
  {
    RecordMapEntry(v + l, id);
    var k :| 0 <= k < |v + l| && (v + l)[k].id == id;
    if k < |v| {
      assert v[k].id == id;
    } else {
      assert l[k-|v|].id == id;
    }
  }

  lemma DominanceFused(v: seq<Record>, l: seq<Record>, w: real, a: string, b: string)
    requires w > 0.0 && Ahead(v, a, b) && Ahead(l, a, b) && AtMostOnce(v, b) && AtMostOnce(l, b)
    requires b in RecordMap(v + l)
    ensures FusedScore(v, l, w, a) > FusedScore(v, l, w, b) > 0.0
  {
    ListedInOne(v, l, b);
    AheadScoresMore(v, 1.0, a, b);
    AheadScoresMore(l, w, a, b);
    PositiveWhenListed(v, l, w, b);
  }

  lemma PositiveWhenListed(v: seq<Record>, l: seq<Record>, w: real, id: string)
    requires w > 0.0 && (Listed(v, |v|, id) || Listed(l, |l|, id))
    ensures FusedScore(v, l, w, id) > 0.0
  {
    RrfNonNegative(v, 1.0, id, |v|);
    RrfNonNegative(l, w, id, |l|);
    if i :| 0 <= i < |v| && v[i].id == id {
      RrfAtLeast(v, 1.0, id, |v|, i);
    } else {
      var j :| 0 <= j < |l| && l[j].id == id;
      RrfAtLeast(l, w, id, |l|, j);
    }
  }

  /** A document with a strictly higher score comes before the other in every result that has the other. */
  lemma HigherComesFirst(rs: seq<Result>, cand: map<string, real>, k: nat, a: string, b: string)
    requires IsTopK(rs, cand, k) && a in cand && b in cand && cand[a] > cand[b]
    ensures forall j :: 0 <= j < |rs| && rs[j].docID == b ==> exists i :: 0 <= i < j && rs[i].docID == a
  {
    forall j | 0 <= j < |rs| && rs[j].docID == b ensures exists i :: 0 <= i < j && rs[i].docID == a {
      assert Selected(rs, a);
      var i :| 0 <= i < |rs| && rs[i].docID == a;
      assert rs[i].score > rs[j].score;
    }
  }

  // ---------- weights and boosts ----------

  /** The regular expression [a-z][A-Z]|[a-z]_[a-z]|[:.()\[\]{}]. */
  predicate HasCodeLikeIdentifiers(query: string) {
    || (exists i :: 0 <= i < |query| - 1 && 'a' <= query[i] <= 'z' && 'A' <= query[i+1] <= 'Z')
    || (exists i :: 0 <= i < |query| - 2 && 'a' <= query[i] <= 'z' && query[i+1] == '_' && 'a' <= query[i+2] <= 'z')
    || (exists i :: 0 <= i < |query| && query[i] in ":.()[]{}")
  }

  function LexicalWeight(query: string): real {
    if HasCodeLikeIdentifiers(query) then 1.5 else 1.0
  }

  /** Number parsing, powers of two and the clock. */
  datatype Numbers = Numbers(parseFloat: string -> Option<real>, parseInt: string -> Option<int>, pow2: real -> real,
                             now: int)

  const SECONDS_PER_DAY := 86400
  const RECENCY_BOOST_FACTOR: real := 0.5
  const RECENCY_DECAY_DAYS: real := 14.0

  function FloatField(nums: Numbers, meta: Meta, key: string): real {
    if key in meta then
      match nums.parseFloat(meta[key])
      case Some(x) => x
      case None => 1.0
    else 1.0
  }

  function AgeDays(nums: Numbers, updatedAt: int): real {
    var age := (nums.now - updatedAt) as real / SECONDS_PER_DAY as real;
    if age < 0.0 then 0.0 else age
  }

  function RecencyBoost(nums: Numbers, meta: Meta): real {
    if "category" in meta && meta["category"] == "document" && "updated_at" in meta then
      match nums.parseInt(meta["updated_at"])
      case Some(at) => 1.0 + RECENCY_BOOST_FACTOR * nums.pow2(-AgeDays(nums, at) / RECENCY_DECAY_DAYS)
      case None => 1.0
    else 1.0
  }

  /** Lines 364-394. */
  function Boost(nums: Numbers): Record -> real {
    (r: Record) => FloatField(nums, r.doc.meta, "function_score") * RecencyBoost(nums, r.doc.meta)
                   * FloatField(nums, r.doc.meta, "priority")
  }

  /** Two to a power at most 0 is in (0, 1], and grows with the exponent. */
  ghost predicate IsPow2(pow2: real -> real) {
    && (forall x :: x <= 0.0 ==> 0.0 < pow2(x) <= 1.0)
    && (forall x, y :: x <= y ==> pow2(x) <= pow2(y))
  }

  /** The recency boost lies between 1 and 1.5, and a document updated later is boosted at least as much. */
  lemma RecencyBoostBounds(nums: Numbers, meta: Meta)
    requires IsPow2(nums.pow2)
    ensures 1.0 <= RecencyBoost(nums, meta) <= 1.5
    ensures forall meta': Meta, at, at' ::
              && "category" in meta && "category" in meta' && meta["category"] == meta'["category"] == "document"
              && "updated_at" in meta && "updated_at" in meta'
              && nums.parseInt(meta["updated_at"]) == Some(at) && nums.parseInt(meta'["updated_at"]) == Some(at') &&
                  at <= at'
              ==> RecencyBoost(nums, meta) <= RecencyBoost(nums, meta')
  {
    forall at, at' | at <= at'
      ensures nums.pow2(-AgeDays(nums, at) / RECENCY_DECAY_DAYS) <= nums.pow2(-AgeDays(nums, at') / RECENCY_DECAY_DAYS)
    {
      assert -AgeDays(nums, at) / RECENCY_DECAY_DAYS <= -AgeDays(nums, at') / RECENCY_DECAY_DAYS;
    }
  }
}
