/** What weights and boosts do to the order of a hybrid search (internal/db/store.go, lines 331-413 and 743-747), in
    numbers. */
module FusionLaws {
  import opened Fusion
  import opened SearchModel
  import opened StoreModel
  import opened Wrappers

  // ---------- ranks against each other ----------

  /** The record is at this place of the list and nowhere else in it. */
  ghost predicate OnlyAt(list: seq<Record>, i: nat, id: string) {
    i < |list| && list[i].id == id && AtMostOnce(list, id)
  }

  ghost predicate NotIn(list: seq<Record>, id: string) {
    !Listed(list, |list|, id)
  }

  lemma OneList(v: seq<Record>, l: seq<Record>, w: real, id: string, i: nat)
    ensures OnlyAt(v, i, id) && NotIn(l, id) ==> FusedScore(v, l, w, id) == 1.0 / (61 + i) as real
    ensures OnlyAt(l, i, id) && NotIn(v, id) ==> FusedScore(v, l, w, id) == w * (1.0 / (61 + i) as real)
  {
    if OnlyAt(v, i, id) && NotIn(l, id) {
      RrfOnce(v, 1.0, id, |v|);
      NotListedScore(l, w, id);
    }
    if OnlyAt(l, i, id) && NotIn(v, id) {
      RrfOnce(l, w, id, |l|);
      NotListedScore(v, 1.0, id);
    }
  }

  lemma {:induction false} NotListedScore(list: seq<Record>, w: real, id: string)
    requires NotIn(list, id)
    ensures Rrf(list, w, id, |list|) == 0.0
  {
    NoneUpTo(list, w, id, |list|);
  }

  lemma {:induction false} NoneUpTo(list: seq<Record>, w: real, id: string, n: nat)
    requires n <= |list| && NotIn(list, id)
    ensures Rrf(list, w, id, n) == 0.0
  {
    if n > 0 {
      NoneUpTo(list, w, id, n - 1);
    }
  }

  /** An ID that both lists have once gets both ranks' worth. */
  lemma BothLists(v: seq<Record>, l: seq<Record>, w: real, id: string, i: nat, j: nat)
    requires OnlyAt(v, i, id) && OnlyAt(l, j, id)
    ensures FusedScore(v, l, w, id) == 1.0 / (61 + i) as real + w * (1.0 / (61 + j) as real)
  {
    RrfOnce(v, 1.0, id, |v|);
    RrfOnce(l, w, id, |l|);
  }

  /** The record kept for an ID is the last one that has it. */
  lemma {:induction false} LastRecordIs(list: seq<Record>, id: string, i: nat)
    requires i < |list| && list[i].id == id && forall j :: i < j < |list| ==> list[j].id != id
    ensures LastRecord(list, id) == list[i]
    decreases |list|
  {
    assert Listed(list, |list|, id);
    if i < |list| - 1 {
      assert list[..|list|-1][i] == list[i];
      LastRecordIs(list[..|list|-1], id, i);
    }
  }

  lemma QuotientOrder(a: real, b: real, x: real, y: real)
    requires x > 0.0 && y > 0.0
    ensures a / x > b / y <==> a * y > b * x
  {
    assert a / x - b / y == (a * y - b * x) / (x * y);
    var d, p := a * y - b * x, x * y;
    assert p > 0.0;
    assert (d / p) * p == d;
  }

  /** Of two equally boosted records, one at place j of the lexical list only and one at place i of the vector list
      only, the lexical one scores more exactly if it stands earlier, or, when the query looks like code, if its place
      is less than one and a half times that of the other and 30.5 more. */
  lemma LexicalBeatsVectorIff(v: seq<Record>, l: seq<Record>, query: string, boost: Record -> real,
                              lexical: Record, vector: Record, i: nat, j: nat)
    requires OnlyAt(v, i, vector.id) && NotIn(l, vector.id) && OnlyAt(l, j, lexical.id) && NotIn(v, lexical.id)
    requires boost(lexical) == boost(vector) > 0.0
    ensures var score := FinalScore(v, l, LexicalWeight(query), boost);
            score(lexical) > score(vector) <==> if LooksLikeCode(query) then 2 * j < 3 * i + 61 else j < i
  {
    var w := LexicalWeight(query);
    CodeIff(query);
    OneList(v, l, w, vector.id, i);
    OneList(v, l, w, lexical.id, j);
    WorthOrder(w, i, j);
    SameFactor(w * (1.0 / (61 + j) as real), 1.0 / (61 + i) as real, boost(lexical));
  }

  /** Of two records that the vector list alone has, the one at place i with boost x scores more than the one at place
      j with boost y exactly if x outweighs y by more than the ranks 61 + i to 61 + j. */
  lemma BoostAgainstRankIff(v: seq<Record>, l: seq<Record>, w: real, boost: Record -> real,
                            a: Record, b: Record, i: nat, j: nat)
    requires OnlyAt(v, i, a.id) && NotIn(l, a.id) && OnlyAt(v, j, b.id) && NotIn(l, b.id)
    ensures var score := FinalScore(v, l, w, boost);
            score(a) > score(b) <==> boost(a) * (61 + j) as real > boost(b) * (61 + i) as real
  {
    OneList(v, l, w, a.id, i);
    OneList(v, l, w, b.id, j);
    QuotientOrder(boost(a), boost(b), (61 + i) as real, (61 + j) as real);
    InverseTimes(boost(a), (61 + i) as real);
    InverseTimes(boost(b), (61 + j) as real);
  }

  lemma InverseTimes(a: real, x: real)
    requires x > 0.0
    ensures 1.0 / x * a == a / x
  {}

  lemma WorthOrder(w: real, i: nat, j: nat)
    ensures w == 1.5 ==> (w * (1.0 / (61 + j) as real) > 1.0 / (61 + i) as real <==> 2 * j < 3 * i + 61)
    ensures w == 1.0 ==> (w * (1.0 / (61 + j) as real) > 1.0 / (61 + i) as real <==> j < i)
  {
    var x, y := (61 + j) as real, (61 + i) as real;
    assert w * (1.0 / x) == w / x;
    QuotientOrder(w, 1.0, x, y);
  }

  lemma SameFactor(a: real, b: real, k: real)
    requires k > 0.0
    ensures a * k > b * k <==> a > b
  {}

  ghost predicate Contains(query: string, a: string, part: string, b: string) {
    query == a + part + b
  }

  /** A capital behind a lower-case letter. */
  ghost predicate HasCamel(query: string) {
    exists a, part, b :: Contains(query, a, part, b) && |part| == 2 && 'a' <= part[0] <= 'z' && 'A' <= part[1] <= 'Z'
  }

  /** An underscore between lower-case letters. */
  ghost predicate HasSnake(query: string) {
    exists a, part, b ::
      Contains(query, a, part, b) && |part| == 3 && 'a' <= part[0] <= 'z' && part[1] == '_' && 'a' <= part[2] <= 'z'
  }

  /** Or a rune of code. */
  ghost predicate LooksLikeCode(query: string) {
    || HasCamel(query) || HasSnake(query)
    || exists c :: c in query && (c == ':' || c == '.' || c in "()" || c in "[]" || c in "{}")
  }

  lemma CamelIff(query: string)
    ensures HasCamel(query) <==>
            exists i :: 0 <= i < |query| - 1 && 'a' <= query[i] <= 'z' && 'A' <= query[i+1] <= 'Z'
  {
    if i :| 0 <= i < |query| - 1 && 'a' <= query[i] <= 'z' && 'A' <= query[i+1] <= 'Z' {
      assert Contains(query, query[..i], query[i..i+2], query[i+2..]);
    }
    if a, part, b :| Contains(query, a, part, b) && |part| == 2 && 'a' <= part[0] <= 'z' && 'A' <= part[1] <= 'Z' {
      assert query[|a|] == part[0] && query[|a|+1] == part[1];
    }
  }

  lemma SnakeIff(query: string)
    ensures HasSnake(query) <==>
            exists i :: 0 <= i < |query| - 2 && 'a' <= query[i] <= 'z' && query[i+1] == '_' && 'a' <= query[i+2] <= 'z'
  {
    if i :| 0 <= i < |query| - 2 && 'a' <= query[i] <= 'z' && query[i+1] == '_' && 'a' <= query[i+2] <= 'z' {
      assert Contains(query, query[..i], query[i..i+3], query[i+3..]);
    }
    if a, part, b :| Contains(query, a, part, b) && |part| == 3
                     && 'a' <= part[0] <= 'z' && part[1] == '_' && 'a' <= part[2] <= 'z' {
      assert query[|a|] == part[0] && query[|a|+1] == part[1] && query[|a|+2] == part[2];
    }
  }

  lemma RuneIff(query: string)
    ensures (exists c :: c in query && (c == ':' || c == '.' || c in "()" || c in "[]" || c in "{}")) <==>
            exists i :: 0 <= i < |query| && query[i] in ":.()[]{}"
  {
    forall c ensures c in ":.()[]{}" <==> c == ':' || c == '.' || c in "()" || c in "[]" || c in "{}" {}
    if c :| c in query && (c == ':' || c == '.' || c in "()" || c in "[]" || c in "{}") {
      var i :| 0 <= i < |query| && query[i] == c;
    }
    if i :| 0 <= i < |query| && query[i] in ":.()[]{}" {
      assert query[i] in query;
    }
  }

  /** Lexical hits count half as much again exactly for queries that look like code. */
  lemma CodeIff(query: string)
    ensures LexicalWeight(query) == if LooksLikeCode(query) then 1.5 else 1.0
  {
    CamelIff(query);
    SnakeIff(query);
    RuneIff(query);
  }

  // ---------- boosts ----------

  function With(r: Record, key: string, value: string): Record {
    Record(r.id, Doc(r.doc.content, r.doc.meta[key := value]))
  }

  /** A record without any of the fields is not boosted. */
  lemma PlainBoost(nums: Numbers, r: Record)
    requires forall k :: k in ["function_score", "priority", "updated_at"] ==> k !in r.doc.meta
    ensures Boost(nums)(r) == 1.0
  {
    assert "function_score" in ["function_score", "priority", "updated_at"];
    assert "priority" in ["function_score", "priority", "updated_at"];
    assert "updated_at" in ["function_score", "priority", "updated_at"];
  }

  /** A function score or a priority multiplies the boost by its number, if it is one. */
  lemma FactorBoost(nums: Numbers, r: Record, key: string, value: string)
    requires key == "function_score" || key == "priority"
    requires key !in r.doc.meta
    ensures Boost(nums)(With(r, key, value)) ==
            match nums.parseFloat(value)
            case Some(x) => Boost(nums)(r) * x
            case None => Boost(nums)(r)
  {
    var meta, meta' := r.doc.meta, With(r, key, value).doc.meta;
    assert RecencyBoost(nums, meta') == RecencyBoost(nums, meta);
  }

  /** Two to a power, as far as it matters: 1 at 0, and half as much one less. */
  ghost predicate Halves(pow2: real -> real) {
    pow2(0.0) == 1.0 && forall x :: pow2(x - 1.0) == pow2(x) / 2.0
  }

  ghost predicate IsDocument(meta: Meta, nums: Numbers, at: int) {
    && "category" in meta && meta["category"] == "document"
    && "updated_at" in meta && nums.parseInt(meta["updated_at"]) == Some(at)
  }

  /** A document that is new, or dated in the future, gets half as much again; every fourteen days more halve that. */
  lemma RecencyHalves(nums: Numbers, meta: Meta, meta': Meta, at: int)
    requires Halves(nums.pow2) && IsDocument(meta, nums, at)
    ensures at >= nums.now ==> RecencyBoost(nums, meta) == 1.5
    ensures at <= nums.now && IsDocument(meta', nums, at - 14 * 24 * 60 * 60) ==>
              RecencyBoost(nums, meta') - 1.0 == (RecencyBoost(nums, meta) - 1.0) / 2.0
  {
    if at >= nums.now {
      assert AgeDays(nums, at) == 0.0;
      assert -AgeDays(nums, at) / RECENCY_DECAY_DAYS == 0.0;
    }
    if at <= nums.now && IsDocument(meta', nums, at - 14 * 24 * 60 * 60) {
      var at' := at - 14 * 24 * 60 * 60;
      assert AgeDays(nums, at') == AgeDays(nums, at) + 14.0;
      var x := -AgeDays(nums, at) / RECENCY_DECAY_DAYS;
      assert -AgeDays(nums, at') / RECENCY_DECAY_DAYS == x - 1.0;
      assert nums.pow2(x - 1.0) == nums.pow2(x) / 2.0;
    }
  }

  /** Recency counts for documents only. */
  lemma RecencyForDocumentsOnly(nums: Numbers, meta: Meta)
    requires Field(meta, "category") != "document"
    ensures RecencyBoost(nums, meta) == 1.0
  {}
}
