/** Scored results and top-k selection, shared by the lexical index and the store. */
module Ranking {

  datatype Result = Result(docID: string, score: real)

  function Min(a: int, b: int): int {
    if a <= b then a else b
  }

  ghost predicate DistinctIds(rs: seq<Result>) {
    forall i, j :: 0 <= i < j < |rs| ==> rs[i].docID != rs[j].docID
  }

  ghost predicate Descending(rs: seq<Result>) {
    forall i, j :: 0 <= i < j < |rs| ==> rs[i].score >= rs[j].score
  }

  ghost predicate Selected(rs: seq<Result>, id: string) {
    exists i :: 0 <= i < |rs| && rs[i].docID == id
  }

  /** `rs` is a best-first selection of min(k, |cand|) different candidates, each with its own score, and no
      candidate left out beats one that was taken. Ties may be broken either way. */
  ghost predicate IsTopK(rs: seq<Result>, cand: map<string, real>, k: nat) {
    && |rs| == Min(k, |cand|)
    && DistinctIds(rs)
    && Descending(rs)
    && (forall i :: 0 <= i < |rs| ==> rs[i].docID in cand && rs[i].score == cand[rs[i].docID])
    && (forall id :: id in cand && !Selected(rs, id) ==> forall i :: 0 <= i < |rs| ==> cand[id] <= rs[i].score)
  }

  ghost function ResultSet(cand: map<string, real>): set<Result> {
    set id | id in cand :: Result(id, cand[id])
  }

  /** `all` lists every candidate once. */
  ghost predicate Lists(all: seq<Result>, cand: map<string, real>) {
    multiset(all) == multiset(ResultSet(cand))
  }

  lemma ListsFacts(all: seq<Result>, cand: map<string, real>)
    requires Lists(all, cand)
    ensures |all| == |cand|
    ensures DistinctIds(all)
    ensures forall i :: 0 <= i < |all| ==> all[i].docID in cand && all[i].score == cand[all[i].docID]
    ensures forall id :: id in cand ==> Selected(all, id)
  {
    ResultSetSize(cand);
    assert |multiset(all)| == |all|;
    forall i | 0 <= i < |all| ensures all[i].docID in cand && all[i].score == cand[all[i].docID] {
      assert all[i] in multiset(all);
      assert all[i] in ResultSet(cand);
    }
    forall i, j | 0 <= i < j < |all| ensures all[i].docID != all[j].docID {
      if all[i] == all[j] {
        TwiceInMultiset(all, i, j);
        assert false;
      }
    }
    forall id | id in cand ensures Selected(all, id) {
      assert Result(id, cand[id]) in multiset(all);
      assert Result(id, cand[id]) in all;
    }
  }

  lemma InResultSet(cand: map<string, real>, r: Result)
    ensures r in ResultSet(cand) <==> r.docID in cand && r.score == cand[r.docID]
  {}

  lemma TwiceInMultiset<T>(s: seq<T>, i: nat, j: nat)
    requires i < j < |s| && s[i] == s[j]
    ensures multiset(s)[s[i]] >= 2
  {
    assert s == s[..i] + [s[i]] + s[i+1..j] + [s[j]] + s[j+1..];
  }

  lemma {:induction false} ResultSetSize(cand: map<string, real>)
    ensures |ResultSet(cand)| == |cand|
    decreases |cand|
  {
    if cand != map[] {
      var id :| id in cand;
      var rest := cand - {id};
      ResultSetSize(rest);
      forall r ensures r in ResultSet(cand) <==> r in ResultSet(rest) || r == Result(id, cand[id]) {
        InResultSet(cand, r);
        InResultSet(rest, r);
      }
      assert ResultSet(cand) == ResultSet(rest) + {Result(id, cand[id])};
      assert cand.Keys == rest.Keys + {id};
      assert |cand.Keys| == |rest.Keys| + 1;
    }
  }

  /** Cutting a list of all candidates after its `n` largest gives a top-k selection. */
  lemma TopKOfSorted(all: seq<Result>, cand: map<string, real>, k: nat, n: nat)
    requires Lists(all, cand) && n == Min(k, |cand|) && n <= |all|
    requires LargestFirst(all, n)
    ensures IsTopK(all[..n], cand, k)
  {
    ListsFacts(all, cand);
    var rs := all[..n];
    forall id | id in cand && !Selected(rs, id)
      ensures forall i :: 0 <= i < |rs| ==> cand[id] <= rs[i].score
    {
      var j :| 0 <= j < |all| && all[j].docID == id;
      assert j >= n by {
        assert forall i :: 0 <= i < n ==> rs[i] == all[i];
      }
    }
  }

  /** `s` is a permutation of `t`. */
  ghost predicate Permutation<T>(s: seq<T>, t: seq<T>) {
    multiset(s) == multiset(t)
  }

  method Swap(results: array<Result>, i: nat, j: nat)
    requires i < results.Length && j < results.Length
    modifies results
    ensures results[..] == old(results[..])[i := old(results[j])][j := old(results[i])]
    ensures Permutation(results[..], old(results[..]))
  {
    results[i], results[j] := results[j], results[i];
    assert results[..] == old(results[..])[i := old(results[j])][j := old(results[i])];
  }

  /** The first `n` elements are the largest ones, in descending order. */
  ghost predicate LargestFirst(s: seq<Result>, n: nat) {
    forall a, b :: 0 <= a < b < |s| && a < n ==> s[a].score >= s[b].score
  }

  /** partialSort (internal/db/lexical/bm25.go, lines 202-213): selection of the k largest, in place. */
  method PartialSort(results: array<Result>, k: nat)
    requires k <= results.Length
    modifies results
    ensures Permutation(results[..], old(results[..]))
    ensures LargestFirst(results[..], k)
  {
    var n := results.Length;
    for i := 0 to k
      invariant Permutation(results[..], old(results[..]))
      invariant LargestFirst(results[..], i)
    {
      var maxIdx := i;
      for j := i + 1 to n
        invariant i <= maxIdx < n
        invariant forall b :: i <= b < j ==> results[maxIdx].score >= results[b].score
      {
        if results[j].score > results[maxIdx].score {
          maxIdx := j;
        }
      }
      Swap(results, i, maxIdx);
    }
  }

  ghost predicate DescendingBy<T>(s: seq<T>, key: T -> real) {
    forall i, j :: 0 <= i < j < |s| ==> key(s[i]) >= key(s[j])
  }

  method InsertDescending<T>(s: seq<T>, x: T, key: T -> real) returns (r: seq<T>)
    requires DescendingBy(s, key)
    ensures DescendingBy(r, key)
    ensures multiset(r) == multiset(s) + multiset{x}
  {
    var p := |s|;
    while p > 0 && key(s[p-1]) < key(x)
      invariant 0 <= p <= |s|
      invariant forall a :: p <= a < |s| ==> key(s[a]) < key(x)
    {
      p := p - 1;
    }
    assert forall a :: 0 <= a < p ==> key(s[a]) >= key(s[p-1]);
    InsertionPermutes(s, p, x);
    r := s[..p] + [x] + s[p..];
  }

  lemma InsertionPermutes<T>(s: seq<T>, p: nat, x: T)
    requires p <= |s|
    ensures multiset(s[..p] + [x] + s[p..]) == multiset(s) + multiset{x}
  {
    assert s == s[..p] + s[p..];
  }

  /** sort.Slice with a descending order on `key`: some permutation in that order (the library's is not stable). */
  method SortSlice<T>(s: seq<T>, key: T -> real) returns (r: seq<T>)
    ensures Permutation(r, s)
    ensures DescendingBy(r, key)
  {
    r := [];
    for i := 0 to |s|
      invariant multiset(r) == multiset(s[..i])
      invariant DescendingBy(r, key)
    {
      assert s[..i+1] == s[..i] + [s[i]];
      r := InsertDescending(r, s[i], key);
    }
    assert s[..|s|] == s;
  }

  // ---------- lists of scored items ----------

  /** No two items have the same key. */
  ghost predicate DistinctBy<T>(s: seq<T>, key: T -> string) {
    forall i, j :: 0 <= i < j < |s| ==> key(s[i]) != key(s[j])
  }

  lemma {:induction false} DistinctCount<T>(s: seq<T>, key: T -> string, x: T)
    requires DistinctBy(s, key)
    ensures multiset(s)[x] <= 1
  {
    if s != [] {
      var n := |s| - 1;
      assert s == s[..n] + [s[n]];
      DistinctCount(s[..n], key, x);
      if s[n] == x {
        assert x !in s[..n] by {
          assert forall i :: 0 <= i < n ==> key(s[..n][i]) != key(x);
        }
      }
    }
  }

  /** Sorting keeps keys distinct and the set of items. */
  lemma PermutationKeepsDistinct<T>(s: seq<T>, t: seq<T>, key: T -> string)
    requires Permutation(t, s) && DistinctBy(s, key)
    ensures DistinctBy(t, key)
    ensures forall x :: x in t <==> x in s
  {
    forall x ensures x in t <==> x in s {
      assert x in t <==> x in multiset(t);
      assert x in s <==> x in multiset(s);
    }
    forall i, j | 0 <= i < j < |t| ensures key(t[i]) != key(t[j]) {
      if key(t[i]) == key(t[j]) {
        assert t[i] in s && t[j] in s;
        var a :| 0 <= a < |s| && s[a] == t[i];
        var b :| 0 <= b < |s| && s[b] == t[j];
        assert a == b;
        TwiceInMultiset(t, i, j);
        DistinctCount(s, key, t[i]);
        assert false;
      }
    }
  }

  function IdOf(r: Result): string {
    r.docID
  }

  /** A list with each candidate exactly once is a listing of the candidates. */
  lemma ListsIntro(all: seq<Result>, cand: map<string, real>)
    requires DistinctIds(all)
    requires forall i :: 0 <= i < |all| ==> all[i].docID in cand && all[i].score == cand[all[i].docID]
    requires forall id :: id in cand ==> Selected(all, id)
    ensures Lists(all, cand)
  {
    assert DistinctBy(all, IdOf);
    forall r ensures multiset(all)[r] == multiset(ResultSet(cand))[r] {
      DistinctCount(all, IdOf, r);
      InResultSet(cand, r);
      if r in ResultSet(cand) {
        assert Selected(all, r.docID);
        assert r in all;
      }
    }
  }
}
