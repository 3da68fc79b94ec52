/** The LRU cache as a sequence of entries, most recent first (internal/cache/lru.go). */
module LruModel {
  import opened Wrappers

  datatype Slot<V> = Slot(key: string, value: V, expiry: int)

  type Slots<V> = seq<Slot<V>>

  ghost predicate DistinctKeys<V>(s: Slots<V>) {
    forall i, j :: 0 <= i < j < |s| ==> s[i].key != s[j].key
  }

  /** The position of a key, or |s|. */
  function Find<V>(s: Slots<V>, key: string): (i: nat)
    ensures i <= |s|
    ensures i < |s| ==> s[i].key == key
    ensures forall j :: 0 <= j < i ==> s[j].key != key
  {
    if s == [] then 0 else if s[0].key == key then 0 else 1 + Find(s[1..], key)
  }

  predicate Has<V>(s: Slots<V>, key: string) {
    Find(s, key) < |s|
  }

  function At<V>(s: Slots<V>, key: string): (x: Slot<V>)
    requires Has(s, key)
    ensures x.key == key && x in s
  {
    s[Find(s, key)]
  }

  /** The entries without a key. */
  function Without<V>(s: Slots<V>, key: string): Slots<V> {
    if s == [] then []
    else if s[0].key == key then Without(s[1..], key)
    else [s[0]] + Without(s[1..], key)
  }

  /** The entries that are not expired. */
  function Fresh<V>(s: Slots<V>, now: int): Slots<V> {
    if s == [] then []
    else if now > s[0].expiry then Fresh(s[1..], now)
    else [s[0]] + Fresh(s[1..], now)
  }

  /** At most `n` entries, the most recent ones. */
  function Front<V>(s: Slots<V>, n: nat): Slots<V> {
    if |s| <= n then s else s[..n]
  }

  // ---------- operations ----------

  datatype Op<V> =
    | Get(key: string)
    | Set(key: string, value: V, expiry: int)     // expiry: now + ttl, the default ttl standing for 0
    | Delete(key: string)
    | Clear
    | Cleanup

  /** Lines 91-106. */
  function GetResult<V>(s: Slots<V>, key: string, now: int): Option<V> {
    if Has(s, key) && now <= At(s, key).expiry then Some(At(s, key).value) else None
  }

  function AfterGet<V>(s: Slots<V>, key: string, now: int): Slots<V> {
    if !Has(s, key) then s
    else if now > At(s, key).expiry then Without(s, key)
    else [At(s, key)] + Without(s, key)
  }

  /** Lines 109-137: a new entry pushes out the oldest ones, an overwritten one does not. */
  function AfterSet<V>(s: Slots<V>, cap: nat, x: Slot<V>): Slots<V> {
    if Has(s, x.key) then [x] + Without(s, x.key) else Front([x] + s, cap)
  }

  function Apply<V>(s: Slots<V>, cap: nat, op: Op<V>, now: int): Slots<V> {
    match op
    case Get(k) => AfterGet(s, k, now)
    case Set(k, v, e) => AfterSet(s, cap, Slot(k, v, e))
    case Delete(k) => Without(s, k)
    case Clear => []
    case Cleanup => Fresh(s, now)
  }

  // ---------- order-preserving selection ----------

  /** `s` is `l` with some entries left out. */
  ghost predicate Subseq<V>(s: Slots<V>, l: Slots<V>)
    decreases |l|
  {
    s == [] || (l != [] && (if s[0] == l[0] then Subseq(s[1..], l[1..]) else Subseq(s, l[1..])))
  }

  lemma {:induction false} SubseqMembers<V(!new)>(s: Slots<V>, l: Slots<V>)
    requires Subseq(s, l)
    ensures forall x :: x in s ==> x in l
    ensures |s| <= |l|
    decreases |l|
  {
    if s != [] {
      assert s == [s[0]] + s[1..] && l == [l[0]] + l[1..];
      if s[0] == l[0] {
        SubseqMembers(s[1..], l[1..]);
      } else {
        SubseqMembers(s, l[1..]);
      }
    }
  }

  /** Removing the head of the larger side never hurts when keys are distinct. */
  lemma {:induction false} SubseqTail<V(!new)>(s: Slots<V>, l: Slots<V>)
    requires s != [] && Subseq(s, l)
    ensures Subseq(s[1..], l)
    decreases |l|
  {
    if s[0] == l[0] {
      if s[1..] != [] && s[1] == l[0] {
        SubseqTail(s[1..], l[1..]);
      }
    } else {
      SubseqTail(s, l[1..]);
      if s[1..] != [] && s[1] == l[0] {
        SubseqTail(s[1..], l[1..]);
      }
    }
  }

  lemma {:induction false} SubseqExtend<V(!new)>(s: Slots<V>, l: Slots<V>)
    requires l != [] && Subseq(s, l[1..])
    ensures Subseq(s, l)
  {
    if s != [] && s[0] == l[0] {
      SubseqTail(s, l[1..]);
    }
  }

  lemma SubseqConsRight<V(!new)>(x: Slot<V>, s: Slots<V>, l: Slots<V>)
    requires Subseq(s, l)
    ensures Subseq(s, [x] + l)
  {
    assert ([x] + l)[1..] == l;
    SubseqExtend(s, [x] + l);
  }

  // ---------- removal ----------

  lemma {:induction false} WithoutMembers<V(!new)>(s: Slots<V>, key: string)
    ensures forall x :: x in Without(s, key) <==> x in s && x.key != key
    ensures !Has(Without(s, key), key)
  {
    if s != [] {
      WithoutMembers(s[1..], key);
      assert s == [s[0]] + s[1..];
    }
    HasMember(Without(s, key), key);
  }

  lemma {:induction false} WithoutAbsent<V(!new)>(s: Slots<V>, key: string)
    requires !Has(s, key)
    ensures Without(s, key) == s
  {
    if s != [] {
      WithoutAbsent(s[1..], key);
    }
  }

  lemma {:induction false} WithoutDistinct<V(!new)>(s: Slots<V>, key: string)
    requires DistinctKeys(s)
    ensures DistinctKeys(Without(s, key))
    ensures |Without(s, key)| == |s| - if Has(s, key) then 1 else 0
  {
    if s != [] {
      if s[0].key == key {
        WithoutAbsent(s[1..], key);
      } else {
        WithoutDistinct(s[1..], key);
        WithoutMembers(s[1..], key);
        var rest := Without(s[1..], key);
        FewerKeys(s[1..], rest, s[0].key);
        FrontDistinct(s[0], Without(s[1..], key));
      }
    }
  }

  /** With distinct keys, removing a key removes just the entry that has it. */
  lemma {:induction false} WithoutAt<V(!new)>(s: Slots<V>, k: nat)
    requires k < |s| && DistinctKeys(s)
    ensures Without(s, s[k].key) == s[..k] + s[k+1..]
  {
    if k == 0 {
      WithoutAbsent(s[1..], s[0].key);
    } else {
      var rest, key := s[1..], s[k].key;
      WithoutAt(rest, k - 1);
      assert rest[k-1].key == key && s[0].key != key;
      assert Without(s, key) == [s[0]] + (rest[..k-1] + rest[k..]);
    }
  }

  lemma WithoutFacts<V(!new)>(s: Slots<V>, key: string)
    ensures forall x :: x in Without(s, key) <==> x in s && x.key != key
    ensures !Has(s, key) ==> Without(s, key) == s
    ensures !Has(Without(s, key), key)
    ensures DistinctKeys(s) ==> DistinctKeys(Without(s, key))
    ensures DistinctKeys(s) ==> |Without(s, key)| == |s| - if Has(s, key) then 1 else 0
  {
    WithoutMembers(s, key);
    if !Has(s, key) {
      WithoutAbsent(s, key);
    }
    if DistinctKeys(s) {
      WithoutDistinct(s, key);
    }
  }

  lemma HasMember<V(!new)>(s: Slots<V>, key: string)
    ensures !Has(s, key) <==> forall x :: x in s ==> x.key != key
  {}

  lemma FewerKeys<V(!new)>(s: Slots<V>, t: Slots<V>, key: string)
    requires !Has(s, key) && forall x :: x in t ==> x in s
    ensures !Has(t, key)
  {
    HasMember(s, key);
    HasMember(t, key);
  }

  lemma {:induction false} SubseqWithout<V(!new)>(s: Slots<V>, l: Slots<V>, key: string)
    requires Subseq(s, l)
    ensures Subseq(Without(s, key), Without(l, key))
    decreases |l|
  {
    if s != [] {
      if s[0] == l[0] {
        SubseqWithout(s[1..], l[1..], key);
      } else {
        SubseqWithout(s, l[1..], key);
        if l[0].key != key {
          SubseqConsRight(l[0], Without(s, key), Without(l[1..], key));
        }
      }
    }
  }

  /** Leaving out a key that the smaller side does not have. */
  lemma SubseqWithoutRight<V(!new)>(s: Slots<V>, l: Slots<V>, key: string)
    requires Subseq(s, l) && !Has(s, key)
    ensures Subseq(s, Without(l, key))
  {
    SubseqWithout(s, l, key);
    WithoutFacts(s, key);
  }

  lemma {:induction false} SubseqFresh<V(!new)>(s: Slots<V>, l: Slots<V>, now: int)
    requires Subseq(s, l)
    ensures Subseq(Fresh(s, now), Fresh(l, now))
    ensures |l| - |s| >= |Fresh(l, now)| - |Fresh(s, now)|
    decreases |l|
  {
    if s == [] {
      FreshFacts(l, now);
    } else if s[0] == l[0] {
      SubseqFresh(s[1..], l[1..], now);
    } else {
      SubseqFresh(s, l[1..], now);
      if now <= l[0].expiry {
        SubseqConsRight(l[0], Fresh(s, now), Fresh(l[1..], now));
      }
    }
  }

  lemma {:induction false} FreshFacts<V(!new)>(s: Slots<V>, now: int)
    ensures forall x :: x in Fresh(s, now) <==> x in s && now <= x.expiry
    ensures DistinctKeys(s) ==> DistinctKeys(Fresh(s, now))
    ensures |Fresh(s, now)| <= |s|
  {
    if s != [] {
      FreshFacts(s[1..], now);
      assert s == [s[0]] + s[1..];
      if DistinctKeys(s) {
        FewerKeys(s[1..], Fresh(s[1..], now), s[0].key);
        if now <= s[0].expiry {
          FrontDistinct(s[0], Fresh(s[1..], now));
        }
      }
    }
  }

  /** Dropping the last entry of both sides, when the smaller side's last one is not missed. */
  lemma {:induction false} SubseqDropLast<V(!new)>(s: Slots<V>, l: Slots<V>)
    requires s != [] && Subseq(s, l)
    ensures Subseq(s[..|s|-1], l[..|l|-1])
    decreases |l|
  {
    if s[0] == l[0] {
      if |s| > 1 {
        SubseqDropLast(s[1..], l[1..]);
        assert s[1..][..|s|-2] == s[..|s|-1][1..];
        assert l[1..][..|l|-2] == l[..|l|-1][1..];
      }
    } else {
      SubseqDropLast(s, l[1..]);
      assert l[1..][..|l|-2] == l[..|l|-1][1..];
      SubseqExtend(s[..|s|-1], l[..|l|-1]);
    }
  }

  lemma {:induction false} SubseqDropLastLeft<V(!new)>(s: Slots<V>, l: Slots<V>)
    requires s != [] && Subseq(s, l)
    ensures Subseq(s[..|s|-1], l)
    decreases |l|
  {
    if s[0] == l[0] {
      if |s| > 1 {
        SubseqDropLastLeft(s[1..], l[1..]);
        assert s[1..][..|s|-2] == s[..|s|-1][1..];
      }
    } else {
      SubseqDropLastLeft(s, l[1..]);
      SubseqExtend(s[..|s|-1], l);
    }
  }

  // ---------- inclusion ----------

  /** A smaller cache `s` of capacity `m` beside a larger one `l` of capacity `n`, both fed the same operations. The
      last clause is what makes inclusion inductive: the smaller cache is never emptier than its capacity explains. */
  ghost predicate Included<V>(s: Slots<V>, m: nat, l: Slots<V>, n: nat) {
    && m <= n && |s| <= m && |l| <= n
    && DistinctKeys(s) && DistinctKeys(l)
    && Subseq(s, l)
    && |l| - |s| <= n - m
  }

  lemma SameSlot<V(!new)>(s: Slots<V>, l: Slots<V>, key: string)
    requires Subseq(s, l) && DistinctKeys(l) && Has(s, key)
    ensures Has(l, key) && At(l, key) == At(s, key)
  {
    SubseqMembers(s, l);
  }

  /** Moving a key to the front keeps it distinct there. */
  lemma FrontDistinct<V(!new)>(x: Slot<V>, s: Slots<V>)
    requires DistinctKeys(s) && !Has(s, x.key)
    ensures DistinctKeys([x] + s)
  {
    HasMember(s, x.key);
    forall i | 0 <= i < |s| ensures s[i].key != x.key {
      assert s[i] in s;
    }
  }

  lemma InclusionDelete<V(!new)>(s: Slots<V>, m: nat, l: Slots<V>, n: nat, key: string)
    requires Included(s, m, l, n)
    ensures Included(Without(s, key), m, Without(l, key), n)
  {
    SubseqWithout(s, l, key);
    WithoutFacts(s, key);
    WithoutFacts(l, key);
    if Has(s, key) {
      SameSlot(s, l, key);
    }
  }

  lemma InclusionGet<V(!new)>(s: Slots<V>, m: nat, l: Slots<V>, n: nat, key: string, now: int)
    requires Included(s, m, l, n)
    ensures Included(AfterGet(s, key, now), m, AfterGet(l, key, now), n)
  {
    WithoutFacts(s, key);
    WithoutFacts(l, key);
    if Has(s, key) {
      SameSlot(s, l, key);
      SubseqWithout(s, l, key);
      FrontDistinct(At(s, key), Without(s, key));
      FrontDistinct(At(l, key), Without(l, key));
    } else if Has(l, key) {
      SubseqWithoutRight(s, l, key);
      FrontDistinct(At(l, key), Without(l, key));
      SubseqConsRight(At(l, key), s, Without(l, key));
    }
  }

  lemma InclusionSet<V(!new)>(s: Slots<V>, m: nat, l: Slots<V>, n: nat, x: Slot<V>)
    requires Included(s, m, l, n)
    ensures Included(AfterSet(s, m, x), m, AfterSet(l, n, x), n)
  {
    WithoutFacts(s, x.key);
    WithoutFacts(l, x.key);
    if Has(s, x.key) {
      SameSlot(s, l, x.key);
      SubseqWithout(s, l, x.key);
      FrontDistinct(x, Without(s, x.key));
      FrontDistinct(x, Without(l, x.key));
    } else {
      FrontDistinct(x, s);
      if Has(l, x.key) {
        SubseqWithoutRight(s, l, x.key);
        FrontDistinct(x, Without(l, x.key));
        InclusionEvict([x] + s, m, [x] + Without(l, x.key), n);
      } else {
        FrontDistinct(x, l);
        InclusionEvict([x] + s, m, [x] + l, n);
      }
    }
  }

  /** After a push both sides may be one over capacity; evicting the oldest keeps the selection, because a larger
      cache that must evict has a smaller one beside it that must evict too. */
  lemma InclusionEvict<V(!new)>(s: Slots<V>, m: nat, l: Slots<V>, n: nat)
    requires m <= n && |s| <= m + 1 && |l| <= n + 1 && DistinctKeys(s) && DistinctKeys(l)
    requires Subseq(s, l) && |l| - |s| <= n - m
    ensures Included(Front(s, m), m, Front(l, n), n)
  {
    SubseqMembers(s, l);
    if |l| == n + 1 {
      assert |s| == m + 1;
      SubseqDropLast(s, l);
    } else if |s| == m + 1 {
      SubseqDropLastLeft(s, l);
    }
  }

  /** One operation on both caches. */
  lemma InclusionStep<V(!new)>(s: Slots<V>, m: nat, l: Slots<V>, n: nat, op: Op<V>, now: int)
    requires Included(s, m, l, n)
    ensures Included(Apply(s, m, op, now), m, Apply(l, n, op, now), n)
  {
    match op
    case Get(k) => InclusionGet(s, m, l, n, k, now);
    case Set(k, v, e) => InclusionSet(s, m, l, n, Slot(k, v, e));
    case Delete(k) => InclusionDelete(s, m, l, n, k);
    case Clear =>
    case Cleanup =>
      SubseqFresh(s, l, now);
      FreshFacts(s, now);
      FreshFacts(l, now);
  }

  /** A hit in the smaller cache is a hit in the larger one, with the same value. */
  lemma HitsIncluded<V(!new)>(s: Slots<V>, m: nat, l: Slots<V>, n: nat, key: string, now: int)
    requires Included(s, m, l, n)
    ensures GetResult(s, key, now).Some? ==> GetResult(l, key, now) == GetResult(s, key, now)
  {
    if Has(s, key) {
      SameSlot(s, l, key);
    }
  }

  // ---------- whole runs ----------

  datatype Timed<V> = Timed(op: Op<V>, now: int)

  ghost function Run<V>(cap: nat, ops: seq<Timed<V>>): Slots<V> {
    if ops == [] then []
    else Apply(Run(cap, ops[..|ops|-1]), cap, ops[|ops|-1].op, ops[|ops|-1].now)
  }

  lemma {:induction false} RunIncluded<V(!new)>(m: nat, n: nat, ops: seq<Timed<V>>)
    requires m <= n
    ensures Included(Run(m, ops), m, Run(n, ops), n)
  {
    if ops != [] {
      var k := |ops| - 1;
      RunIncluded(m, n, ops[..k]);
      InclusionStep(Run(m, ops[..k]), m, Run(n, ops[..k]), n, ops[k].op, ops[k].now);
    }
  }

  /** Feed the same timed operations to caches of capacities m <= n: whatever the smaller one would answer after any
      of them, the larger one answers too. No assumption on the clock is needed. */
  lemma BiggerCacheNeverLosesAHit<V(!new)>(m: nat, n: nat, ops: seq<Timed<V>>, key: string, now: int)
    requires m <= n
    ensures GetResult(Run(m, ops), key, now).Some? ==>
            GetResult(Run(n, ops), key, now) == GetResult(Run(m, ops), key, now)
  {
    RunIncluded(m, n, ops);
    HitsIncluded(Run(m, ops), m, Run(n, ops), n, key, now);
  }

  // ---------- what a cache answers ----------

  /** `ops[i]` is the last operation on the contents of `key`, and it is a Set. */
  ghost predicate LastSet<V>(ops: seq<Timed<V>>, key: string, i: nat) {
    && i < |ops| && ops[i].op.Set? && ops[i].op.key == key
    && forall j :: i < j < |ops| ==>
         && ops[j].op != Clear
         && (ops[j].op.Delete? || ops[j].op.Set? ==> ops[j].op.key != key)
  }

  /** Whatever was evicted, a hit is never stale: its value is that of the last Set of the key, which was neither
      deleted nor cleared since and has not expired. */
  lemma {:induction false} EntriesAreLastSets<V(!new)>(cap: nat, ops: seq<Timed<V>>, x: Slot<V>)
    requires x in Run(cap, ops)
    ensures exists i: nat :: LastSet(ops, x.key, i) && ops[i].op == Set(x.key, x.value, x.expiry)
  {
    var k := |ops| - 1;
    var prior, op, now := Run(cap, ops[..k]), ops[k].op, ops[k].now;
    if op.Set? && op.key == x.key {
      SetEntry(prior, cap, Slot(op.key, op.value, op.expiry), x);
      assert LastSet(ops, x.key, k);
    } else {
      EntryBefore(prior, cap, op, now, x);
      EntriesAreLastSets(cap, ops[..k], x);
      var i: nat :| LastSet(ops[..k], x.key, i) && ops[..k][i].op == Set(x.key, x.value, x.expiry);
      assert forall j :: i < j < k ==> ops[..k][j] == ops[j];
      assert LastSet(ops, x.key, i) && ops[i].op == Set(x.key, x.value, x.expiry);
    }
  }

  lemma SetEntry<V(!new)>(s: Slots<V>, cap: nat, x: Slot<V>, y: Slot<V>)
    requires y in AfterSet(s, cap, x) && y.key == x.key
    ensures y == x
  {
    WithoutFacts(s, x.key);
    HasMember(s, x.key);
  }

  /** An entry that an operation did not write was there before, and the operation did not remove it. */
  lemma EntryBefore<V(!new)>(s: Slots<V>, cap: nat, op: Op<V>, now: int, x: Slot<V>)
    requires x in Apply(s, cap, op, now) && !(op.Set? && op.key == x.key)
    ensures x in s && op != Clear && !(op.Delete? && op.key == x.key)
  {
    match op
    case Get(k) => EntryBeforeGet(s, k, now, x);
    case Set(k, v, e) => EntryBeforeSet(s, cap, Slot(k, v, e), x);
    case Delete(k) => WithoutMembers(s, k);
    case Clear =>
    case Cleanup => FreshFacts(s, now);
  }

  lemma EntryBeforeGet<V(!new)>(s: Slots<V>, k: string, now: int, x: Slot<V>)
    requires x in AfterGet(s, k, now)
    ensures x in s
  {
    WithoutMembers(s, k);
  }

  lemma EntryBeforeSet<V(!new)>(s: Slots<V>, cap: nat, y: Slot<V>, x: Slot<V>)
    requires x in AfterSet(s, cap, y) && x.key != y.key
    ensures x in s
  {
    WithoutMembers(s, y.key);
  }

  lemma HitIsLastSet<V(!new)>(cap: nat, ops: seq<Timed<V>>, key: string, now: int)
    requires GetResult(Run(cap, ops), key, now).Some?
    ensures exists i: nat :: LastSet(ops, key, i) && now <= ops[i].op.expiry
              && GetResult(Run(cap, ops), key, now) == Some(ops[i].op.value)
  {
    var x := At(Run(cap, ops), key);
    EntriesAreLastSets(cap, ops, x);
    var i: nat :| LastSet(ops, x.key, i) && ops[i].op == Set(x.key, x.value, x.expiry);
    assert LastSet(ops, key, i);
  }
}
