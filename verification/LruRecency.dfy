/** When the LRU cache answers at all: what was set or read recently is still there (internal/cache/lru.go). The laws
    speak of the operations of a run and of what they were answered, not of the order the cache keeps. */
module LruRecency {
  import opened LruModel
  import opened Wrappers

  // ---------- runs ----------

  /** The clock does not go back, up to `now`. */
  ghost predicate ClockRuns<V>(ops: seq<Timed<V>>, now: int) {
    && (forall i, j :: 0 <= i < j < |ops| ==> ops[i].now <= ops[j].now)
    && (forall i :: 0 <= i < |ops| ==> ops[i].now <= now)
  }

  /** The answer of the i-th operation, were it a Get of this key. */
  ghost function Answer<V>(cap: nat, ops: seq<Timed<V>>, i: nat, key: string): Option<V>
    requires i < |ops|
  {
    GetResult(Run(cap, ops[..i]), key, ops[i].now)
  }

  /** The i-th operation is a Set of the key, or a Get of it that hit. */
  ghost predicate Touches<V>(cap: nat, ops: seq<Timed<V>>, i: nat, key: string)
    requires i < |ops|
  {
    || (ops[i].op.Set? && ops[i].op.key == key)
    || (ops[i].op == Get(key) && Answer(cap, ops, i, key).Some?)
  }

  /** The other keys that are named in a Get or Set from place t on. */
  ghost function NamedFrom<V>(ops: seq<Timed<V>>, t: nat, key: string): set<string> {
    set i | t <= i < |ops| && (ops[i].op.Get? || ops[i].op.Set?) && ops[i].op.key != key :: ops[i].op.key
  }

  ghost predicate TouchesOther<V>(cap: nat, ops: seq<Timed<V>>, i: nat, key: string)
    requires i < |ops|
  {
    (ops[i].op.Get? || ops[i].op.Set?) && ops[i].op.key != key && Touches(cap, ops, i, ops[i].op.key)
  }

  /** The other keys that are touched from place t on, before place n. */
  ghost function TouchedIn<V>(cap: nat, ops: seq<Timed<V>>, t: nat, n: nat, key: string): set<string>
    requires n <= |ops|
  {
    set i | t <= i < n && TouchesOther(cap, ops, i, key) :: ops[i].op.key
  }

  /** The other keys that are touched from place t on. */
  ghost function TouchedFrom<V>(cap: nat, ops: seq<Timed<V>>, t: nat, key: string): set<string> {
    TouchedIn(cap, ops, t, |ops|, key)
  }

  // ---------- where an entry stands ----------

  lemma {:induction false} RunDistinct<V(!new)>(cap: nat, ops: seq<Timed<V>>)
    ensures DistinctKeys(Run(cap, ops)) && |Run(cap, ops)| <= cap
  {
    RunIncluded(cap, cap, ops);
  }

  /** The keys of the entries in front of this one. */
  ghost function Ahead<V>(s: Slots<V>, key: string): set<string> {
    set j | 0 <= j < Find(s, key) :: s[j].key
  }

  lemma {:induction false} PrefixKeys<V>(s: Slots<V>, n: nat)
    requires DistinctKeys(s) && n <= |s|
    ensures |set j | 0 <= j < n :: s[j].key| == n
  {
    var keys := set j | 0 <= j < n :: s[j].key;
    if n > 0 {
      PrefixKeys(s, n - 1);
      var fewer := set j | 0 <= j < n - 1 :: s[j].key;
      assert keys == fewer + {s[n-1].key};
      assert s[n-1].key !in fewer;
    } else {
      assert keys == {};
    }
  }

  lemma AheadSize<V>(s: Slots<V>, key: string)
    requires DistinctKeys(s)
    ensures |Ahead(s, key)| == Find(s, key)
  {
    PrefixKeys(s, Find(s, key));
  }

  lemma AheadCons<V>(s: Slots<V>, key: string)
    requires s != []
    ensures Ahead(s, key) == if s[0].key == key then {} else {s[0].key} + Ahead(s[1..], key)
  {
    if s[0].key != key {
      var rest := Ahead(s[1..], key);
      forall k | k in rest ensures k in Ahead(s, key) {
        var j :| 0 <= j < Find(s[1..], key) && s[1..][j].key == k;
        assert s[j+1].key == k;
      }
      forall k | k in Ahead(s, key) ensures k in {s[0].key} + rest {
        var j :| 0 <= j < Find(s, key) && s[j].key == k;
        if j > 0 {
          assert s[1..][j-1].key == k;
        }
      }
    }
  }

  /** The entry is there, behind exactly these keys. */
  ghost predicate Stands<V>(s: Slots<V>, x: Slot<V>, ahead: set<string>) {
    DistinctKeys(s) && Has(s, x.key) && At(s, x.key) == x && Ahead(s, x.key) == ahead
  }

  lemma AtMember<V(!new)>(s: Slots<V>, x: Slot<V>)
    requires DistinctKeys(s) && x in s
    ensures Has(s, x.key) && At(s, x.key) == x
  {
    HasMember(s, x.key);
  }

  lemma StandsWithout<V(!new)>(s: Slots<V>, x: Slot<V>, ahead: set<string>, key: string)
    requires Stands(s, x, ahead) && key != x.key
    ensures Stands(Without(s, key), x, ahead - {key})
  {
    WithoutFacts(s, key);
    AtMember(Without(s, key), x);
    AheadWithout(s, x.key, key);
  }

  lemma {:induction false} AheadWithout<V(!new)>(s: Slots<V>, key: string, gone: string)
    requires DistinctKeys(s) && gone != key
    ensures Ahead(Without(s, gone), key) == Ahead(s, key) - {gone}
  {
    if s != [] {
      AheadCons(s, key);
      if s[0].key == gone {
        WithoutAbsent(s[1..], gone);
        NotAhead(s[1..], key, gone);
      } else {
        AheadWithout(s[1..], key, gone);
        AheadOnTop(s[0], Without(s[1..], gone), key);
      }
    }
  }

  lemma AheadOnTop<V>(y: Slot<V>, s: Slots<V>, key: string)
    ensures Ahead([y] + s, key) == if y.key == key then {} else {y.key} + Ahead(s, key)
  {
    AheadCons([y] + s, key);
    assert ([y] + s)[1..] == s;
  }

  lemma NotAhead<V(!new)>(s: Slots<V>, key: string, absent: string)
    requires !Has(s, absent)
    ensures absent !in Ahead(s, key)
  {
    HasMember(s, absent);
  }

  lemma {:induction false} StandsFresh<V(!new)>(s: Slots<V>, x: Slot<V>, ahead: set<string>, now: int)
    requires Stands(s, x, ahead) && now <= x.expiry
    ensures Has(Fresh(s, now), x.key) && At(Fresh(s, now), x.key) == x && DistinctKeys(Fresh(s, now))
    ensures Ahead(Fresh(s, now), x.key) <= ahead
  {
    FreshFacts(s, now);
    AheadCons(s, x.key);
    if s[0].key == x.key {
      AheadCons(Fresh(s, now), x.key);
    } else {
      assert At(s[1..], x.key) == x;
      StandsFresh(s[1..], x, Ahead(s[1..], x.key), now);
      if now <= s[0].expiry {
        AheadCons(Fresh(s, now), x.key);
        assert Fresh(s, now)[1..] == Fresh(s[1..], now);
      }
    }
  }

  lemma StandsBehind<V(!new)>(s: Slots<V>, x: Slot<V>, ahead: set<string>, y: Slot<V>)
    requires Stands(s, x, ahead) && y.key != x.key && !Has(s, y.key)
    ensures Stands([y] + s, x, ahead + {y.key})
  {
    FrontDistinct(y, s);
    assert ([y] + s)[1..] == s;
    AheadCons([y] + s, x.key);
  }

  lemma StandsFirst<V(!new)>(s: Slots<V>, x: Slot<V>)
    requires DistinctKeys(s) && !Has(s, x.key)
    ensures Stands([x] + s, x, {})
  {
    FrontDistinct(x, s);
    AheadCons([x] + s, x.key);
  }

  lemma {:induction false} FindInFront<V>(s: Slots<V>, n: nat, key: string)
    requires n <= |s|
    ensures Find(s[..n], key) == if Find(s, key) < n then Find(s, key) else n
  {
    if n > 0 && s[0].key != key {
      assert s[..n][1..] == s[1..][..n-1];
      FindInFront(s[1..], n - 1, key);
    }
  }

  /** Cutting the list keeps the entry exactly if it has fewer than `n` in front of it. */
  lemma StandsFront<V(!new)>(s: Slots<V>, x: Slot<V>, ahead: set<string>, n: nat)
    requires Stands(s, x, ahead)
    ensures |ahead| < n ==> Stands(Front(s, n), x, ahead)
    ensures |ahead| >= n ==> !Has(Front(s, n), x.key)
  {
    AheadSize(s, x.key);
    if |s| > n {
      FindInFront(s, n, x.key);
      if |ahead| < n {
        assert forall j :: 0 <= j < n ==> s[..n][j] == s[j];
        assert Ahead(s[..n], x.key) == Ahead(s, x.key);
      }
    }
  }

  // ---------- one operation ----------

  /** The other key this operation touches, if any. */
  ghost function TouchedBy<V>(s: Slots<V>, op: Op<V>, now: int, key: string): set<string> {
    if op.Set? && op.key != key then {op.key}
    else if op.Get? && op.key != key && GetResult(s, op.key, now).Some? then {op.key}
    else {}
  }

  /** A read or written entry comes first. */
  lemma TouchedOther<V(!new)>(s: Slots<V>, x: Slot<V>, ahead: set<string>, y: Slot<V>)
    requires Stands(s, x, ahead) && y.key != x.key
    ensures Stands([y] + Without(s, y.key), x, ahead + {y.key})
  {
    StandsWithout(s, x, ahead, y.key);
    WithoutFacts(s, y.key);
    StandsBehind(Without(s, y.key), x, ahead - {y.key}, y);
    assert ahead - {y.key} + {y.key} == ahead + {y.key};
  }

  lemma GetBeside<V(!new)>(s: Slots<V>, x: Slot<V>, ahead: set<string>, key: string, now: int)
    requires Stands(s, x, ahead) && key != x.key
    ensures Stands(AfterGet(s, key, now), x,
                   if GetResult(s, key, now).Some? then ahead + {key} else ahead - {key})
  {
    if GetResult(s, key, now).Some? {
      TouchedOther(s, x, ahead, At(s, key));
    } else {
      StandsWithout(s, x, ahead, key);
      WithoutFacts(s, key);
    }
  }

  lemma SetBeside<V(!new)>(s: Slots<V>, cap: nat, x: Slot<V>, ahead: set<string>, y: Slot<V>)
    requires Stands(s, x, ahead) && y.key != x.key && |s| <= cap
    ensures |ahead + {y.key}| < cap ==> Stands(AfterSet(s, cap, y), x, ahead + {y.key})
    ensures |ahead + {y.key}| >= cap ==> !Has(AfterSet(s, cap, y), x.key)
  {
    if Has(s, y.key) {
      TouchedOther(s, x, ahead, y);
      AheadSize([y] + Without(s, y.key), x.key);
      WithoutFacts(s, y.key);
    } else {
      StandsBehind(s, x, ahead, y);
      StandsFront([y] + s, x, ahead + {y.key}, cap);
    }
  }

  /** The entry is there, behind other keys of this set only. */
  ghost predicate Within<V>(s: Slots<V>, x: Slot<V>, others: set<string>) {
    DistinctKeys(s) && Has(s, x.key) && At(s, x.key) == x && Ahead(s, x.key) <= others
  }

  lemma SizeOfSubset(a: set<string>, b: set<string>)
    requires a <= b
    ensures |a| <= |b|
  {
    assert b == a + (b - a);
    assert |a + (b - a)| == |a| + |b - a|;
  }

  /** An operation that does not set, delete or outlive the entry keeps it, if few enough others come before it. */
  lemma StepKeeps<V(!new)>(s: Slots<V>, cap: nat, x: Slot<V>, others: set<string>, op: Op<V>, now: int)
    requires Within(s, x, others) && |s| <= cap && now <= x.expiry
    requires op != Clear && (op.Set? || op.Delete? ==> op.key != x.key)
    requires |others + TouchedBy(s, op, now, x.key)| < cap
    ensures Within(Apply(s, cap, op, now), x, others + TouchedBy(s, op, now, x.key))
  {
    var ahead := Ahead(s, x.key);
    match op
    case Get(k) =>
      if k == x.key {
        WithoutFacts(s, k);
        StandsFirst(Without(s, k), x);
      } else {
        GetBeside(s, x, ahead, k, now);
      }
    case Set(k, v, e) =>
      SizeOfSubset(ahead + {k}, others + {k});
      SetBeside(s, cap, x, ahead, Slot(k, v, e));
    case Delete(k) => StandsWithout(s, x, ahead, k);
    case Clear =>
    case Cleanup => StandsFresh(s, x, ahead, now);
  }

  // ---------- whole runs ----------

  lemma RunStep<V>(cap: nat, ops: seq<Timed<V>>, n: nat)
    requires n < |ops|
    ensures Run(cap, ops[..n+1]) == Apply(Run(cap, ops[..n]), cap, ops[n].op, ops[n].now)
  {
    assert ops[..n+1][..n] == ops[..n];
  }

  lemma TouchedSnoc<V>(cap: nat, ops: seq<Timed<V>>, t: nat, n: nat, key: string)
    requires t <= n < |ops|
    ensures TouchedIn(cap, ops, t, n + 1, key) ==
            TouchedIn(cap, ops, t, n, key) + TouchedBy(Run(cap, ops[..n]), ops[n].op, ops[n].now, key)
  {
    var last := if TouchesOther(cap, ops, n, key) then {ops[n].op.key} else {};
    assert TouchedBy(Run(cap, ops[..n]), ops[n].op, ops[n].now, key) == last;
    assert TouchedIn(cap, ops, t, n + 1, key) == TouchedIn(cap, ops, t, n, key) + last;
  }

  lemma TouchedMore<V>(cap: nat, ops: seq<Timed<V>>, t: nat, m: nat, n: nat, key: string)
    requires m <= n <= |ops|
    ensures |TouchedIn(cap, ops, t, m, key)| <= |TouchedIn(cap, ops, t, n, key)|
  {
    SizeOfSubset(TouchedIn(cap, ops, t, m, key), TouchedIn(cap, ops, t, n, key));
  }

  /** The entry the last Set of a key made. */
  function SetSlot<V>(ops: seq<Timed<V>>, i: nat): Slot<V>
    requires i < |ops| && ops[i].op.Set?
  {
    Slot(ops[i].op.key, ops[i].op.value, ops[i].op.expiry)
  }

  lemma LastSetUnique<V>(ops: seq<Timed<V>>, key: string, i: nat, j: nat)
    requires LastSet(ops, key, i) && LastSet(ops, key, j)
    ensures i == j
  {}

  lemma LastSetBefore<V>(ops: seq<Timed<V>>, key: string, i: nat, n: nat)
    requires LastSet(ops, key, i) && i < n <= |ops|
    ensures LastSet(ops[..n], key, i)
  {}

  /** An entry of this key is the one its last Set made. */
  lemma EntryIs<V(!new)>(cap: nat, ops: seq<Timed<V>>, key: string, i: nat, n: nat)
    requires LastSet(ops, key, i) && i < n <= |ops| && Has(Run(cap, ops[..n]), key)
    ensures At(Run(cap, ops[..n]), key) == SetSlot(ops, i)
  {
    var y := At(Run(cap, ops[..n]), key);
    EntriesAreLastSets(cap, ops[..n], y);
    var j: nat :| LastSet(ops[..n], y.key, j) && ops[..n][j].op == Set(y.key, y.value, y.expiry);
    LastSetBefore(ops, key, i, n);
    LastSetUnique(ops[..n], key, i, j);
  }

  /** Right after it was touched, an entry comes first. */
  lemma TouchedFirst<V(!new)>(cap: nat, ops: seq<Timed<V>>, t: nat, i: nat, key: string)
    requires t < |ops| && cap > 0 && Touches(cap, ops, t, key) && LastSet(ops, key, i) && i <= t
    ensures Stands(Run(cap, ops[..t+1]), SetSlot(ops, i), {})
  {
    var s, x := Run(cap, ops[..t]), SetSlot(ops, i);
    RunStep(cap, ops, t);
    RunDistinct(cap, ops[..t]);
    if ops[t].op.Set? {
      SetFirst(s, cap, x);
    } else {
      EntryIs(cap, ops, key, i, t);
      WithoutFacts(s, key);
      StandsFirst(Without(s, key), x);
    }
  }

  lemma SetFirst<V(!new)>(s: Slots<V>, cap: nat, x: Slot<V>)
    requires DistinctKeys(s) && cap > 0
    ensures Stands(AfterSet(s, cap, x), x, {})
  {
    WithoutFacts(s, x.key);
    if Has(s, x.key) {
      StandsFirst(Without(s, x.key), x);
    } else {
      StandsFirst(s, x);
      StandsFront([x] + s, x, {}, cap);
    }
  }

  lemma {:induction false} StaysWithin<V(!new)>(cap: nat, ops: seq<Timed<V>>, t: nat, i: nat, n: nat, key: string,
                                                now: int)
    requires ClockRuns(ops, now) && i <= t < n <= |ops|
    requires Touches(cap, ops, t, key) && LastSet(ops, key, i) && now <= ops[i].op.expiry
    requires |TouchedIn(cap, ops, t + 1, n, key)| < cap
    ensures Within(Run(cap, ops[..n]), SetSlot(ops, i), TouchedIn(cap, ops, t + 1, n, key))
    decreases n
  {
    if n == t + 1 {
      TouchedFirst(cap, ops, t, i, key);
    } else {
      var m := n - 1;
      TouchedMore(cap, ops, t + 1, m, n, key);
      StaysWithin(cap, ops, t, i, m, key, now);
      TouchedSnoc(cap, ops, t + 1, m, key);
      RunStep(cap, ops, m);
      RunDistinct(cap, ops[..m]);
      StepKeeps(Run(cap, ops[..m]), cap, SetSlot(ops, i), TouchedIn(cap, ops, t + 1, m, key), ops[m].op, ops[m].now);
    }
  }

  /** What was set or read is answered with its last value, as long as it has not been deleted, cleared or outlived, and
      fewer than `cap` different other keys have been set or read since. */
  lemma RecentIsHit<V(!new)>(cap: nat, ops: seq<Timed<V>>, t: nat, i: nat, key: string, now: int)
    requires ClockRuns(ops, now) && t < |ops|
    requires Touches(cap, ops, t, key) && LastSet(ops, key, i) && now <= ops[i].op.expiry
    requires |TouchedFrom(cap, ops, t + 1, key)| < cap
    ensures GetResult(Run(cap, ops), key, now) == Some(ops[i].op.value)
  {
    assert ops[..|ops|] == ops;
    if i <= t {
      StaysWithin(cap, ops, t, i, |ops|, key, now);
    } else {
      SizeOfSubset(TouchedFrom(cap, ops, i + 1, key), TouchedFrom(cap, ops, t + 1, key));
      StaysWithin(cap, ops, i, i, |ops|, key, now);
    }
  }

  /** So it is if fewer than `cap` different other keys have been named since. */
  lemma RecentlyNamedIsHit<V(!new)>(cap: nat, ops: seq<Timed<V>>, t: nat, i: nat, key: string, now: int)
    requires ClockRuns(ops, now) && t < |ops|
    requires Touches(cap, ops, t, key) && LastSet(ops, key, i) && now <= ops[i].op.expiry
    requires |NamedFrom(ops, t + 1, key)| < cap
    ensures GetResult(Run(cap, ops), key, now) == Some(ops[i].op.value)
  {
    SizeOfSubset(TouchedFrom(cap, ops, t + 1, key), NamedFrom(ops, t + 1, key));
    RecentIsHit(cap, ops, t, i, key, now);
  }

  // ---------- exactly ----------

  /** Nothing that was ever set expires before `now`. */
  ghost predicate NothingExpires<V>(ops: seq<Timed<V>>, now: int) {
    forall j :: 0 <= j < |ops| && ops[j].op.Set? ==> now <= ops[j].op.expiry
  }

  /** `t` is the last time the key was touched, and since then there were only Gets and Sets. */
  ghost predicate LastTouch<V>(cap: nat, ops: seq<Timed<V>>, t: nat, key: string) {
    && t < |ops| && Touches(cap, ops, t, key)
    && forall j :: t < j < |ops| ==> (ops[j].op.Get? || ops[j].op.Set?) && !Touches(cap, ops, j, key)
  }

  lemma Unexpired<V(!new)>(cap: nat, ops: seq<Timed<V>>, n: nat, now: int, key: string, at: int)
    requires NothingExpires(ops, now) && at <= now && n <= |ops|
    ensures Has(Run(cap, ops[..n]), key) ==> GetResult(Run(cap, ops[..n]), key, at).Some?
  {
    if Has(Run(cap, ops[..n]), key) {
      var x := At(Run(cap, ops[..n]), key);
      EntriesAreLastSets(cap, ops[..n], x);
      var i: nat :| LastSet(ops[..n], x.key, i) && ops[..n][i].op == Set(x.key, x.value, x.expiry);
      assert ops[i].op.expiry == x.expiry;
    }
  }

  /** The entry stands behind exactly the others, or has been pushed out by them. */
  ghost predicate Exactly<V>(s: Slots<V>, cap: nat, x: Slot<V>, others: set<string>) {
    if |others| < cap then Stands(s, x, others) else !Has(s, x.key)
  }

  lemma StepExact<V(!new)>(s: Slots<V>, cap: nat, x: Slot<V>, others: set<string>, op: Op<V>, now: int)
    requires Exactly(s, cap, x, others) && DistinctKeys(s) && |s| <= cap
    requires op.Get? || (op.Set? && op.key != x.key)
    requires op.Get? ==> (Has(s, op.key) ==> GetResult(s, op.key, now).Some? && op.key != x.key)
    ensures Exactly(Apply(s, cap, op, now), cap, x, others + TouchedBy(s, op, now, x.key))
  {
    var y := TouchedBy(s, op, now, x.key);
    SizeOfSubset(others, others + y);
    match op
    case Get(k) =>
      if Has(s, k) {
        StepExactHit(s, cap, x, others, k, now);
      } else {
        assert others + y == others;
      }
    case Set(k, v, e) =>
      if |others| < cap {
        SetBeside(s, cap, x, others, Slot(k, v, e));
      } else {
        SetNotBack(s, cap, x.key, Slot(k, v, e));
      }
  }

  lemma StepExactHit<V(!new)>(s: Slots<V>, cap: nat, x: Slot<V>, others: set<string>, k: string, now: int)
    requires Exactly(s, cap, x, others) && DistinctKeys(s) && |s| <= cap
    requires k != x.key && Has(s, k) && GetResult(s, k, now).Some?
    ensures Exactly(AfterGet(s, k, now), cap, x, others + {k})
  {
    SizeOfSubset(others, others + {k});
    WithoutFacts(s, k);
    if |others| < cap {
      GetBeside(s, x, others, k, now);
      AheadSize(AfterGet(s, k, now), x.key);
    } else {
      HasMember(s, x.key);
      HasMember(AfterGet(s, k, now), x.key);
    }
  }

  lemma SetNotBack<V(!new)>(s: Slots<V>, cap: nat, key: string, y: Slot<V>)
    requires !Has(s, key) && y.key != key
    ensures !Has(AfterSet(s, cap, y), key)
  {
    WithoutMembers(s, y.key);
    HasMember(s, key);
    HasMember(AfterSet(s, cap, y), key);
  }

  lemma SetNotAfterTouch<V>(cap: nat, ops: seq<Timed<V>>, t: nat, i: nat, key: string)
    requires LastTouch(cap, ops, t, key) && LastSet(ops, key, i)
    ensures i <= t
  {
    if i > t {
      assert Touches(cap, ops, i, key);
    }
  }

  /** One more operation after the last touch. */
  lemma NextExact<V(!new)>(cap: nat, ops: seq<Timed<V>>, t: nat, n: nat, key: string, now: int, x: Slot<V>,
                           others: set<string>)
    requires ClockRuns(ops, now) && NothingExpires(ops, now) && LastTouch(cap, ops, t, key) && t < n < |ops|
    requires x.key == key && Exactly(Run(cap, ops[..n]), cap, x, others)
    ensures Exactly(Run(cap, ops[..n+1]), cap, x, others + TouchedBy(Run(cap, ops[..n]), ops[n].op, ops[n].now, key))
  {
    RunStep(cap, ops, n);
    RunDistinct(cap, ops[..n]);
    assert !Touches(cap, ops, n, key);
    if ops[n].op.Get? {
      Unexpired(cap, ops, n, now, ops[n].op.key, ops[n].now);
    }
    StepExact(Run(cap, ops[..n]), cap, x, others, ops[n].op, ops[n].now);
  }

  lemma {:induction false} ExactlyThroughout<V(!new)>(cap: nat, ops: seq<Timed<V>>, t: nat, i: nat, n: nat,
                                                      key: string, now: int)
    requires cap > 0 && ClockRuns(ops, now) && NothingExpires(ops, now) && t < n <= |ops|
    requires LastTouch(cap, ops, t, key) && LastSet(ops, key, i) && i <= t
    ensures Exactly(Run(cap, ops[..n]), cap, SetSlot(ops, i), TouchedIn(cap, ops, t + 1, n, key))
    decreases n
  {
    if n == t + 1 {
      TouchedFirst(cap, ops, t, i, key);
      assert TouchedIn(cap, ops, t + 1, n, key) == {};
    } else {
      ExactlyThroughout(cap, ops, t, i, n - 1, key, now);
      TouchedSnoc(cap, ops, t + 1, n - 1, key);
      NextExact(cap, ops, t, n - 1, key, now, SetSlot(ops, i), TouchedIn(cap, ops, t + 1, n - 1, key));
    }
  }

  /** While nothing is deleted or expires, that is exactly when: since a key was last set or read, fewer than `cap`
      different other keys have been. */
  lemma HitIffRecent<V(!new)>(cap: nat, ops: seq<Timed<V>>, t: nat, i: nat, key: string, now: int)
    requires ClockRuns(ops, now) && NothingExpires(ops, now)
    requires LastTouch(cap, ops, t, key) && LastSet(ops, key, i)
    ensures GetResult(Run(cap, ops), key, now) ==
            if |TouchedFrom(cap, ops, t + 1, key)| < cap then Some(ops[i].op.value) else None
  {
    assert ops[..|ops|] == ops;
    SetNotAfterTouch(cap, ops, t, i, key);
    if cap > 0 {
      ExactlyThroughout(cap, ops, t, i, |ops|, key, now);
    } else {
      RunDistinct(cap, ops);
    }
  }

  // ---------- what stays in memory ----------

  /** Right after a cleanup the cache holds exactly the keys it would still answer. */
  lemma CleanupKeepsHits<V(!new)>(cap: nat, ops: seq<Timed<V>>, now: int, key: string)
    ensures Has(Run(cap, ops + [Timed(Cleanup, now)]), key) <==> GetResult(Run(cap, ops), key, now).Some?
  {
    var s := Run(cap, ops);
    var cleaned := Run(cap, ops + [Timed(Cleanup, now)]);
    assert (ops + [Timed(Cleanup, now)])[..|ops|] == ops;
    assert cleaned == Fresh(s, now);
    RunDistinct(cap, ops);
    FreshFacts(s, now);
    if Has(cleaned, key) {
      AtMember(s, At(cleaned, key));
    }
    if GetResult(s, key, now).Some? {
      AtMember(cleaned, At(s, key));
    }
  }
}
