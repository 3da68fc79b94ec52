/** The per-key limiter: one bucket for each key, made when the key is first seen and dropped when it has been idle
    (internal/security/ratelimit/tokenbucket.go, lines 139-245). Requests and cleanups run one at a time. */
module LimiterModel {
  import opened RateModel

  type Buckets = map<string, Bucket>

  datatype Action =
    | Request(key: string, at: real)
    | Cleanup(maxAge: real, at: real)

  function One(at: real): Timed {
    Timed(at, Ask(1))
  }

  /** The bucket a request of `key` meets: a new one is full (lines 209-218). */
  function BucketFor(p: Limit, m: Buckets, key: string, at: real): Bucket {
    if key in m then m[key] else FullBucket(p, at)
  }

  predicate Admitted(p: Limit, m: Buckets, key: string, at: real) {
    Granted(p, BucketFor(p, m, key, at), One(at))
  }

  /** Lines 229-245. */
  function Kept(m: Buckets, maxAge: real, now: real): Buckets {
    map k | k in m && now - m[k].last <= maxAge :: m[k]
  }

  function Act(p: Limit, m: Buckets, a: Action): Buckets {
    match a
    case Request(k, at) => m[k := Step(p, BucketFor(p, m, k, at), One(at))]
    case Cleanup(maxAge, at) => Kept(m, maxAge, at)
  }

  /** The decisions on the requests of a run. */
  function Decided(p: Limit, m: Buckets, acts: seq<Action>): seq<bool>
    decreases |acts|
  {
    if acts == [] then []
    else
      var rest := Decided(p, Act(p, m, acts[0]), acts[1..]);
      if acts[0].Request? then [Admitted(p, m, acts[0].key, acts[0].at)] + rest else rest
  }

  function RequestsOnly(acts: seq<Action>): seq<Action> {
    if acts == [] then []
    else if acts[0].Request? then [acts[0]] + RequestsOnly(acts[1..])
    else RequestsOnly(acts[1..])
  }

  ghost predicate ActsInOrder(from: real, acts: seq<Action>)
    decreases |acts|
  {
    acts != [] ==> from <= acts[0].at && ActsInOrder(acts[0].at, acts[1..])
  }

  /** Every cleanup only drops buckets that are idle long enough to have filled up again. */
  ghost predicate CleanupsLate(p: Limit, acts: seq<Action>) {
    forall i :: 0 <= i < |acts| && acts[i].Cleanup? ==> FillsWithin(p, acts[i].maxAge)
  }

  ghost predicate FillsWithin(p: Limit, maxAge: real) {
    forall t :: p.produced(t + maxAge) - p.produced(t) >= Cap(p)
  }

  // ---------- transparency of cleanups ----------

  ghost predicate BucketsGood(p: Limit, m: Buckets, now: real) {
    forall k :: k in m ==> InRange(p, m[k]) && m[k].last <= now
  }

  function LevelFor(p: Limit, m: Buckets, key: string, now: real): real {
    Level(p, BucketFor(p, m, key, now), now)
  }

  /** The two limiters answer alike from `now` on. */
  ghost predicate Alike(p: Limit, m: Buckets, n: Buckets, now: real) {
    && BucketsGood(p, m, now) && BucketsGood(p, n, now)
    && forall k :: LevelFor(p, m, k, now) == LevelFor(p, n, k, now)
  }

  lemma AlikeRequest(p: Limit, m: Buckets, n: Buckets, key: string, at: real)
    requires Monotone(p.produced) && Alike(p, m, n, at)
    ensures Admitted(p, m, key, at) == Admitted(p, n, key, at)
    ensures Alike(p, Act(p, m, Request(key, at)), Act(p, n, Request(key, at)), at)
  {
    var b, c := BucketFor(p, m, key, at), BucketFor(p, n, key, at);
    assert LevelFor(p, m, key, at) == LevelFor(p, n, key, at);
    SameLevelStep(p, b, c, One(at));
    StepInRange(p, b, One(at));
    StepInRange(p, c, One(at));
    var m', n' := Act(p, m, Request(key, at)), Act(p, n, Request(key, at));
    forall k ensures LevelFor(p, m', k, at) == LevelFor(p, n', k, at) {
      if k != key {
        assert LevelFor(p, m, k, at) == LevelFor(p, n, k, at);
      }
    }
  }

  /** A bucket that a late cleanup drops is full. */
  lemma DroppedWasFull(p: Limit, b: Bucket, maxAge: real, now: real)
    requires Monotone(p.produced) && InRange(p, b) && FillsWithin(p, maxAge) && now - b.last > maxAge && b.last <= now
    ensures Level(p, b, now) == Cap(p)
  {
    assert p.produced(b.last + maxAge) - p.produced(b.last) >= Cap(p);
    assert p.produced(b.last + maxAge) <= p.produced(now);
    assert p.produced(b.last) <= p.produced(now);
  }

  lemma AlikeCleanup(p: Limit, m: Buckets, n: Buckets, maxAge: real, now: real)
    requires Monotone(p.produced) && Alike(p, m, n, now) && FillsWithin(p, maxAge)
    ensures Alike(p, Kept(m, maxAge, now), n, now)
  {
    var m' := Kept(m, maxAge, now);
    forall k ensures LevelFor(p, m', k, now) == LevelFor(p, n, k, now) {
      assert LevelFor(p, m, k, now) == LevelFor(p, n, k, now);
      if k in m && k !in m' {
        DroppedWasFull(p, m[k], maxAge, now);
      }
    }
  }

  lemma {:induction false} AlikeRun(p: Limit, m: Buckets, n: Buckets, now: real, acts: seq<Action>)
    requires Monotone(p.produced) && Alike(p, m, n, now) && ActsInOrder(now, acts) && CleanupsLate(p, acts)
    ensures Decided(p, m, acts) == Decided(p, n, RequestsOnly(acts))
    decreases |acts|
  {
    if acts != [] {
      var a := acts[0];
      forall k ensures LevelFor(p, m, k, a.at) == LevelFor(p, n, k, a.at) {
        assert LevelFor(p, m, k, now) == LevelFor(p, n, k, now);
        SameLevelLater(p, BucketFor(p, m, k, now), BucketFor(p, n, k, now), now, a.at);
      }
      match a
      case Request(k, at) =>
        AlikeRequest(p, m, n, k, at);
        AlikeRun(p, Act(p, m, a), Act(p, n, a), at, acts[1..]);
        assert RequestsOnly(acts)[0] == a && RequestsOnly(acts)[1..] == RequestsOnly(acts[1..]);
      case Cleanup(maxAge, at) =>
        AlikeCleanup(p, m, n, maxAge, at);
        AlikeRun(p, Act(p, m, a), n, at, acts[1..]);
    }
  }

  /** Cleanups anywhere in a run change no decision on any request, if an idle bucket is full again by the time it may
      be dropped. */
  lemma CleanupsTransparent(p: Limit, start: real, acts: seq<Action>)
    requires Monotone(p.produced) && ActsInOrder(start, acts) && CleanupsLate(p, acts)
    ensures Decided(p, map[], acts) == Decided(p, map[], RequestsOnly(acts))
  {
    AlikeRun(p, map[], map[], start, acts);
  }

  lemma ConstantRateFills(rate: real, burst: int, maxAge: real)
    ensures FillsWithin(Limit(burst, ConstantRate(rate)), maxAge) <==> maxAge * rate >= burst as real
  {
    var p := Limit(burst, ConstantRate(rate));
    forall t ensures p.produced(t + maxAge) - p.produced(t) == maxAge * rate {
      assert (t + maxAge) * rate == t * rate + maxAge * rate;
    }
    if FillsWithin(p, maxAge) {
      assert p.produced(0.0 + maxAge) - p.produced(0.0) >= Cap(p);
    }
  }

  // ---------- when cleanups are not transparent ----------

  function Repeat(n: nat, key: string, at: real): seq<Action> {
    seq(n, _ => Request(key, at))
  }

  function Trues(n: nat): seq<bool> {
    seq(n, _ => true)
  }

  lemma RepeatUnfold(n: nat, key: string, at: real)
    requires n > 0
    ensures Repeat(n, key, at)[0] == Request(key, at) && Repeat(n, key, at)[1..] == Repeat(n - 1, key, at)
  {}

  /** Admitting one of several requests at the same time. */
  lemma AdmitOne(p: Limit, m: Buckets, key: string, at: real)
    requires Monotone(p.produced) && BucketOk(p, m, key, at) && LevelFor(p, m, key, at) >= 1.0
    ensures Admitted(p, m, key, at) &&
            Act(p, m, Request(key, at)) == m[key := Bucket(LevelFor(p, m, key, at) - 1.0, at)]
    ensures LevelFor(p, Act(p, m, Request(key, at)), key, at) == LevelFor(p, m, key, at) - 1.0
    ensures BucketOk(p, Act(p, m, Request(key, at)), key, at)
  {
    StepInRange(p, BucketFor(p, m, key, at), One(at));
  }

  ghost predicate BucketOk(p: Limit, m: Buckets, key: string, at: real) {
    p.burst >= 0 && (key in m ==> InRange(p, m[key]) && m[key].last <= at)
  }

  /** `n` requests at one time are all admitted when the level is at least `n`, and take `n`. */
  lemma {:induction false} BurstAdmitted(p: Limit, m: Buckets, key: string, at: real, n: nat, after: seq<Action>)
    requires Monotone(p.produced) && BucketOk(p, m, key, at) && n >= 1 && LevelFor(p, m, key, at) >= n as real
    ensures Decided(p, m, Repeat(n, key, at) + after) ==
            Trues(n) + Decided(p, m[key := Bucket(LevelFor(p, m, key, at) - n as real, at)], after)
    decreases n
  {
    RepeatUnfold(n, key, at);
    AdmitOne(p, m, key, at);
    var m' := Act(p, m, Request(key, at));
    assert (Repeat(n, key, at) + after)[1..] == Repeat(n - 1, key, at) + after;
    assert Trues(n) == [true] + Trues(n - 1);
    if n > 1 {
      BurstAdmitted(p, m', key, at, n - 1, after);
      assert m'[key := Bucket(LevelFor(p, m', key, at) - (n - 1) as real, at)] ==
             m[key := Bucket(LevelFor(p, m, key, at) - n as real, at)];
      assert [true] + (Trues(n - 1) + Decided(p, m[key := Bucket(LevelFor(p, m, key, at) - n as real, at)], after)) ==
             Trues(n) + Decided(p, m[key := Bucket(LevelFor(p, m, key, at) - n as real, at)], after);
    } else {
      assert Repeat(0, key, at) + after == after;
    }
  }

  /** With a lower level one of them is refused. */
  lemma {:induction false} BurstRefused(p: Limit, m: Buckets, key: string, at: real, n: nat)
    requires Monotone(p.produced) && BucketOk(p, m, key, at) && LevelFor(p, m, key, at) < n as real
    ensures false in Decided(p, m, Repeat(n, key, at))
    decreases n
  {
    RepeatUnfold(n, key, at);
    if Admitted(p, m, key, at) {
      AdmitOne(p, m, key, at);
      BurstRefused(p, Act(p, m, Request(key, at)), key, at, n - 1);
    } else {
      assert Decided(p, m, Repeat(n, key, at))[0] == false;
    }
  }

  /** The run that shows the difference: drain a bucket at time 0, clean up at `age`, ask for a whole burst again. */
  function DrainAndReturn(burst: nat, maxAge: real, age: real): seq<Action> {
    Repeat(burst, "k", 0.0) + ([Cleanup(maxAge, age)] + Repeat(burst, "k", age))
  }

  lemma {:induction false} RepeatInOrder(n: nat, key: string, at: real, rest: seq<Action>)
    requires ActsInOrder(at, rest)
    ensures ActsInOrder(at, Repeat(n, key, at) + rest)
    ensures RequestsOnly(Repeat(n, key, at) + rest) == Repeat(n, key, at) + RequestsOnly(rest)
  {
    if n == 0 {
      assert Repeat(0, key, at) + rest == rest;
      assert Repeat(0, key, at) + RequestsOnly(rest) == RequestsOnly(rest);
    } else {
      RepeatUnfold(n, key, at);
      RepeatInOrder(n - 1, key, at, rest);
      assert (Repeat(n, key, at) + rest)[1..] == Repeat(n - 1, key, at) + rest;
      assert Repeat(n, key, at) == [Request(key, at)] + Repeat(n - 1, key, at);
    }
  }

  lemma DrainOrder(n: nat, maxAge: real, age: real)
    requires age >= 0.0
    ensures ActsInOrder(0.0, DrainAndReturn(n, maxAge, age))
    ensures RequestsOnly(DrainAndReturn(n, maxAge, age)) == Repeat(n, "k", 0.0) + Repeat(n, "k", age)
  {
    var again := Repeat(n, "k", age);
    var tail := [Cleanup(maxAge, age)] + again;
    RepeatInOrder(n, "k", age, []);
    assert again + [] == again && again + RequestsOnly([]) == again;
    assert tail[1..] == again;
    RepeatInOrder(n, "k", 0.0, tail);
  }

  const DRAINED: Buckets := map["k" := Bucket(0.0, 0.0)]

  /** After a whole burst at time 0 the bucket is empty. */
  lemma DrainedAfterBurst(p: Limit, after: seq<Action>)
    requires Monotone(p.produced) && p.burst >= 1
    ensures Decided(p, map[], Repeat(p.burst, "k", 0.0) + after) == Trues(p.burst) + Decided(p, DRAINED, after)
  {
    BurstAdmitted(p, map[], "k", 0.0, p.burst, after);
    var none: Buckets := map[];
    assert none["k" := Bucket(LevelFor(p, none, "k", 0.0) - p.burst as real, 0.0)] == DRAINED;
  }

  /** A fresh bucket admits a whole burst at `age`; the drained one does not. */
  lemma SecondBurst(p: Limit, age: real)
    requires Monotone(p.produced) && p.burst >= 1 && age >= 0.0 && p.produced(age) - p.produced(0.0) < Cap(p)
    ensures Decided(p, map[], Repeat(p.burst, "k", age)) != Decided(p, DRAINED, Repeat(p.burst, "k", age))
  {
    var again := Repeat(p.burst, "k", age);
    BurstAdmitted(p, map[], "k", age, p.burst, []);
    assert again + [] == again;
    assert false !in Decided(p, map[], again);
    assert p.produced(0.0) <= p.produced(age);
    BurstRefused(p, DRAINED, "k", age, p.burst);
  }

  /** If a dropped bucket would not have been full, a cleanup lets more through than the bucket would have. */
  lemma EarlyCleanupShows(p: Limit, maxAge: real, age: real)
    requires Monotone(p.produced) && p.burst >= 1 && age > maxAge && age >= 0.0
    requires p.produced(age) - p.produced(0.0) < Cap(p)
    ensures ActsInOrder(0.0, DrainAndReturn(p.burst, maxAge, age))
    ensures var acts := DrainAndReturn(p.burst, maxAge, age);
            Decided(p, map[], acts) != Decided(p, map[], RequestsOnly(acts))
  {
    var again := Repeat(p.burst, "k", age);
    var tail := [Cleanup(maxAge, age)] + again;
    DrainOrder(p.burst, maxAge, age);
    DrainedAfterBurst(p, tail);
    DrainedAfterBurst(p, again);
    assert Kept(DRAINED, maxAge, age) == map[];
    assert tail[1..] == again;
    assert Decided(p, DRAINED, tail) == Decided(p, map[], again);
    SecondBurst(p, age);
    DifferentTails(Trues(p.burst), Decided(p, map[], again), Decided(p, DRAINED, again));
  }

  lemma DifferentTails(a: seq<bool>, b: seq<bool>, c: seq<bool>)
    requires b != c
    ensures a + b != a + c
  {
    assert (a + b)[|a|..] == b && (a + c)[|a|..] == c;
  }

  /** Every cleanup of the run uses this age. */
  ghost predicate CleanupsAt(acts: seq<Action>, maxAge: real) {
    forall i :: 0 <= i < |acts| && acts[i].Cleanup? ==> acts[i].maxAge == maxAge
  }

  ghost predicate TransparentAt(p: Limit, maxAge: real) {
    forall acts: seq<Action>, start: real :: ActsInOrder(start, acts) && CleanupsAt(acts, maxAge) ==>
      Decided(p, map[], acts) == Decided(p, map[], RequestsOnly(acts))
  }

  /** With a constant rate and a burst of at least one, a cleanup age is transparent for all runs exactly when the
      bucket can fill within it. */
  lemma CleanupTransparentIff(rate: real, burst: int, maxAge: real)
    requires rate >= 0.0 && burst >= 1
    ensures maxAge * rate >= burst as real <==> TransparentAt(Limit(burst, ConstantRate(rate)), maxAge)
  {
    var p := Limit(burst, ConstantRate(rate));
    ConstantRateMonotone(rate);
    ConstantRateFills(rate, burst, maxAge);
    if maxAge * rate >= burst as real {
      LateIsTransparent(p, maxAge);
    } else {
      var age := EarlyAge(rate, burst, maxAge);
      assert p.produced(age) - p.produced(0.0) == age * rate;
      EarlyIsNot(p, maxAge, age);
    }
  }

  lemma LateIsTransparent(p: Limit, maxAge: real)
    requires Monotone(p.produced) && FillsWithin(p, maxAge)
    ensures TransparentAt(p, maxAge)
  {
    forall acts: seq<Action>, start: real | ActsInOrder(start, acts) && CleanupsAt(acts, maxAge)
      ensures Decided(p, map[], acts) == Decided(p, map[], RequestsOnly(acts))
    {
      CleanupsTransparent(p, start, acts);
    }
  }

  lemma EarlyIsNot(p: Limit, maxAge: real, age: real)
    requires Monotone(p.produced) && p.burst >= 1 && age > maxAge && age >= 0.0
    requires p.produced(age) - p.produced(0.0) < Cap(p)
    ensures !TransparentAt(p, maxAge)
  {
    var acts := DrainAndReturn(p.burst, maxAge, age);
    EarlyCleanupShows(p, maxAge, age);
    assert CleanupsAt(acts, maxAge) && ActsInOrder(0.0, acts);
  }

  /** An age past `maxAge` at which the bucket is not full yet. */
  lemma EarlyAge(rate: real, burst: int, maxAge: real) returns (age: real)
    requires rate >= 0.0 && burst >= 1 && maxAge * rate < burst as real
    ensures age > maxAge && age >= 0.0 && age * rate < burst as real
  {
    var base := if maxAge > 0.0 then maxAge else 0.0;
    if rate == 0.0 {
      age := base + 1.0;
    } else {
      var full := burst as real / rate;
      assert full * rate == burst as real;
      assert base < full by {
        assert (full - base) * rate > 0.0;
      }
      age := (base + full) / 2.0;
      assert (full - age) * rate > 0.0;
    }
  }

  // ---------- independence of keys ----------

  /** The decisions on the requests of one key. */
  function DecidedFor(p: Limit, m: Buckets, acts: seq<Action>, key: string): seq<bool>
    decreases |acts|
  {
    if acts == [] then []
    else
      var rest := DecidedFor(p, Act(p, m, acts[0]), acts[1..], key);
      if acts[0].Request? && acts[0].key == key then [Admitted(p, m, key, acts[0].at)] + rest else rest
  }

  /** What one key asks, as events of a bucket of its own. */
  function AskedBy(acts: seq<Action>, key: string): seq<Timed> {
    if acts == [] then []
    else if acts[0].Request? && acts[0].key == key then [One(acts[0].at)] + AskedBy(acts[1..], key)
    else AskedBy(acts[1..], key)
  }

  /** The limiter treats the key as this private bucket would. */
  ghost predicate Follows(p: Limit, m: Buckets, b: Bucket, key: string, now: real) {
    BucketsGood(p, m, now) && b.last <= now && LevelFor(p, m, key, now) == Level(p, b, now)
  }

  /** The private bucket after an action: only the key's own requests concern it. */
  function Private(p: Limit, b: Bucket, a: Action, key: string): Bucket {
    if a.Request? && a.key == key then Step(p, b, One(a.at)) else b
  }

  lemma FollowsRequest(p: Limit, m: Buckets, b: Bucket, key: string, asked: string, at: real)
    requires Monotone(p.produced) && Follows(p, m, b, key, at)
    ensures Follows(p, Act(p, m, Request(asked, at)), Private(p, b, Request(asked, at), key), key, at)
    ensures asked == key ==> Admitted(p, m, key, at) == Granted(p, b, One(at))
  {
    StepInRange(p, BucketFor(p, m, asked, at), One(at));
    if asked == key {
      SameLevelStep(p, BucketFor(p, m, key, at), b, One(at));
    }
  }

  lemma FollowsCleanup(p: Limit, m: Buckets, b: Bucket, key: string, maxAge: real, at: real)
    requires Monotone(p.produced) && Follows(p, m, b, key, at) && FillsWithin(p, maxAge)
    ensures Follows(p, Kept(m, maxAge, at), b, key, at)
  {
    AlikeCleanup(p, m, m, maxAge, at);
    assert LevelFor(p, Kept(m, maxAge, at), key, at) == LevelFor(p, m, key, at);
  }

  lemma FollowsStep(p: Limit, m: Buckets, b: Bucket, key: string, now: real, a: Action)
    requires Monotone(p.produced) && Follows(p, m, b, key, now) && now <= a.at
    requires a.Cleanup? ==> FillsWithin(p, a.maxAge)
    ensures Follows(p, Act(p, m, a), Private(p, b, a, key), key, a.at)
    ensures a.Request? && a.key == key ==> Admitted(p, m, key, a.at) == Granted(p, b, One(a.at))
  {
    SameLevelLater(p, BucketFor(p, m, key, now), b, now, a.at);
    match a
    case Request(asked, at) => FollowsRequest(p, m, b, key, asked, at);
    case Cleanup(maxAge, at) => FollowsCleanup(p, m, b, key, maxAge, at);
  }

  /** Keys do not influence each other, whatever late cleanups there are: the decisions for a key are those of a
      private bucket that starts full and is asked only what that key asks. */
  lemma {:induction false} KeysIndependent(p: Limit, m: Buckets, b: Bucket, now: real, acts: seq<Action>, key: string)
    requires Monotone(p.produced) && ActsInOrder(now, acts) && CleanupsLate(p, acts)
    requires Follows(p, m, b, key, now)
    ensures DecidedFor(p, m, acts, key) == Decisions(p, b, AskedBy(acts, key))
    decreases |acts|
  {
    if acts != [] {
      var a, rest := acts[0], acts[1..];
      assert forall i :: 0 <= i < |rest| ==> rest[i] == acts[i+1];
      FollowsStep(p, m, b, key, now, a);
      KeysIndependent(p, Act(p, m, a), Private(p, b, a, key), a.at, rest, key);
      if a.Request? && a.key == key {
        assert ([One(a.at)] + AskedBy(rest, key))[1..] == AskedBy(rest, key);
      }
    }
  }
}
