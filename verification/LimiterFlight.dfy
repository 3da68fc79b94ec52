/** The per-key limiter with requests in flight (internal/security/ratelimit/tokenbucket.go, lines 201-245). A request
    looks its bucket up under the table's lock and draws from it later, under the bucket's own lock; a cleanup in
    between can drop the bucket, and then the key gets a second one while the request still draws from the first. */
module LimiterFlight {
  import opened RateModel
  import opened LimiterModel

  /** A bucket that was made for a key; buckets are numbered in the order they are made. */
  datatype Made = Made(key: string, bucket: Bucket)

  /** A request in flight: the bucket it has looked up, and whether it has drawn from it yet. */
  datatype Held = Held(place: nat, drawn: bool)

  datatype Flow = Flow(table: map<string, nat>, made: seq<Made>, held: seq<Held>)

  datatype Move =
    | Fetch(key: string, at: real)      // lines 206-218
    | Draw(request: nat, at: real)      // line 220
    | Sweep(maxAge: real, at: real)     // lines 231-245

  const NOTHING := Flow(map[], [], [])

  ghost predicate WellFormed(s: Flow) {
    && (forall k :: k in s.table ==> s.table[k] < |s.made| && s.made[s.table[k]].key == k)
    && (forall r :: 0 <= r < |s.held| ==> s.held[r].place < |s.made|)
  }

  predicate Enabled(s: Flow, a: Move) {
    a.Draw? ==> a.request < |s.held| && !s.held[a.request].drawn && s.held[a.request].place < |s.made|
  }

  /** The bucket a request draws from. */
  function Drawn(s: Flow, request: nat): Made
    requires request < |s.held| && s.held[request].place < |s.made|
  {
    s.made[s.held[request].place]
  }

  function AfterFetch(p: Limit, s: Flow, key: string, at: real): Flow {
    if key in s.table then s.(held := s.held + [Held(s.table[key], false)])
    else Flow(s.table[key := |s.made|], s.made + [Made(key, FullBucket(p, at))], s.held + [Held(|s.made|, false)])
  }

  function AfterDraw(p: Limit, s: Flow, request: nat, at: real): Flow
    requires Enabled(s, Draw(request, at))
  {
    var place := s.held[request].place;
    s.(made := s.made[place := s.made[place].(bucket := Step(p, s.made[place].bucket, One(at)))],
       held := s.held[request := Held(place, true)])
  }

  ghost function AfterSweep(s: Flow, maxAge: real, at: real): Flow
    requires WellFormed(s)
  {
    s.(table := map k | k in s.table && at - s.made[s.table[k]].bucket.last <= maxAge :: s.table[k])
  }

  ghost function Next(p: Limit, s: Flow, a: Move): Flow
    requires WellFormed(s) && Enabled(s, a)
  {
    match a
    case Fetch(key, at) => AfterFetch(p, s, key, at)
    case Draw(request, at) => AfterDraw(p, s, request, at)
    case Sweep(maxAge, at) => AfterSweep(s, maxAge, at)
  }

  predicate DrawGranted(p: Limit, s: Flow, a: Move)
    requires Enabled(s, a)
  {
    a.Draw? && Granted(p, Drawn(s, a.request).bucket, One(a.at))
  }

  /** The draw is from the bucket its key has in the table; otherwise it is a stray. */
  predicate IsCurrent(s: Flow, request: nat)
    requires request < |s.held| && s.held[request].place < |s.made|
  {
    var key := Drawn(s, request).key;
    key in s.table && s.table[key] == s.held[request].place
  }

  lemma NextWellFormed(p: Limit, s: Flow, a: Move)
    requires WellFormed(s) && Enabled(s, a)
    ensures WellFormed(Next(p, s, a))
  {}

  // ---------- seen as the table alone ----------

  /** What is in the table. */
  ghost function Tabled(s: Flow): Buckets
    requires WellFormed(s)
  {
    map k | k in s.table :: s.made[s.table[k]].bucket
  }

  /** The request just made holds what its key has in the table now. */
  lemma FetchedTable(p: Limit, s: Flow, key: string, at: real)
    requires WellFormed(s)
    ensures var t := AfterFetch(p, s, key, at);
            && WellFormed(t) && Enabled(t, Draw(|s.held|, at)) && IsCurrent(t, |s.held|)
            && Drawn(t, |s.held|) == Made(key, BucketFor(p, Tabled(s), key, at))
            && Tabled(t) == Tabled(s)[key := BucketFor(p, Tabled(s), key, at)]
  {
    NextWellFormed(p, s, Fetch(key, at));
    var t := AfterFetch(p, s, key, at);
    assert t.table[key] == t.held[|s.held|].place;
  }

  /** A request that draws at once is a request of the sequential limiter. */
  lemma HandledAtOnce(p: Limit, s: Flow, key: string, at: real)
    requires WellFormed(s)
    ensures var t := AfterFetch(p, s, key, at);
            && Enabled(t, Draw(|s.held|, at)) && WellFormed(AfterDraw(p, t, |s.held|, at))
            && DrawGranted(p, t, Draw(|s.held|, at)) == Admitted(p, Tabled(s), key, at)
            && Tabled(AfterDraw(p, t, |s.held|, at)) == Act(p, Tabled(s), Request(key, at))
  {
    FetchedTable(p, s, key, at);
    DrawnCurrent(p, AfterFetch(p, s, key, at), |s.held|, at);
    PutTwice(Tabled(s), key, BucketFor(p, Tabled(s), key, at), Step(p, BucketFor(p, Tabled(s), key, at), One(at)));
  }

  lemma PutTwice(m: Buckets, key: string, a: Bucket, b: Bucket)
    ensures m[key := a][key := b] == m[key := b]
  {}

  lemma DrawnCurrent(p: Limit, s: Flow, request: nat, at: real)
    requires WellFormed(s) && Enabled(s, Draw(request, at)) && IsCurrent(s, request)
    ensures var key := Drawn(s, request).key;
            && WellFormed(AfterDraw(p, s, request, at))
            && Tabled(AfterDraw(p, s, request, at)) ==
                 Tabled(s)[key := Step(p, Drawn(s, request).bucket, One(at))]
  {
    NextWellFormed(p, s, Draw(request, at));
  }

  lemma SweptTable(s: Flow, maxAge: real, at: real)
    requires WellFormed(s)
    ensures WellFormed(AfterSweep(s, maxAge, at))
    ensures Tabled(AfterSweep(s, maxAge, at)) == Kept(Tabled(s), maxAge, at)
  {}

  /** The table when all keys but those of `todo` have been looked at. */
  ghost predicate SweptBut(s: Flow, todo: set<string>, maxAge: real, at: real, table: map<string, nat>)
    requires WellFormed(s)
  {
    && (forall k :: k in table <==> k in s.table && (k in todo || at - s.made[s.table[k]].bucket.last <= maxAge))
    && (forall k :: k in table ==> table[k] == s.table[k])
  }

  lemma SweptOne(s: Flow, todo: set<string>, maxAge: real, at: real, table: map<string, nat>, key: string)
    requires WellFormed(s) && SweptBut(s, todo, maxAge, at, table) && key in todo && key in table
    ensures key in s.table && table[key] == s.table[key]
    ensures SweptBut(s, todo - {key}, maxAge, at,
                     if at - s.made[s.table[key]].bucket.last > maxAge then table - {key} else table)
  {}

  lemma SweptAll(s: Flow, maxAge: real, at: real, table: map<string, nat>)
    requires WellFormed(s) && SweptBut(s, {}, maxAge, at, table)
    ensures table == AfterSweep(s, maxAge, at).table
  {}

  // ---------- runs ----------

  /** The moves can happen one after the other, on a clock that does not go back. */
  ghost predicate Possible(p: Limit, s: Flow, now: real, run: seq<Move>)
    decreases |run|
  {
    WellFormed(s) &&
    (run != [] ==>
       && now <= run[0].at && Enabled(s, run[0])
       && Possible(p, Next(p, s, run[0]), run[0].at, run[1..]))
  }

  predicate Draws(s: Flow, a: Move, key: string)
    requires Enabled(s, a)
  {
    a.Draw? && Drawn(s, a.request).key == key
  }

  /** How many requests of this key are granted. */
  ghost function GrantsFor(p: Limit, s: Flow, now: real, run: seq<Move>, key: string): nat
    requires Possible(p, s, now, run)
    decreases |run|
  {
    if run == [] then 0
    else
      (if Draws(s, run[0], key) && DrawGranted(p, s, run[0]) then 1 else 0)
      + GrantsFor(p, Next(p, s, run[0]), run[0].at, run[1..], key)
  }

  /** How many of the granted ones are strays. */
  ghost function StrayGrantsFor(p: Limit, s: Flow, now: real, run: seq<Move>, key: string): nat
    requires Possible(p, s, now, run)
    decreases |run|
  {
    if run == [] then 0
    else
      (if Draws(s, run[0], key) && DrawGranted(p, s, run[0]) && !IsCurrent(s, run[0].request) then 1 else 0)
      + StrayGrantsFor(p, Next(p, s, run[0]), run[0].at, run[1..], key)
  }

  /** The draws of this key that are no strays, as events of a bucket of its own. */
  ghost function CurrentDraws(p: Limit, s: Flow, now: real, run: seq<Move>, key: string): seq<Timed>
    requires Possible(p, s, now, run)
    decreases |run|
  {
    if run == [] then []
    else
      (if Draws(s, run[0], key) && IsCurrent(s, run[0].request) then [One(run[0].at)] else [])
      + CurrentDraws(p, Next(p, s, run[0]), run[0].at, run[1..], key)
  }

  ghost predicate SweepsLate(p: Limit, run: seq<Move>) {
    forall i :: 0 <= i < |run| && run[i].Sweep? ==> FillsWithin(p, run[i].maxAge)
  }

  // ---------- a private bucket for a key ----------

  ghost predicate MadeGood(p: Limit, s: Flow, now: real) {
    forall i :: 0 <= i < |s.made| ==> InRange(p, s.made[i].bucket) && s.made[i].bucket.last <= now
  }

  /** The bucket the key has in the table, a full one if it has none. */
  function BucketIn(p: Limit, s: Flow, key: string, now: real): Bucket {
    if key in s.table && s.table[key] < |s.made| then s.made[s.table[key]].bucket else FullBucket(p, now)
  }

  /** The table treats the key as this private bucket would. */
  ghost predicate Tracks(p: Limit, s: Flow, b: Bucket, key: string, now: real) {
    && WellFormed(s) && MadeGood(p, s, now) && InRange(p, b) && b.last <= now
    && Level(p, BucketIn(p, s, key, now), now) == Level(p, b, now)
  }

  /** The private bucket after a move: only the key's draws that are no strays concern it. */
  function PrivateAfter(p: Limit, s: Flow, b: Bucket, a: Move, key: string): Bucket
    requires Enabled(s, a)
  {
    if Draws(s, a, key) && IsCurrent(s, a.request) then Step(p, b, One(a.at)) else b
  }

  lemma TracksLater(p: Limit, s: Flow, b: Bucket, key: string, now: real, later: real)
    requires Monotone(p.produced) && Tracks(p, s, b, key, now) && now <= later
    ensures Tracks(p, s, b, key, later)
  {
    SameLevelLater(p, BucketIn(p, s, key, now), b, now, later);
    if key !in s.table {
      assert p.produced(now) <= p.produced(later);
    }
  }

  lemma TracksFetch(p: Limit, s: Flow, b: Bucket, key: string, asked: string, at: real)
    requires Monotone(p.produced) && Tracks(p, s, b, key, at)
    ensures Tracks(p, AfterFetch(p, s, asked, at), b, key, at)
  {
    NextWellFormed(p, s, Fetch(asked, at));
  }

  lemma TracksDraw(p: Limit, s: Flow, b: Bucket, key: string, request: nat, at: real)
    requires Monotone(p.produced) && Tracks(p, s, b, key, at) && Enabled(s, Draw(request, at))
    ensures Tracks(p, AfterDraw(p, s, request, at), PrivateAfter(p, s, b, Draw(request, at), key), key, at)
    ensures Draws(s, Draw(request, at), key) && IsCurrent(s, request) ==>
              DrawGranted(p, s, Draw(request, at)) == Granted(p, b, One(at))
  {
    NextWellFormed(p, s, Draw(request, at));
    var c := Drawn(s, request).bucket;
    StepInRange(p, c, One(at));
    StepInRange(p, b, One(at));
    if Draws(s, Draw(request, at), key) && IsCurrent(s, request) {
      SameLevelStep(p, c, b, One(at));
    }
  }

  lemma TracksSweep(p: Limit, s: Flow, b: Bucket, key: string, maxAge: real, at: real)
    requires Monotone(p.produced) && Tracks(p, s, b, key, at) && FillsWithin(p, maxAge)
    ensures Tracks(p, AfterSweep(s, maxAge, at), b, key, at)
  {
    NextWellFormed(p, s, Sweep(maxAge, at));
    if key in s.table && key !in AfterSweep(s, maxAge, at).table {
      DroppedWasFull(p, s.made[s.table[key]].bucket, maxAge, at);
    }
  }

  lemma TracksStep(p: Limit, s: Flow, b: Bucket, key: string, now: real, a: Move)
    requires Monotone(p.produced) && Tracks(p, s, b, key, now) && now <= a.at && Enabled(s, a)
    requires a.Sweep? ==> FillsWithin(p, a.maxAge)
    ensures Tracks(p, Next(p, s, a), PrivateAfter(p, s, b, a, key), key, a.at)
    ensures Draws(s, a, key) && IsCurrent(s, a.request) ==> DrawGranted(p, s, a) == Granted(p, b, One(a.at))
  {
    TracksLater(p, s, b, key, now, a.at);
    match a
    case Fetch(asked, at) => TracksFetch(p, s, b, key, asked, at);
    case Draw(request, at) => TracksDraw(p, s, b, key, request, at);
    case Sweep(maxAge, at) => TracksSweep(p, s, b, key, maxAge, at);
  }

  /** With late cleanups the draws of a key that are no strays are granted as by a private bucket asked only these, so
      all that is granted to a key is what the private bucket grants and the strays. */
  lemma {:induction false} GrantsAreTakenAndStrays(p: Limit, s: Flow, b: Bucket, now: real, run: seq<Move>, key: string)
    requires Monotone(p.produced) && Possible(p, s, now, run) && SweepsLate(p, run) && Tracks(p, s, b, key, now)
    ensures GrantsFor(p, s, now, run, key) ==
            TotalTaken(p, b, CurrentDraws(p, s, now, run, key)) + StrayGrantsFor(p, s, now, run, key)
    decreases |run|
  {
    if run != [] {
      var a, rest := run[0], run[1..];
      assert forall i :: 0 <= i < |rest| ==> rest[i] == run[i+1];
      TracksStep(p, s, b, key, now, a);
      var s', b' := Next(p, s, a), PrivateAfter(p, s, b, a, key);
      GrantsAreTakenAndStrays(p, s', b', a.at, rest, key);
      var draws := CurrentDraws(p, s', a.at, rest, key);
      if Draws(s, a, key) && IsCurrent(s, a.request) {
        assert ([One(a.at)] + draws)[1..] == draws;
      } else {
        assert [] + draws == draws;
      }
    }
  }

  // ---------- windows ----------

  function EndOf(now: real, run: seq<Move>): real {
    if run == [] then now else run[|run|-1].at
  }

  ghost function AfterRun(p: Limit, s: Flow, now: real, run: seq<Move>): Flow
    requires Possible(p, s, now, run)
    decreases |run|
  {
    if run == [] then s else AfterRun(p, Next(p, s, run[0]), run[0].at, run[1..])
  }

  /** At every point of a run there is a bucket of its own that the table treats a key like. */
  lemma {:induction false} TracksThroughout(p: Limit, s: Flow, b: Bucket, now: real, before: seq<Move>,
                                            window: seq<Move>, key: string) returns (c: Bucket)
    requires Monotone(p.produced) && Possible(p, s, now, before + window) && SweepsLate(p, before + window)
    requires Tracks(p, s, b, key, now)
    ensures Possible(p, s, now, before)
    ensures Possible(p, AfterRun(p, s, now, before), EndOf(now, before), window) && SweepsLate(p, window)
    ensures Tracks(p, AfterRun(p, s, now, before), c, key, EndOf(now, before))
    decreases |before|
  {
    if before == [] {
      assert before + window == window;
      c := b;
    } else {
      var a := before[0];
      FirstOf(p, s, now, before, window);
      TracksStep(p, s, b, key, now, a);
      c := TracksThroughout(p, Next(p, s, a), PrivateAfter(p, s, b, a, key), a.at, before[1..], window, key);
      BackToFirst(p, s, now, before);
    }
  }

  lemma BackToFirst(p: Limit, s: Flow, now: real, run: seq<Move>)
    requires run != [] && WellFormed(s) && now <= run[0].at && Enabled(s, run[0])
    requires Possible(p, Next(p, s, run[0]), run[0].at, run[1..])
    ensures Possible(p, s, now, run)
    ensures AfterRun(p, s, now, run) == AfterRun(p, Next(p, s, run[0]), run[0].at, run[1..])
    ensures EndOf(now, run) == EndOf(run[0].at, run[1..])
  {}

  lemma FirstOf(p: Limit, s: Flow, now: real, before: seq<Move>, window: seq<Move>)
    requires Possible(p, s, now, before + window) && SweepsLate(p, before + window) && before != []
    ensures now <= before[0].at && Enabled(s, before[0]) && WellFormed(s)
    ensures before[0].Sweep? ==> FillsWithin(p, before[0].maxAge)
    ensures Possible(p, Next(p, s, before[0]), before[0].at, before[1..] + window)
    ensures SweepsLate(p, before[1..] + window)
  {
    var run := before + window;
    assert run[0] == before[0] && run[1..] == before[1..] + window;
    assert forall i :: 0 <= i < |run[1..]| ==> run[1..][i] == run[i+1];
  }

  lemma {:induction false} DrawsInOrder(p: Limit, s: Flow, now: real, run: seq<Move>, key: string)
    requires Possible(p, s, now, run)
    ensures DrawsBetween(now, CurrentDraws(p, s, now, run, key), EndOf(now, run))
    decreases |run|
  {
    if run != [] {
      var a, rest := run[0], run[1..];
      var s' := Next(p, s, a);
      DrawsInOrder(p, s', a.at, rest, key);
      assert EndOf(a.at, rest) == EndOf(now, run);
      MovesEnd(p, s', a.at, rest);
      var draws := CurrentDraws(p, s', a.at, rest, key);
      if Draws(s, a, key) && IsCurrent(s, a.request) {
        OneMoreDraw(now, a.at, draws, EndOf(now, run));
      } else {
        assert [] + draws == draws;
        InOrderEarlier(now, a.at, draws);
      }
    }
  }

  ghost predicate DrawsBetween(from: real, draws: seq<Timed>, to: real) {
    && InOrder(from, draws) && NonNegative(draws) && Resets(draws) == 0
    && (draws != [] ==> from <= draws[0].at && draws[|draws|-1].at <= to)
  }

  lemma OneMoreDraw(from: real, at: real, draws: seq<Timed>, to: real)
    requires from <= at <= to && DrawsBetween(at, draws, to)
    ensures DrawsBetween(from, [One(at)] + draws, to)
  {
    var all := [One(at)] + draws;
    assert all[1..] == draws;
    assert forall i :: 1 <= i < |all| ==> all[i] == draws[i-1];
  }

  lemma {:induction false} MovesEnd(p: Limit, s: Flow, now: real, run: seq<Move>)
    requires Possible(p, s, now, run)
    ensures now <= EndOf(now, run)
    decreases |run|
  {
    if run != [] {
      MovesEnd(p, Next(p, s, run[0]), run[0].at, run[1..]);
    }
  }

  /** In every window of every run with late cleanups, however requests and cleanups overlap, a key is granted at most a
      burst, the production of the window, and one for every stray. */
  lemma WindowBoundInFlight(p: Limit, now: real, before: seq<Move>, window: seq<Move>, key: string)
    requires Monotone(p.produced) && window != []
    requires Possible(p, NOTHING, now, before + window) && SweepsLate(p, before + window)
    ensures Possible(p, NOTHING, now, before)
    ensures var s, at := AfterRun(p, NOTHING, now, before), EndOf(now, before);
            && Possible(p, s, at, window)
            && GrantsFor(p, s, at, window, key) as real <=
                 Positive(p.burst) as real + (p.produced(EndOf(at, window)) - p.produced(window[0].at))
                 + StrayGrantsFor(p, s, at, window, key) as real
  {
    var b := TracksThroughout(p, NOTHING, FullBucket(p, now), now, before, window, key);
    BoundFrom(p, AfterRun(p, NOTHING, now, before), b, EndOf(now, before), window, key);
  }

  lemma BoundFrom(p: Limit, s: Flow, b: Bucket, now: real, window: seq<Move>, key: string)
    requires Monotone(p.produced) && window != []
    requires Possible(p, s, now, window) && SweepsLate(p, window) && Tracks(p, s, b, key, now)
    ensures GrantsFor(p, s, now, window, key) as real <=
              Positive(p.burst) as real + (p.produced(EndOf(now, window)) - p.produced(window[0].at))
              + StrayGrantsFor(p, s, now, window, key) as real
  {
    GrantsAreTakenAndStrays(p, s, b, now, window, key);
    DrawsFromFirst(p, s, now, window, key);
    CurrentBounded(p, b, CurrentDraws(p, s, now, window, key), window[0].at, EndOf(now, window));
  }

  lemma DrawsFromFirst(p: Limit, s: Flow, now: real, window: seq<Move>, key: string)
    requires Possible(p, s, now, window) && window != []
    ensures now <= window[0].at <= EndOf(now, window)
    ensures DrawsBetween(window[0].at, CurrentDraws(p, s, now, window, key), EndOf(now, window))
  {
    var at := window[0].at;
    MovesEnd(p, Next(p, s, window[0]), at, window[1..]);
    assert EndOf(at, window[1..]) == EndOf(now, window) == EndOf(at, window);
    assert Possible(p, s, at, window);
    DrawsInOrder(p, s, at, window, key);
    assert CurrentDraws(p, s, now, window, key) == CurrentDraws(p, s, at, window, key);
  }

  lemma NoResetBound(p: Limit, b: Bucket, window: seq<Timed>)
    requires Monotone(p.produced) && InRange(p, b) && InOrder(b.last, window) && NonNegative(window)
    requires window != [] && Resets(window) == 0
    ensures TotalTaken(p, b, window) as real <=
              Positive(p.burst) as real + (p.produced(window[|window|-1].at) - p.produced(window[0].at))
  {
    assert [] + window == window;
    assert Run(p, b, []) == b;
    WindowBound(p, b, [], window);
    OneBurst(Resets(window), Positive(p.burst));
  }

  lemma OneBurst(n: nat, k: nat)
    requires n == 0
    ensures ((1 + n) * k) as real == k as real
  {}

  lemma CurrentBounded(p: Limit, b: Bucket, draws: seq<Timed>, from: real, to: real)
    requires Monotone(p.produced) && InRange(p, b) && b.last <= from <= to
    requires DrawsBetween(from, draws, to)
    ensures TotalTaken(p, b, draws) as real <= Positive(p.burst) as real + (p.produced(to) - p.produced(from))
  {
    assert p.produced(from) <= p.produced(to);
    if draws != [] {
      InOrderEarlier(b.last, from, draws);
      NoResetBound(p, b, draws);
      assert p.produced(from) <= p.produced(draws[0].at);
      assert p.produced(draws[|draws|-1].at) <= p.produced(to);
    }
  }

  // ---------- strays ----------

  /** Every request in flight still has its key's bucket. */
  ghost predicate AllCurrent(s: Flow)
    requires WellFormed(s)
  {
    forall r :: 0 <= r < |s.held| && !s.held[r].drawn ==> IsCurrent(s, r)
  }

  /** No request is in flight when a cleanup runs. */
  ghost predicate SweepsAlone(p: Limit, s: Flow, now: real, run: seq<Move>)
    requires Possible(p, s, now, run)
    decreases |run|
  {
    run != [] ==>
      && (run[0].Sweep? ==> forall r :: 0 <= r < |s.held| ==> s.held[r].drawn)
      && SweepsAlone(p, Next(p, s, run[0]), run[0].at, run[1..])
  }

  /** If no cleanup comes between a request's looking up its bucket and its drawing from it, there are no strays. */
  lemma {:induction false} NoStrays(p: Limit, s: Flow, now: real, run: seq<Move>, key: string)
    requires Possible(p, s, now, run) && AllCurrent(s) && SweepsAlone(p, s, now, run)
    ensures StrayGrantsFor(p, s, now, run, key) == 0
    decreases |run|
  {
    if run != [] {
      NextWellFormed(p, s, run[0]);
      StaysCurrent(p, s, run[0]);
      NoStrays(p, Next(p, s, run[0]), run[0].at, run[1..], key);
    }
  }

  lemma StaysCurrent(p: Limit, s: Flow, a: Move)
    requires WellFormed(s) && Enabled(s, a) && AllCurrent(s)
    requires a.Sweep? ==> forall r :: 0 <= r < |s.held| ==> s.held[r].drawn
    ensures WellFormed(Next(p, s, a)) && AllCurrent(Next(p, s, a))
  {
    var t := Next(p, s, a);
    NextWellFormed(p, s, a);
    forall r | 0 <= r < |t.held| && !t.held[r].drawn ensures IsCurrent(t, r) {
      if r < |s.held| {
        assert t.held[r] == s.held[r] && IsCurrent(s, r);
      }
    }
  }

  lemma OneMove(p: Limit, s: Flow, now: real, a: Move, rest: seq<Move>, key: string)
    requires WellFormed(s) && now <= a.at && Enabled(s, a) && Possible(p, Next(p, s, a), a.at, rest)
    ensures Possible(p, s, now, [a] + rest)
    ensures AfterRun(p, s, now, [a] + rest) == AfterRun(p, Next(p, s, a), a.at, rest)
    ensures GrantsFor(p, s, now, [a] + rest, key) ==
            (if Draws(s, a, key) && DrawGranted(p, s, a) then 1 else 0) + GrantsFor(p, Next(p, s, a), a.at, rest, key)
    ensures StrayGrantsFor(p, s, now, [a] + rest, key) ==
            (if Draws(s, a, key) && DrawGranted(p, s, a) && !IsCurrent(s, a.request) then 1 else 0)
            + StrayGrantsFor(p, Next(p, s, a), a.at, rest, key)
  {
    assert ([a] + rest)[1..] == rest;
  }

  /** A request has looked its bucket up, a cleanup has dropped that, and a second request has made a new one. */
  function Overtaken(p: Limit, t: real): Flow {
    Flow(map["k" := 1], [Made("k", FullBucket(p, 0.0)), Made("k", FullBucket(p, t))], [Held(0, false), Held(1, false)])
  }

  lemma Overtaking(p: Limit, maxAge: real, t: real)
    requires maxAge >= 0.0 && t == maxAge + 1.0
    ensures var before := [Fetch("k", 0.0)] + ([Sweep(maxAge, t)] + ([Fetch("k", t)] + []));
            Possible(p, NOTHING, 0.0, before) && AfterRun(p, NOTHING, 0.0, before) == Overtaken(p, t)
  {
    var first := AfterFetch(p, NOTHING, "k", 0.0);
    assert first == Flow(map["k" := 0], [Made("k", FullBucket(p, 0.0))], [Held(0, false)]);
    var swept := AfterSweep(first, maxAge, t);
    assert swept.table == map[];
    assert AfterFetch(p, swept, "k", t) == Overtaken(p, t);
    OneMove(p, swept, t, Fetch("k", t), [], "k");
    OneMove(p, first, 0.0, Sweep(maxAge, t), [Fetch("k", t)] + [], "k");
    OneMove(p, NOTHING, 0.0, Fetch("k", 0.0), [Sweep(maxAge, t)] + ([Fetch("k", t)] + []), "k");
  }

  /** A cleanup between the two: under a burst of one, two requests at the same time are granted. */
  lemma StrayOverfills(p: Limit, maxAge: real)
    requires Monotone(p.produced) && p.burst == 1 && maxAge >= 0.0
    ensures var t := maxAge + 1.0;
            var before := [Fetch("k", 0.0)] + ([Sweep(maxAge, t)] + ([Fetch("k", t)] + []));
            var window := [Draw(1, t)] + ([Draw(0, t)] + []);
            && Possible(p, NOTHING, 0.0, before)
            && Possible(p, AfterRun(p, NOTHING, 0.0, before), t, window)
            && GrantsFor(p, AfterRun(p, NOTHING, 0.0, before), t, window, "k") == 2
            && StrayGrantsFor(p, AfterRun(p, NOTHING, 0.0, before), t, window, "k") == 1
  {
    var t := maxAge + 1.0;
    Overtaking(p, maxAge, t);
    var s := Overtaken(p, t);
    var second := AfterDraw(p, s, 1, t);
    OneMove(p, second, t, Draw(0, t), [], "k");
    OneMove(p, s, t, Draw(1, t), [Draw(0, t)] + [], "k");
    assert p.produced(0.0) <= p.produced(t);
    assert DrawGranted(p, s, Draw(1, t)) && IsCurrent(s, 1);
    assert Drawn(second, 0) == Made("k", FullBucket(p, 0.0)) && !IsCurrent(second, 0);
  }
}
