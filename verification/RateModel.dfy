/** Token buckets and the per-key limiter as values (internal/security/ratelimit/tokenbucket.go). A limit is given by
    its burst and by the tokens produced up to a point in time; for a rate r that is r * t, and all that the proofs
    use is that production never goes back. Time is in seconds. */
module RateModel {

  datatype Limit = Limit(burst: int, produced: real -> real)

  /** Tokens produced by a constant rate. */
  function ConstantRate(rate: real): real -> real {
    t => t * rate
  }

  ghost predicate Monotone(f: real -> real) {
    forall s, t :: s <= t ==> f(s) <= f(t)
  }

  lemma ConstantRateMonotone(rate: real)
    requires rate >= 0.0
    ensures Monotone(ConstantRate(rate))
  {
    forall s, t | s <= t ensures ConstantRate(rate)(s) <= ConstantRate(rate)(t) {
      assert (t - s) * rate >= 0.0;
    }
  }

  datatype Bucket = Bucket(tokens: real, last: real)

  function Cap(p: Limit): real {
    p.burst as real
  }

  function FullBucket(p: Limit, at: real): Bucket {
    Bucket(Cap(p), at)
  }

  /** The tokens a bucket would have at `now` (lines 46-51 and 101-107). */
  function Level(p: Limit, b: Bucket, now: real): real {
    var tokens := b.tokens + (p.produced(now) - p.produced(b.last));
    if tokens > Cap(p) then Cap(p) else tokens
  }

  datatype Event =
    | Ask(n: int)     // AllowN
    | Peek            // Remaining
    | Reset

  datatype Timed = Timed(at: real, ev: Event)

  /** Lines 54-59. */
  predicate Granted(p: Limit, b: Bucket, e: Timed) {
    e.ev.Ask? && Level(p, b, e.at) >= e.ev.n as real
  }

  function Taken(p: Limit, b: Bucket, e: Timed): int {
    if Granted(p, b, e) then e.ev.n else 0
  }

  function Step(p: Limit, b: Bucket, e: Timed): Bucket {
    match e.ev
    case Ask(n) => Bucket(Level(p, b, e.at) - Taken(p, b, e) as real, e.at)
    case Peek => b
    case Reset => FullBucket(p, e.at)
  }

  // ---------- runs ----------

  /** A clock that does not go back, starting from the bucket's last update. */
  ghost predicate InOrder(from: real, evs: seq<Timed>)
    decreases |evs|
  {
    evs != [] ==> from <= evs[0].at && InOrder(evs[0].at, evs[1..])
  }

  ghost predicate NonNegative(evs: seq<Timed>) {
    forall i :: 0 <= i < |evs| && evs[i].ev.Ask? ==> evs[i].ev.n >= 0
  }

  function Run(p: Limit, b: Bucket, evs: seq<Timed>): Bucket
    decreases |evs|
  {
    if evs == [] then b else Run(p, Step(p, b, evs[0]), evs[1..])
  }

  /** All tokens granted in a run. */
  function TotalTaken(p: Limit, b: Bucket, evs: seq<Timed>): int
    decreases |evs|
  {
    if evs == [] then 0 else Taken(p, b, evs[0]) + TotalTaken(p, Step(p, b, evs[0]), evs[1..])
  }

  function Resets(evs: seq<Timed>): nat {
    if evs == [] then 0 else (if evs[0].ev.Reset? then 1 else 0) + Resets(evs[1..])
  }

  function Positive(x: int): nat {
    if x > 0 then x else 0
  }

  /** Levels a bucket can have when no request is negative. */
  ghost predicate InRange(p: Limit, b: Bucket) {
    (if p.burst < 0 then Cap(p) else 0.0) <= b.tokens <= Cap(p)
  }

  lemma StepInRange(p: Limit, b: Bucket, e: Timed)
    requires Monotone(p.produced) && InRange(p, b) && b.last <= e.at && (e.ev.Ask? ==> e.ev.n >= 0)
    ensures InRange(p, Step(p, b, e))
    ensures Step(p, b, e).last <= e.at
  {
    assert p.produced(b.last) <= p.produced(e.at);
  }

  /** The level stays between 0 and the burst through every run without negative requests. */
  lemma {:induction false} RunInRange(p: Limit, b: Bucket, evs: seq<Timed>)
    requires Monotone(p.produced) && InRange(p, b) && InOrder(b.last, evs) && NonNegative(evs)
    ensures InRange(p, Run(p, b, evs))
    decreases |evs|
  {
    if evs != [] {
      StepInRange(p, b, evs[0]);
      OrderAfter(p, b, evs);
      RunInRange(p, Step(p, b, evs[0]), evs[1..]);
    }
  }

  lemma InOrderEarlier(from: real, later: real, evs: seq<Timed>)
    requires InOrder(later, evs) && from <= later
    ensures InOrder(from, evs)
  {}

  lemma OrderAfter(p: Limit, b: Bucket, evs: seq<Timed>)
    requires evs != [] && InOrder(b.last, evs) && NonNegative(evs)
    ensures InOrder(Step(p, b, evs[0]).last, evs[1..]) && NonNegative(evs[1..])
  {
    InOrderEarlier(Step(p, b, evs[0]).last, evs[0].at, evs[1..]);
  }

  /** The potential argument: what is taken, plus what is left, is at most what was there, plus what was produced,
      plus a full bucket for every reset. */
  lemma {:induction false} TakenBounded(p: Limit, b: Bucket, evs: seq<Timed>, end: real)
    requires Monotone(p.produced) && InRange(p, b) && InOrder(b.last, evs) && NonNegative(evs)
    requires evs == [] || evs[|evs|-1].at <= end
    requires b.last <= end
    ensures TotalTaken(p, b, evs) as real <=
            (b.tokens - (if p.burst < 0 then Cap(p) else 0.0)) + (p.produced(end) - p.produced(b.last)) +
                (Resets(evs) * Positive(p.burst)) as real
    decreases |evs|
  {
    assert p.produced(b.last) <= p.produced(end);
    if evs != [] {
      var e := evs[0];
      StepInRange(p, b, e);
      OrderAfter(p, b, evs);
      LastInOrder(b.last, evs);
      assert p.produced(b.last) <= p.produced(e.at) <= p.produced(end);
      TakenBounded(p, Step(p, b, e), evs[1..], end);
      OneMore(Resets(evs[1..]), Positive(p.burst));
    }
  }

  lemma OneMore(n: nat, k: nat)
    ensures (1 + n) * k == k + n * k
  {}

  lemma {:induction false} LastInOrder(from: real, evs: seq<Timed>)
    requires evs != [] && InOrder(from, evs)
    ensures evs[0].at <= evs[|evs|-1].at
    decreases |evs|
  {
    if |evs| > 1 {
      LastInOrder(evs[0].at, evs[1..]);
    }
  }

  /** In every window of every run, from the first event at `s` to the last at `t`, at most a burst (one more for every
      reset inside) plus the production of the window is granted. */
  lemma WindowBound(p: Limit, b: Bucket, before: seq<Timed>, window: seq<Timed>)
    requires Monotone(p.produced) && InRange(p, b) && InOrder(b.last, before + window) && NonNegative(before + window)
    requires window != []
    ensures TotalTaken(p, Run(p, b, before), window) as real <=
            ((1 + Resets(window)) * Positive(p.burst)) as real +
                (p.produced(window[|window|-1].at) - p.produced(window[0].at))
  {
    SplitOrder(p, b, before, window);
    var mid := Run(p, b, before);
    var s, t := window[0].at, window[|window|-1].at;
    var first := Bucket(Level(p, mid, s), s);
    LastInOrder(mid.last, window);
    RefillFirst(p, mid, window);
    assert p.produced(mid.last) <= p.produced(s);
    TakenBounded(p, first, window, t);
    OneMore(Resets(window), Positive(p.burst));
  }

  /** Bringing a bucket up to date before a run does not change what the run takes. */
  lemma RefillFirst(p: Limit, b: Bucket, evs: seq<Timed>)
    requires Monotone(p.produced) && evs != [] && InRange(p, b) && InOrder(b.last, evs)
    ensures var first := Bucket(Level(p, b, evs[0].at), evs[0].at);
            TotalTaken(p, b, evs) == TotalTaken(p, first, evs) && InRange(p, first) && InOrder(first.last, evs)
  {
    assert p.produced(b.last) <= p.produced(evs[0].at);
    var first := Bucket(Level(p, b, evs[0].at), evs[0].at);
    SameLevelSameRun(p, b, first, evs[0].at, evs);
  }

  lemma {:induction false} SplitOrder(p: Limit, b: Bucket, before: seq<Timed>, window: seq<Timed>)
    requires Monotone(p.produced) && InRange(p, b) && InOrder(b.last, before + window) && NonNegative(before + window)
    ensures InRange(p, Run(p, b, before)) && InOrder(Run(p, b, before).last, window) && NonNegative(window)
    decreases |before|
  {
    if before == [] {
      assert before + window == window;
    } else {
      assert (before + window)[1..] == before[1..] + window;
      assert (before + window)[0] == before[0];
      StepInRange(p, b, before[0]);
      OrderAfter(p, b, before + window);
      SplitOrder(p, Step(p, b, before[0]), before[1..], window);
    }
  }

  // ---------- lazy refill ----------

  /** Refilling in two steps is refilling once. */
  lemma SplitRefill(p: Limit, b: Bucket, s: real, t: real)
    requires Monotone(p.produced) && b.last <= s <= t
    ensures Level(p, Bucket(Level(p, b, s), s), t) == Level(p, b, t)
  {
    assert p.produced(b.last) <= p.produced(s) <= p.produced(t);
  }

  /** Buckets with the same level at some point answer alike from then on. */
  lemma SameLevelLater(p: Limit, b: Bucket, c: Bucket, s: real, t: real)
    requires Monotone(p.produced) && b.last <= s && c.last <= s <= t && Level(p, b, s) == Level(p, c, s)
    ensures Level(p, b, t) == Level(p, c, t)
  {
    SplitRefill(p, b, s, t);
    SplitRefill(p, c, s, t);
  }

  lemma {:induction false} SameLevelSameRun(p: Limit, b: Bucket, c: Bucket, s: real, evs: seq<Timed>)
    requires Monotone(p.produced) && b.last <= s && c.last <= s && Level(p, b, s) == Level(p, c, s) && InOrder(s, evs)
    ensures TotalTaken(p, b, evs) == TotalTaken(p, c, evs)
    ensures Decisions(p, b, evs) == Decisions(p, c, evs)
    decreases |evs|
  {
    if evs != [] {
      var e := evs[0];
      SameLevelLater(p, b, c, s, e.at);
      SameLevelStep(p, b, c, e);
      SameLevelSameRun(p, Step(p, b, e), Step(p, c, e), e.at, evs[1..]);
    }
  }

  lemma SameLevelStep(p: Limit, b: Bucket, c: Bucket, e: Timed)
    requires Monotone(p.produced) && b.last <= e.at && c.last <= e.at && Level(p, b, e.at) == Level(p, c, e.at)
    ensures Granted(p, b, e) == Granted(p, c, e)
    ensures Level(p, Step(p, b, e), e.at) == Level(p, Step(p, c, e), e.at)
  {}

  /** What every event of a run is told. */
  function Decisions(p: Limit, b: Bucket, evs: seq<Timed>): seq<bool>
    decreases |evs|
  {
    if evs == [] then [] else [Granted(p, b, evs[0])] + Decisions(p, Step(p, b, evs[0]), evs[1..])
  }

  /** The events that take tokens or reset: refused requests and peeks are left out. */
  function Effective(p: Limit, b: Bucket, evs: seq<Timed>): seq<Timed>
    decreases |evs|
  {
    if evs == [] then []
    else
      var rest := Effective(p, Step(p, b, evs[0]), evs[1..]);
      if Granted(p, b, evs[0]) || evs[0].ev.Reset? then [evs[0]] + rest else rest
  }

  /** The decisions on those events. */
  function EffectiveDecisions(p: Limit, b: Bucket, evs: seq<Timed>): seq<bool>
    decreases |evs|
  {
    if evs == [] then []
    else
      var rest := EffectiveDecisions(p, Step(p, b, evs[0]), evs[1..]);
      if Granted(p, b, evs[0]) || evs[0].ev.Reset? then [Granted(p, b, evs[0])] + rest else rest
  }

  /** Refused requests and peeks change nothing: leaving them all out changes no decision on the other events. */
  lemma {:induction false} RefusalsDoNotMatter(p: Limit, b: Bucket, c: Bucket, now: real, evs: seq<Timed>)
    requires Monotone(p.produced) && b.tokens <= Cap(p) && NonNegative(evs)
    requires b.last <= now && c.last <= now && Level(p, b, now) == Level(p, c, now) && InOrder(now, evs)
    ensures Decisions(p, c, Effective(p, b, evs)) == EffectiveDecisions(p, b, evs)
    decreases |evs|
  {
    if evs != [] {
      var e := evs[0];
      var b' := Step(p, b, e);
      assert p.produced(now) <= p.produced(e.at);
      SameLevelLater(p, b, c, now, e.at);
      if Granted(p, b, e) || e.ev.Reset? {
        SameLevelStep(p, b, c, e);
        RefusalsDoNotMatter(p, b', Step(p, c, e), e.at, evs[1..]);
        assert ([e] + Effective(p, b', evs[1..]))[1..] == Effective(p, b', evs[1..]);
      } else {
        assert Level(p, b', e.at) == Level(p, b, e.at);
        RefusalsDoNotMatter(p, b', c, e.at, evs[1..]);
      }
    }
  }

  /** A request keeps every bucket, whenever it comes, within its range exactly when it is not negative or cannot be
      granted: a negative one that is granted puts tokens into a full bucket. */
  lemma KeepsRangeIff(p: Limit, n: int)
    requires Monotone(p.produced)
    ensures (forall b: Bucket, at: real :: InRange(p, b) && b.last <= at ==>
             InRange(p, Step(p, b, Timed(at, Ask(n))))) <==>
            n >= 0 || n > p.burst
  {
    if n >= 0 || n > p.burst {
      forall b: Bucket, at: real | InRange(p, b) && b.last <= at ensures InRange(p, Step(p, b, Timed(at, Ask(n)))) {
        assert p.produced(b.last) <= p.produced(at);
      }
    } else {
      var b := FullBucket(p, 0.0);
      assert InRange(p, b) && !InRange(p, Step(p, b, Timed(0.0, Ask(n))));
    }
  }
}
