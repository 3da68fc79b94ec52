/** A token bucket without its bookkeeping (internal/security/ratelimit/tokenbucket.go, lines 41-60): it grants exactly
    what overfills no window of the run. */
module RateLaws {
  import opened RateModel

  ghost predicate NoResets(evs: seq<Timed>) {
    forall i :: 0 <= i < |evs| ==> !evs[i].ev.Reset?
  }

  /** A run of a bucket that is full at `start`, on a clock that does not go back. */
  ghost predicate Fresh(p: Limit, start: real, evs: seq<Timed>, now: real) {
    && Monotone(p.produced) && p.burst >= 0 && NonNegative(evs) && NoResets(evs)
    && (forall i :: 0 <= i < |evs| ==> start <= evs[i].at <= now)
    && (forall i, j :: 0 <= i < j < |evs| ==> evs[i].at <= evs[j].at)
    && start <= now
  }

  function StateAfter(p: Limit, start: real, evs: seq<Timed>): Bucket
    decreases |evs|
  {
    if evs == [] then FullBucket(p, start)
    else Step(p, StateAfter(p, start, evs[..|evs|-1]), evs[|evs|-1])
  }

  /** Whether the k-th event took tokens, and how many. */
  function TakenAt(p: Limit, start: real, evs: seq<Timed>, k: nat): int
    requires k < |evs|
  {
    Taken(p, StateAfter(p, start, evs[..k]), evs[k])
  }

  /** What the events from k to n took together. */
  function TakenIn(p: Limit, start: real, evs: seq<Timed>, k: nat, n: nat): int
    requires k <= n <= |evs|
    decreases n
  {
    if n == k then 0 else TakenIn(p, start, evs, k, n - 1) + TakenAt(p, start, evs, n - 1)
  }

  /** It is the bucket that the run leaves. */
  lemma {:induction false} StateIsRun(p: Limit, start: real, evs: seq<Timed>)
    ensures StateAfter(p, start, evs) == Run(p, FullBucket(p, start), evs)
    decreases |evs|
  {
    if evs != [] {
      var n := |evs| - 1;
      StateIsRun(p, start, evs[..n]);
      RunSnoc(p, FullBucket(p, start), evs[..n], evs[n]);
      assert evs[..n] + [evs[n]] == evs;
    }
  }

  lemma {:induction false} RunSnoc(p: Limit, b: Bucket, evs: seq<Timed>, e: Timed)
    ensures Run(p, b, evs + [e]) == Step(p, Run(p, b, evs), e)
    decreases |evs|
  {
    if evs == [] {
      assert [] + [e] == [e] && [e][1..] == [];
    } else {
      assert (evs + [e])[1..] == evs[1..] + [e];
      RunSnoc(p, Step(p, b, evs[0]), evs[1..], e);
    }
  }

  /** The level after the first n events, at `now`. */
  function LevelAfter(p: Limit, start: real, evs: seq<Timed>, n: nat, now: real): real
    requires n <= |evs|
  {
    Level(p, StateAfter(p, start, evs[..n]), now)
  }

  lemma {:induction false} StateFacts(p: Limit, start: real, evs: seq<Timed>, n: nat, at: real, end: real)
    requires Fresh(p, start, evs, end) && n <= |evs| && start <= at && (n > 0 ==> evs[n-1].at <= at)
    ensures InRange(p, StateAfter(p, start, evs[..n])) && StateAfter(p, start, evs[..n]).last <= at
    decreases n
  {
    if n > 0 {
      StateFacts(p, start, evs, n - 1, evs[n-1].at, end);
      assert evs[..n][..n-1] == evs[..n-1];
      StepInRange(p, StateAfter(p, start, evs[..n-1]), evs[n-1]);
    }
  }

  /** One event on: what it took is gone, what was produced since is there, up to the burst. */
  lemma LevelStep(p: Limit, start: real, evs: seq<Timed>, n: nat, at: real, end: real)
    requires Fresh(p, start, evs, end) && n < |evs| && evs[n].at <= at
    ensures var level := LevelAfter(p, start, evs, n, evs[n].at) - TakenAt(p, start, evs, n) as real
                         + (p.produced(at) - p.produced(evs[n].at));
            LevelAfter(p, start, evs, n + 1, at) == if level > Cap(p) then Cap(p) else level
  {
    StateFacts(p, start, evs, n, evs[n].at, end);
    assert evs[..n+1][..n] == evs[..n];
    SplitRefill(p, StateAfter(p, start, evs[..n]), evs[n].at, at);
  }

  /** What a window starting at event k still has room for, at `now`. */
  function Room(p: Limit, start: real, evs: seq<Timed>, k: nat, n: nat, now: real): real
    requires k < n <= |evs|
  {
    Cap(p) + (p.produced(now) - p.produced(evs[k].at)) - TakenIn(p, start, evs, k, n) as real
  }

  lemma RoomStep(p: Limit, start: real, evs: seq<Timed>, k: nat, n: nat, now: real)
    requires k < n < |evs|
    ensures Room(p, start, evs, k, n + 1, now) ==
            Room(p, start, evs, k, n, evs[n].at) - TakenAt(p, start, evs, n) as real
            + (p.produced(now) - p.produced(evs[n].at))
  {}

  lemma RoomFirst(p: Limit, start: real, evs: seq<Timed>, n: nat, now: real)
    requires n < |evs|
    ensures Room(p, start, evs, n, n + 1, now) ==
            Cap(p) - TakenAt(p, start, evs, n) as real + (p.produced(now) - p.produced(evs[n].at))
  {
    assert TakenIn(p, start, evs, n, n + 1) == TakenIn(p, start, evs, n, n) + TakenAt(p, start, evs, n);
  }

  /** The level is no more than any window has room for. */
  lemma {:induction false} LevelInRoom(p: Limit, start: real, evs: seq<Timed>, k: nat, n: nat, at: real, end: real)
    requires Fresh(p, start, evs, end) && k < n <= |evs| && evs[n-1].at <= at
    ensures LevelAfter(p, start, evs, n, at) <= Room(p, start, evs, k, n, at)
    decreases n
  {
    var m := n - 1;
    LevelStep(p, start, evs, m, at, end);
    if k == m {
      RoomFirst(p, start, evs, m, at);
    } else {
      LevelInRoom(p, start, evs, k, m, evs[m].at, end);
      RoomStep(p, start, evs, k, m, at);
    }
  }

  /** It is the burst, or what some window has room for. */
  lemma {:induction false} LevelIsSomeRoom(p: Limit, start: real, evs: seq<Timed>, n: nat, at: real, end: real)
    returns (k: nat)
    requires Fresh(p, start, evs, end) && n <= |evs| && start <= at && (n > 0 ==> evs[n-1].at <= at)
    ensures k <= n
    ensures LevelAfter(p, start, evs, n, at) == if k == n then Cap(p) else Room(p, start, evs, k, n, at)
    decreases n
  {
    if n == 0 {
      k := 0;
      assert p.produced(start) <= p.produced(at);
    } else {
      var m := n - 1;
      LevelStep(p, start, evs, m, at, end);
      k := LevelIsSomeRoom(p, start, evs, m, evs[m].at, end);
      if LevelAfter(p, start, evs, n, at) == Cap(p) {
        k := n;
      } else if k == m {
        RoomFirst(p, start, evs, m, at);
      } else {
        RoomStep(p, start, evs, k, m, at);
      }
    }
  }

  /** With `n` more, the window from event k to `now` is not overfilled. */
  ghost predicate Fits(p: Limit, start: real, evs: seq<Timed>, k: nat, n: nat, now: real)
    requires k < |evs|
  {
    TakenIn(p, start, evs, k, |evs|) as real + n as real <= p.burst as real + (p.produced(now) - p.produced(evs[k].at))
  }

  lemma FitsIffRoom(p: Limit, start: real, evs: seq<Timed>, k: nat, n: nat, now: real)
    requires k < |evs|
    ensures Fits(p, start, evs, k, n, now) <==> Room(p, start, evs, k, |evs|, now) >= n as real
  {}

  lemma LevelMeansFits(p: Limit, start: real, evs: seq<Timed>, n: nat, now: real)
    requires Fresh(p, start, evs, now)
    ensures LevelAfter(p, start, evs, |evs|, now) >= n as real <==>
            n <= p.burst && forall k :: 0 <= k < |evs| ==> Fits(p, start, evs, k, n, now)
  {
    var level := LevelAfter(p, start, evs, |evs|, now);
    forall k | 0 <= k < |evs| ensures level >= n as real ==> Fits(p, start, evs, k, n, now) {
      LevelInRoom(p, start, evs, k, |evs|, now, now);
      FitsIffRoom(p, start, evs, k, n, now);
    }
    var k := LevelIsSomeRoom(p, start, evs, |evs|, now, now);
    if k < |evs| {
      FitsIffRoom(p, start, evs, k, n, now);
    }
  }

  /** A request is granted exactly if it is within the burst and, together with what was taken since, within the burst
      and the production of every window that ends with it. */
  lemma GrantedIffAllWindowsFit(p: Limit, start: real, evs: seq<Timed>, n: nat, now: real)
    requires Fresh(p, start, evs, now)
    ensures Granted(p, Run(p, FullBucket(p, start), evs), Timed(now, Ask(n))) <==>
            n <= p.burst && forall k :: 0 <= k < |evs| ==> Fits(p, start, evs, k, n, now)
  {
    StateIsRun(p, start, evs);
    assert evs[..|evs|] == evs;
    LevelMeansFits(p, start, evs, n, now);
  }
}
