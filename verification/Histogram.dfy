/** The histogram and its export (internal/observability/metrics/prometheus.go, lines 193-209 and 281-301). */
module Histograms {

  /** The bucket an observation goes to: the first bound it does not exceed, else the last bucket. */
  function BucketOf(bounds: seq<real>, v: real): (i: nat)
    ensures i <= |bounds|
    ensures i < |bounds| ==> v <= bounds[i]
    ensures forall j :: 0 <= j < i ==> v > bounds[j]
  {
    if bounds == [] || v <= bounds[0] then 0 else BucketOf(bounds[1..], v) + 1
  }

  /** How many of the observations fell into bucket i, and how many into the first n buckets. */
  function CountIn(bounds: seq<real>, obs: seq<real>, i: nat): nat {
    if obs == [] then 0
    else CountIn(bounds, obs[..|obs| - 1], i) + if BucketOf(bounds, obs[|obs| - 1]) == i then 1 else 0
  }

  function Cumulative(bounds: seq<real>, obs: seq<real>, n: nat): nat {
    if n == 0 then 0 else Cumulative(bounds, obs, n - 1) + CountIn(bounds, obs, n - 1)
  }

  /** How many observations are at or below b, bounds or no bounds. */
  function CountLE(obs: seq<real>, b: real): nat {
    if obs == [] then 0 else CountLE(obs[..|obs| - 1], b) + if obs[|obs| - 1] <= b then 1 else 0
  }

  function Sum(obs: seq<real>): real {
    if obs == [] then 0.0 else Sum(obs[..|obs| - 1]) + obs[|obs| - 1]
  }

  lemma {:induction false} CumulativeAppend(bounds: seq<real>, obs: seq<real>, v: real, n: nat)
    ensures Cumulative(bounds, obs + [v], n) == Cumulative(bounds, obs, n) + if BucketOf(bounds, v) < n then 1 else 0
    decreases n
  {
    if n > 0 {
      assert (obs + [v])[..|obs|] == obs;
      CumulativeAppend(bounds, obs, v, n - 1);
    }
  }

  lemma {:induction false} NothingYet(bounds: seq<real>, n: nat)
    ensures Cumulative(bounds, [], n) == 0
  {
    if n > 0 {
      NothingYet(bounds, n - 1);
    }
  }

  /** The largest of the bounds up to i. */
  function Highest(bounds: seq<real>, i: nat): real
    requires i < |bounds|
  {
    if i == 0 then bounds[0]
    else
      var before := Highest(bounds, i - 1);
      if before <= bounds[i] then bounds[i] else before
  }

  lemma {:induction false} HighestIsReached(bounds: seq<real>, i: nat) returns (k: nat)
    requires i < |bounds|
    ensures k <= i && bounds[k] == Highest(bounds, i)
    ensures forall j :: 0 <= j <= i ==> bounds[j] <= Highest(bounds, i)
  {
    k := i;
    if i > 0 {
      var before := HighestIsReached(bounds, i - 1);
      if Highest(bounds, i - 1) > bounds[i] {
        k := before;
      }
    }
  }

  /** For any bounds at all, sorted or not, the exported count at a bound counts the observations up to the
      largest bound so far. */
  lemma {:induction false} CumulativeCounts(bounds: seq<real>, obs: seq<real>, i: nat)
    requires i < |bounds|
    ensures Cumulative(bounds, obs, i + 1) == CountLE(obs, Highest(bounds, i))
    decreases |obs|
  {
    if obs == [] {
      NothingYet(bounds, i + 1);
    } else {
      var before, v := obs[..|obs| - 1], obs[|obs| - 1];
      CumulativeCounts(bounds, before, i);
      assert obs == before + [v];
      CumulativeAppend(bounds, before, v, i + 1);
      var top := HighestIsReached(bounds, i);
      var k := BucketOf(bounds, v);
      if k <= i {
        assert v <= bounds[k] <= Highest(bounds, i);
      } else {
        assert v > bounds[top];
      }
    }
  }

  /** So the export means what its label says, for every series of observations, exactly when no earlier
      bound is larger. */
  lemma LabelHonestIff(bounds: seq<real>, i: nat)
    requires i < |bounds|
    ensures (forall obs :: Cumulative(bounds, obs, i + 1) == CountLE(obs, bounds[i]))
        <==> (forall j :: 0 <= j < i ==> bounds[j] <= bounds[i])
  {
    var top := HighestIsReached(bounds, i);
    if forall j :: 0 <= j < i ==> bounds[j] <= bounds[i] {
      assert Highest(bounds, i) == bounds[i];
      forall obs ensures Cumulative(bounds, obs, i + 1) == CountLE(obs, bounds[i]) {
        CumulativeCounts(bounds, obs, i);
      }
    } else {
      assert bounds[i] < Highest(bounds, i);
      DishonestLabel(bounds, i);
    }
  }

  /** One observation at the largest bound is counted at a lower one behind it. */
  lemma DishonestLabel(bounds: seq<real>, i: nat)
    requires i < |bounds| && bounds[i] < Highest(bounds, i)
    ensures exists obs :: Cumulative(bounds, obs, i + 1) != CountLE(obs, bounds[i])
  {
    var high := Highest(bounds, i);
    CumulativeCounts(bounds, [high], i);
    CountOne(high, high);
    CountOne(high, bounds[i]);
    assert Cumulative(bounds, [high], i + 1) != CountLE([high], bounds[i]);
  }

  lemma CountOne(v: real, bound: real)
    ensures CountLE([v], bound) == if v <= bound then 1 else 0
  {
    assert [v][..0] == [];
    assert CountLE([], bound) == 0;
  }

  /** The last bucket makes the count complete, and counts never fall from one bucket to the next. */
  lemma {:induction false} InfinityCountsAll(bounds: seq<real>, obs: seq<real>)
    ensures Cumulative(bounds, obs, |bounds| + 1) == |obs|
  {
    if obs == [] {
      NothingYet(bounds, |bounds| + 1);
    } else {
      var before, v := obs[..|obs| - 1], obs[|obs| - 1];
      InfinityCountsAll(bounds, before);
      assert obs == before + [v];
      CumulativeAppend(bounds, before, v, |bounds| + 1);
    }
  }

  lemma {:induction false} CumulativeMonotone(bounds: seq<real>, obs: seq<real>, i: nat, j: nat)
    requires i <= j
    ensures Cumulative(bounds, obs, i) <= Cumulative(bounds, obs, j)
    decreases j
  {
    if i < j {
      CumulativeMonotone(bounds, obs, i, j - 1);
    }
  }

  /** The numbers a histogram with these bounds shows after these observations. */
  ghost predicate Shows(bounds: seq<real>, obs: seq<real>, lines: seq<nat>, total: nat) {
    && |lines| == |bounds| && total == |obs|
    && (forall i :: 0 <= i < |lines| ==> lines[i] == CountLE(obs, Highest(bounds, i)))
    && (forall i, j :: 0 <= i <= j < |lines| ==> lines[i] <= lines[j] <= total)
  }

  lemma ShowsCounts(bounds: seq<real>, obs: seq<real>, lines: seq<nat>, total: nat)
    requires |lines| == |bounds| && total == Cumulative(bounds, obs, |bounds| + 1)
    requires forall k: nat :: k < |lines| ==> lines[k] == Cumulative(bounds, obs, k + 1)
    ensures Shows(bounds, obs, lines, total)
  {
    InfinityCountsAll(bounds, obs);
    forall i: nat | i < |lines| ensures lines[i] == CountLE(obs, Highest(bounds, i)) {
      CumulativeCounts(bounds, obs, i);
    }
    forall i: nat, j: nat | i <= j < |lines| ensures lines[i] <= lines[j] <= total {
      CumulativeMonotone(bounds, obs, i + 1, j + 1);
      CumulativeMonotone(bounds, obs, j + 1, |bounds| + 1);
    }
  }

  /** The numbers of one export. */
  datatype Export = Export(atBounds: seq<nat>, atInfinity: nat, sum: real, count: nat)

  class Histogram {
    const buckets: seq<real>
    const counts: array<nat>
    var sum: real
    var count: nat
    /** Everything observed so far. */
    ghost var observed: seq<real>

    ghost predicate Valid()
      reads this, counts
    {
      && counts.Length == |buckets| + 1
      && sum == Sum(observed) && count == |observed|
      && forall i :: 0 <= i < counts.Length ==> counts[i] == CountIn(buckets, observed, i)
    }

    /** Lines 97-110. */
    constructor (buckets: seq<real>)
      ensures Valid() && this.buckets == buckets && observed == [] && fresh(counts)
    {
      this.buckets := buckets;
      counts := new nat[|buckets| + 1](_ => 0);
      sum, count, observed := 0.0, 0, [];
    }

    /** Lines 193-209. */
    method Observe(v: real)
      requires Valid()
      modifies this, counts
      ensures Valid() && observed == old(observed) + [v]
    {
      ghost var before := observed;
      sum := sum + v;
      count := count + 1;
      observed := observed + [v];
      assert observed[..|before|] == before;
      var i := 0;
      while i < |buckets| && v > buckets[i]
        invariant 0 <= i <= |buckets| && forall j :: 0 <= j < i ==> v > buckets[j]
      {
        i := i + 1;
      }
      assert i == BucketOf(buckets, v);
      counts[i] := counts[i] + 1;
    }

    /** Lines 283-298. */
    method Accumulate() returns (lines: seq<nat>, cumulative: nat)
      requires Valid()
      ensures |lines| == |buckets| && cumulative == Cumulative(buckets, observed, |buckets| + 1)
      ensures forall k: nat :: k < |lines| ==> lines[k] == Cumulative(buckets, observed, k + 1)
    {
      cumulative := 0;
      lines := [];
      for i := 0 to |buckets|
        invariant |lines| == i && cumulative == Cumulative(buckets, observed, i)
        invariant forall k :: 0 <= k < i ==> lines[k] == Cumulative(buckets, observed, k + 1)
      {
        cumulative := cumulative + counts[i];
        lines := lines + [cumulative];
      }
      cumulative := cumulative + counts[|buckets|];
    }

    /** Lines 281-306: the numbers that are printed, in their order. */
    method Format() returns (e: Export)
      requires Valid()
      ensures Shows(buckets, observed, e.atBounds, e.atInfinity)
      ensures e.count == |observed| && e.sum == Sum(observed)
    {
      var lines, cumulative := Accumulate();
      ShowsCounts(buckets, observed, lines, cumulative);
      e := Export(lines, cumulative, sum, count);
    }
  }
}
