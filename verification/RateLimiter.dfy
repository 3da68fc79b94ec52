/** The token bucket and the middleware's bucket table as the objects the source updates
    (internal/security/ratelimit/tokenbucket.go). The clock is a parameter, in seconds. */
module RateLimiter {
  import opened RateModel
  import opened LimiterModel
  import opened LimiterFlight

  class TokenBucket {
    const rate: real
    const burst: int
    var tokens: real
    var lastUpdate: real

    /** The bucket as a value, and its limit. */
    ghost function State(): Bucket
      reads this
    {
      Bucket(tokens, lastUpdate)
    }

    ghost function Law(): Limit {
      Limit(burst, ConstantRate(rate))
    }

    /** Lines 24-31. */
    constructor (rate: real, burst: int, now: real)
      ensures this.rate == rate && this.burst == burst
      ensures State() == FullBucket(Law(), now)
    {
      this.rate, this.burst := rate, burst;
      tokens := burst as real;
      lastUpdate := now;
    }

    /** Lines 41-60. */
    method AllowN(n: int, now: real) returns (granted: bool)
      modifies this
      ensures State() == Step(Law(), old(State()), Timed(now, Ask(n)))
      ensures granted == Granted(Law(), old(State()), Timed(now, Ask(n)))
    {
      var elapsed := now - lastUpdate;
      tokens := tokens + elapsed * rate;
      if tokens > burst as real {
        tokens := burst as real;
      }
      lastUpdate := now;
      if tokens >= n as real {
        tokens := tokens - n as real;
        return true;
      }
      return false;
    }

    method Allow(now: real) returns (granted: bool)
      modifies this
      ensures State() == Step(Law(), old(State()), One(now))
      ensures granted == Granted(Law(), old(State()), One(now))
    {
      granted := AllowN(1, now);
    }

    /** Lines 96-108: the bucket itself is not brought up to date. */
    method Remaining(now: real) returns (level: real)
      ensures level == Level(Law(), State(), now)
    {
      var elapsed := now - lastUpdate;
      level := tokens + elapsed * rate;
      if level > burst as real {
        level := burst as real;
      }
    }

    /** Lines 111-116. */
    method ResetFull(now: real)
      modifies this
      ensures State() == FullBucket(Law(), now)
    {
      tokens := burst as real;
      lastUpdate := now;
    }
  }

  class Middleware {
    const rate: real
    const burst: int
    var buckets: map<string, TokenBucket>
    /** All buckets ever made, their keys, where those of the table stand among them, and the requests made. */
    ghost var made: seq<TokenBucket>
    ghost var keys: seq<string>
    ghost var places: map<string, nat>
    ghost var held: seq<Held>

    ghost function Law(): Limit {
      Limit(burst, ConstantRate(rate))
    }

    /** Every bucket was made for one key, all under the same limit. */
    ghost predicate Valid()
      reads this
    {
      && |keys| == |made| && places.Keys == buckets.Keys
      && (forall i :: 0 <= i < |made| ==> made[i].rate == rate && made[i].burst == burst)
      && (forall i, j :: 0 <= i < j < |made| ==> made[i] != made[j])
      && (forall k :: k in places ==> places[k] < |made| && keys[places[k]] == k && made[places[k]] == buckets[k])
      && (forall r :: 0 <= r < |held| ==> held[r].place < |made|)
    }

    /** The table with the buckets that requests in flight hold. */
    ghost function Abs(): Flow
      reads this, made
      requires Valid()
    {
      Flow(places, States(), held)
    }

    ghost function States(): seq<Made>
      reads this, made
      requires |keys| == |made|
    {
      seq(|made|, i requires 0 <= i < |made| && |keys| == |made| reads this, made => Made(keys[i], made[i].State()))
    }

    constructor (rate: real, burst: int)
      ensures Valid() && Abs() == NOTHING && this.rate == rate && this.burst == burst
    {
      this.rate, this.burst := rate, burst;
      buckets := map[];
      made, keys, places, held := [], [], map[], [];
    }

    /** Lines 201-227 for a request that nothing comes in between: the answer says whether the wrapped handler is
        called. */
    method Handle(key: string, now: real) returns (admitted: bool)
      requires Valid()
      modifies this, made
      ensures Valid() && WellFormed(old(Abs())) && WellFormed(Abs())
      ensures admitted == Admitted(Law(), Tabled(old(Abs())), key, now)
      ensures Tabled(Abs()) == Act(Law(), Tabled(old(Abs())), Request(key, now))
    {
      AbsWellFormed();
      HandledAtOnce(Law(), Abs(), key, now);
      ghost var request := |held|;
      var bucket := BucketOf(key, now);
      admitted := AllowIn(bucket, request, now);
    }

    lemma AbsWellFormed()
      requires Valid()
      ensures WellFormed(Abs())
    {}

    /** Lines 206-218: find the key's bucket, or make one. */
    method BucketOf(key: string, now: real) returns (bucket: TokenBucket)
      requires Valid()
      modifies this
      ensures Valid() && Abs() == AfterFetch(Law(), old(Abs()), key, now)
      ensures |held| == |old(held)| + 1 && made[held[|old(held)|].place] == bucket
      ensures made == old(made) || (|made| == |old(made)| + 1 && old(made) <= made && fresh(made[|old(made)|]))
    {
      if key in buckets {
        bucket := buckets[key];
      } else {
        bucket := MakeBucket(key, now);
      }
      Hold(key);
    }

    /** The request holds its key's bucket from here on. */
    ghost method Hold(key: string)
      requires Valid() && key in places
      modifies this`held
      ensures Valid() && held == old(held) + [Held(places[key], false)]
      ensures Abs() == old(Abs()).(held := held)
    {
      held := held + [Held(places[key], false)];
    }

    /** Lines 213-216. */
    method MakeBucket(key: string, now: real) returns (bucket: TokenBucket)
      requires Valid() && key !in buckets
      modifies this`buckets, this`made, this`keys, this`places
      ensures Valid() && fresh(bucket) && made == old(made) + [bucket]
      ensures buckets == old(buckets)[key := bucket] && places == old(places)[key := |old(made)|]
      ensures Abs() == Flow(places, old(Abs()).made + [Made(key, FullBucket(Law(), now))], held)
    {
      ghost var states := States();
      bucket := new TokenBucket(rate, burst, now);
      places := places[key := |made|];
      made, keys := made + [bucket], keys + [key];
      buckets := buckets[key := bucket];
      assert States() == states + [Made(key, FullBucket(Law(), now))];
    }

    /** Line 220: the bucket may have been dropped from the table since. */
    method AllowIn(bucket: TokenBucket, ghost request: nat, now: real) returns (admitted: bool)
      requires Valid() && Enabled(Abs(), Draw(request, now)) && made[held[request].place] == bucket
      modifies this`held, bucket
      ensures Valid() && Abs() == AfterDraw(Law(), old(Abs()), request, now)
      ensures admitted == DrawGranted(Law(), old(Abs()), Draw(request, now))
    {
      ghost var place := held[request].place;
      admitted := bucket.Allow(now);
      held := held[request := Held(place, true)];
    }

    /** Lines 231-245: the buckets in any order. */
    method CleanupIdle(maxAge: real, now: real)
      requires Valid()
      modifies this`buckets, this`places
      ensures Valid() && WellFormed(old(Abs())) && Abs() == AfterSweep(old(Abs()), maxAge, now)
      ensures WellFormed(Abs()) && Tabled(Abs()) == Act(Law(), Tabled(old(Abs())), Cleanup(maxAge, now))
    {
      AbsWellFormed();
      ghost var s := Abs();
      SweptTable(s, maxAge, now);
      var todo := buckets.Keys;
      while todo != {}
        invariant Valid() && Abs() == s.(table := places)
        invariant todo <= places.Keys && SweptBut(s, todo, maxAge, now, places)
      {
        var key :| key in todo;
        SweptOne(s, todo, maxAge, now, places, key);
        DropIfIdle(key, maxAge, now);
        todo := todo - {key};
      }
      SweptAll(s, maxAge, now, places);
    }

    /** Lines 236-243 for one key. */
    method DropIfIdle(key: string, maxAge: real, now: real)
      requires Valid() && key in places
      modifies this`buckets, this`places
      ensures Valid() && Abs() == old(Abs()).(table := places)
      ensures places == if now - Abs().made[old(places)[key]].bucket.last > maxAge then old(places) - {key}
                        else old(places)
    {
      ghost var states := States();
      var age := now - buckets[key].lastUpdate;
      if age > maxAge {
        buckets := buckets - {key};
        places := places - {key};
      }
      assert States() == states;
    }
  }
}
