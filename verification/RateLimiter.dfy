/** The request rate limiter: one bucket for each of a bounded number of identities. */
module RateLimiter {
  import opened Wrappers
  import opened Resource
  import opened TokenBuckets

  const SOURCE_PREFIX := "source:"

  function Key(identity: string): (key: string)
    ensures key != ""
  {
    if identity == "" then "unknown" else identity
  }

  /** Identities share a bucket only if they are the same or both unknown. */
  lemma KeysKeepApart(a: string, b: string)
    ensures Key(a) == Key(b) <==> a == b || {a, b} == {"", "unknown"}
  {
    if {a, b} == {"", "unknown"} {
      assert a in {"", "unknown"} && b in {"", "unknown"};
    }
  }

  function Capacity(limits: Limits, key: string): real {
    if SOURCE_PREFIX <= key then limits.requestBurst as real * 4.0 else limits.requestBurst as real
  }

  function PerMinute(limits: Limits, key: string): real {
    if SOURCE_PREFIX <= key then limits.requestsPerMinute as real * 4.0 else limits.requestsPerMinute as real
  }

  /** Tokens regained in a second. */
  function Rate(limits: Limits, key: string): real {
    PerMinute(limits, key) / 60.0
  }

  /** What is configured for an identity, and four times that for a source address. */
  function Share(key: string, configured: int): int {
    if |key| >= 7 && key[..7] == "source:" then 4 * configured else configured
  }

  /** After k requests at one instant, the first of which found the bucket full. */
  lemma {:induction false} SpentAtOnce(key: string, t: real, k: nat, limits: Limits)
    requires limits.Valid()
    ensures var times := seq(k + 1, _ => t);
            && BucketBefore(times, Capacity(limits, key), Rate(limits, key)).updated == t
            && BucketBefore(times, Capacity(limits, key), Rate(limits, key)).tokens ==
               if k <= Share(key, limits.requestBurst) then (Share(key, limits.requestBurst) - k) as real else 0.0
  {
    var times := seq(k + 1, _ => t);
    if k > 0 {
      SpentAtOnce(key, t, k - 1, limits);
      assert times[..k] == seq(k, _ => t);
    }
  }

  /** Of any number of requests at one instant, a new identity gets its configured burst and no more. */
  lemma BurstAtOnce(key: string, t: real, n: nat, i: nat, limits: Limits)
    requires limits.Valid() && i < n
    ensures LazyDecisions(seq(n, _ => t), Capacity(limits, key), Rate(limits, key))[i] <==>
            i < Share(key, limits.requestBurst)
  {
    LazyPrefix(seq(n, _ => t), i, Capacity(limits, key), Rate(limits, key));
    assert seq(n, _ => t)[..i + 1] == seq(i + 1, _ => t);
    SpentAtOnce(key, t, i, limits);
  }

  lemma {:induction false} LazyPrefix(times: seq<real>, i: nat, capacity: real, rate: real)
    requires i < |times|
    ensures LazyDecisions(times, capacity, rate)[i] <==> TokensAtLast(times[..i + 1], capacity, rate) >= 1.0
  {
    if i == |times| - 1 {
      assert times[..i + 1] == times;
    } else {
      LazyPrefix(times[..|times| - 1], i, capacity, rate);
      assert times[..|times| - 1][..i + 1] == times[..i + 1];
    }
  }

  /** An identity left alone for a minute regains its configured requests a minute, up to its burst. */
  lemma MinuteRefills(key: string, b: Bucket, now: real, limits: Limits)
    requires limits.Valid() && now == b.updated + 60.0
    ensures var burst, minute := Share(key, limits.requestBurst) as real, Share(key, limits.requestsPerMinute) as real;
            Available(b, now, Capacity(limits, key), Rate(limits, key)) ==
            if b.tokens + minute > burst then burst else b.tokens + minute
  {
    assert Gain(Rate(limits, key), 60.0) == Rate(limits, key) * 60.0 == PerMinute(limits, key);
  }

  datatype Call = Call(identity: string, now: real, ok: bool, evicted: Option<string>)

  ghost predicate IsOldest(buckets: map<string, Bucket>, key: string) {
    key in buckets && forall k :: k in buckets ==> buckets[key].lastSeen <= buckets[k].lastSeen
  }

  /** The bucket a call finds: its own, or a full new one. */
  function Found(buckets: map<string, Bucket>, key: string, now: real, limits: Limits): Bucket {
    if key in buckets then buckets[key] else Bucket(Capacity(limits, key), now, now)
  }

  function Remaining(buckets: map<string, Bucket>, c: Call): map<string, Bucket> {
    if c.evicted.Some? then buckets - {c.evicted.value} else buckets
  }

  /** One call: a full limiter forgets a least recently seen identity before it tracks a new one. */
  ghost predicate LimiterStep(before: map<string, Bucket>, after: map<string, Bucket>, c: Call, limits: Limits) {
    var key := Key(c.identity);
    var b := Found(before, key, c.now, limits);
    && (c.evicted.Some? <==> key !in before && |before| >= 4096)
    && (c.evicted.Some? ==> IsOldest(before, c.evicted.value))
    && after == Remaining(before, c)[key := Taken(b, c.now, Capacity(limits, key), Rate(limits, key))]
    && (c.ok <==> Allows(b, c.now, Capacity(limits, key), Rate(limits, key)))
  }

  class Limiter {
    const limits: Limits
    var buckets: map<string, Bucket>

    ghost predicate Valid()
      reads this
    {
      && "" !in buckets
      && |buckets| <= MAX_TRACKED_IDENTITIES
    }

    constructor (limits: Limits)
      ensures Valid() && this.limits == limits && buckets == map[]
    {
      this.limits, buckets := limits, map[];
    }

    method Allow(identity: string, now: real) returns (ok: bool, ghost evicted: Option<string>)
      requires Valid()
      modifies this`buckets
      ensures Valid()
      ensures LimiterStep(old(buckets), buckets, Call(identity, now, ok, evicted), limits)
    {
      var key := Key(identity);
      evicted := None;
      var capacity := limits.requestBurst as real;
      var requestsPerMinute := limits.requestsPerMinute as real;
      if SOURCE_PREFIX <= key {
        capacity := capacity * 4.0;
        requestsPerMinute := requestsPerMinute * 4.0;
      }
      var bucket;
      if key in buckets {
        bucket := buckets[key];
      } else {
        if |buckets| >= MAX_TRACKED_IDENTITIES {
          var oldest := EvictOldest();
          evicted := Some(oldest);
        }
        bucket := Bucket(capacity, now, now);
      }
      ok, bucket := Take(bucket, now, capacity, requestsPerMinute);
      buckets := buckets[key := bucket];
    }

    /** Refills a bucket for the time it went untouched and takes a token if it has one. */
    static method Take(b: Bucket, now: real, capacity: real, requestsPerMinute: real) returns (ok: bool, bucket: Bucket)
      ensures bucket == Taken(b, now, capacity, requestsPerMinute / 60.0)
      ensures ok <==> Allows(b, now, capacity, requestsPerMinute / 60.0)
    {
      bucket := b;
      var elapsed := now - bucket.updated;
      if elapsed > 0.0 {
        assert elapsed * requestsPerMinute / 60.0 == Gain(requestsPerMinute / 60.0, elapsed);
        bucket := bucket.(tokens := bucket.tokens + elapsed * requestsPerMinute / 60.0);
        if bucket.tokens > capacity {
          bucket := bucket.(tokens := capacity);
        }
      }
      bucket := bucket.(updated := now, lastSeen := now);
      ok := !(bucket.tokens < 1.0);
      if ok {
        bucket := bucket.(tokens := bucket.tokens - 1.0);
      }
    }

    /** Removes an identity that no other has gone unseen for longer, in whatever order the map is walked. */
    method EvictOldest() returns (oldest: string)
      requires Valid() && buckets != map[]
      modifies this`buckets
      ensures IsOldest(old(buckets), oldest)
      ensures buckets == old(buckets) - {oldest} && |buckets| == |old(buckets)| - 1
    {
      oldest := "";
      var oldestSeen := 0.0;
      var rest := buckets.Keys;
      while rest != {}
        invariant rest <= buckets.Keys
        invariant oldest == "" ==> rest == buckets.Keys
        invariant oldest != "" ==> oldest in buckets && oldest !in rest && oldestSeen == buckets[oldest].lastSeen
        invariant oldest != "" ==> forall k :: k in buckets && k !in rest ==> oldestSeen <= buckets[k].lastSeen
        decreases |rest|
      {
        var key :| key in rest;
        if oldest == "" || buckets[key].lastSeen < oldestSeen {
          oldest, oldestSeen := key, buckets[key].lastSeen;
        }
        rest := rest - {key};
      }
      assert (buckets - {oldest}).Keys == buckets.Keys - {oldest};
      assert |(buckets - {oldest}).Keys| == |buckets.Keys| - 1;
      buckets := buckets - {oldest};
    }
  }

  // ---- runs ----

  ghost predicate IsRun(states: seq<map<string, Bucket>>, calls: seq<Call>, limits: Limits) {
    && |states| == |calls| + 1
    && (forall i :: 0 <= i < |calls| ==> LimiterStep(states[i], states[i + 1], calls[i], limits))
    && (forall i, j :: 0 <= i < j < |calls| ==> calls[i].now <= calls[j].now)
  }

  /** The limiter never tracks more identities than its bound. */
  lemma {:induction false} TrackedStayBounded(states: seq<map<string, Bucket>>, calls: seq<Call>, limits: Limits,
                                              i: nat)
    requires IsRun(states, calls, limits) && i <= |calls|
    requires |states[0]| <= 4096
    ensures |states[i]| <= 4096
  {
    if i > 0 {
      TrackedStayBounded(states, calls, limits, i - 1);
      var before, c := states[i - 1], calls[i - 1];
      assert LimiterStep(before, states[i], c, limits);
      assert Remaining(before, c).Keys == if c.evicted.Some? then before.Keys - {c.evicted.value} else before.Keys;
      assert |Remaining(before, c).Keys| == |before.Keys| - if c.evicted.Some? then 1 else 0;
      assert states[i].Keys == Remaining(before, c).Keys + {Key(c.identity)};
    }
  }

  // ---- one identity over a run ----

  /** The times of the calls by key among the first i calls, and what they were answered. */
  function TimesOf(calls: seq<Call>, i: nat, key: string): (ts: seq<real>)
    requires i <= |calls|
  {
    if i == 0 then []
    else TimesOf(calls, i - 1, key) + if Key(calls[i - 1].identity) == key then [calls[i - 1].now] else []
  }

  function AnswersTo(calls: seq<Call>, i: nat, key: string): (ds: seq<bool>)
    requires i <= |calls|
    ensures |ds| == |TimesOf(calls, i, key)|
  {
    if i == 0 then []
    else AnswersTo(calls, i - 1, key) + if Key(calls[i - 1].identity) == key then [calls[i - 1].ok] else []
  }

  function Admissions(calls: seq<Call>, i: nat, key: string): nat
    requires i <= |calls|
  {
    if i == 0 then 0
    else Admissions(calls, i - 1, key) + if Key(calls[i - 1].identity) == key && calls[i - 1].ok then 1 else 0
  }

  function Evictions(calls: seq<Call>, i: nat, key: string): nat
    requires i <= |calls|
  {
    if i == 0 then 0 else Evictions(calls, i - 1, key) + if calls[i - 1].evicted == Some(key) then 1 else 0
  }

  lemma {:induction false} TimesBounded(calls: seq<Call>, i: nat, key: string)
    requires forall a, b :: 0 <= a < b < |calls| ==> calls[a].now <= calls[b].now
    requires i <= |calls|
    ensures Nondecreasing(TimesOf(calls, i, key))
    ensures forall k :: 0 <= k < |TimesOf(calls, i, key)| ==> i > 0 && TimesOf(calls, i, key)[k] <= calls[i - 1].now
  {
    if i > 0 {
      TimesBounded(calls, i - 1, key);
    }
  }

  /** The limiter's state for key is the bucket of that key's own history, and so were its answers. */
  ghost predicate FollowsHistory(buckets: map<string, Bucket>, times: seq<real>, answers: seq<bool>, key: string,
                                 limits: Limits) {
    && answers == LazyDecisions(times, Capacity(limits, key), Rate(limits, key))
    && (key in buckets <==> times != [])
    && (times != [] ==> buckets[key] == BucketAfter(times, Capacity(limits, key), Rate(limits, key)))
  }

  lemma OwnCallFollows(before: map<string, Bucket>, after: map<string, Bucket>, c: Call, times: seq<real>,
                       answers: seq<bool>,
                       key: string, limits: Limits)
    requires LimiterStep(before, after, c, limits) && Key(c.identity) == key
    requires FollowsHistory(before, times, answers, key, limits)
    ensures FollowsHistory(after, times + [c.now], answers + [c.ok], key, limits)
  {
    var more := times + [c.now];
    assert more[..|more| - 1] == times;
    assert Found(before, key, c.now, limits) == BucketBefore(more, Capacity(limits, key), Rate(limits, key));
  }

  /** An identity that is never evicted is held to exactly its own history, whatever the others do. */
  lemma {:induction false} UnevictedIsLazy(states: seq<map<string, Bucket>>, calls: seq<Call>, limits: Limits, i: nat,
                                           key: string)
    requires IsRun(states, calls, limits) && states[0] == map[] && i <= |calls| && Evictions(calls, i, key) == 0
    ensures FollowsHistory(states[i], TimesOf(calls, i, key), AnswersTo(calls, i, key), key, limits)
  {
    if i > 0 {
      var c := calls[i - 1];
      assert LimiterStep(states[i - 1], states[i], c, limits);
      UnevictedIsLazy(states, calls, limits, i - 1, key);
      if Key(c.identity) == key {
        OwnCallFollows(states[i - 1], states[i], c, TimesOf(calls, i - 1, key), AnswersTo(calls, i - 1, key), key,
                       limits);
      } else {
        OthersLeaveBucket(states[i - 1], states[i], c, key, limits);
        assert TimesOf(calls, i, key) == TimesOf(calls, i - 1, key) &&
          AnswersTo(calls, i, key) == AnswersTo(calls, i - 1, key);
      }
    }
  }

  lemma OthersLeaveBucket(before: map<string, Bucket>, after: map<string, Bucket>, c: Call, key: string, limits: Limits)
    requires LimiterStep(before, after, c, limits) && Key(c.identity) != key && c.evicted != Some(key)
    ensures key in after <==> key in before
    ensures key in before ==> after[key] == before[key]
  {
  }

  /**
   So the limiter's answers to it are those of the window rule: a request is admitted exactly when
   that keeps every window ending with it within capacity + rate * length.
   */
  lemma UnevictedMeetsWindows(states: seq<map<string, Bucket>>, calls: seq<Call>, limits: Limits, i: nat, key: string)
    requires IsRun(states, calls, limits)
    requires states[0] == map[] && i <= |calls| && Evictions(calls, i, key) == 0 && limits.Valid()
    ensures AnswersTo(calls, i, key) == WindowDecisions(TimesOf(calls, i, key), Capacity(limits, key),
                                                        Rate(limits, key))
  {
    TimesBounded(calls, i, key);
    UnevictedIsLazy(states, calls, limits, i, key);
    LazyMeetsWindows(TimesOf(calls, i, key), Capacity(limits, key), Rate(limits, key));
  }

  // ---- the allowance with evictions ----

  /** Tokens lie between none and the capacity, and no bucket is ahead of the clock. */
  ghost predicate Sound(buckets: map<string, Bucket>, limits: Limits, now: real) {
    forall k :: k in buckets ==> 0.0 <= buckets[k].tokens <= Capacity(limits, k) && buckets[k].updated <= now
  }

  /** Admissions so far plus what the bucket could still admit at once. */
  ghost function Exposure(buckets: map<string, Bucket>, admitted: nat, key: string, now: real, limits: Limits): real {
    admitted as real + if key in buckets then Available(buckets[key], now, Capacity(limits, key), Rate(limits, key))
      else 0.0
  }

  /** What one identity may be admitted from start to now after so many evictions. */
  function Allowance(evictions: nat, key: string, span: real, limits: Limits): real {
    Times(1 + evictions, Capacity(limits, key)) + Gain(Rate(limits, key), span)
  }

  function Times(n: nat, x: real): real {
    if n == 0 then 0.0 else x + Times(n - 1, x)
  }

  lemma {:induction false} TimesIsProduct(n: nat, x: real)
    ensures Times(n, x) == n as real * x
  {
    if n > 0 {
      TimesIsProduct(n - 1, x);
      assert n as real * x == x + (n - 1) as real * x;
    }
  }

  lemma RatePositive(limits: Limits, key: string)
    requires limits.Valid()
    ensures Rate(limits, key) > 0.0 && Capacity(limits, key) >= 1.0
  {
  }

  /** Refilling up to the cap, as a minimum. */
  lemma AvailableIsMinimum(b: Bucket, now: real, capacity: real, rate: real, gain: real)
    requires b.updated <= now && rate >= 0.0 && 0.0 <= b.tokens <= capacity && gain == Gain(rate, now - b.updated)
    ensures gain >= 0.0
    ensures Available(b, now, capacity, rate) == if b.tokens + gain > capacity then capacity else b.tokens + gain
  {
    hide Gain;
    GainAdds(rate, now - b.updated, 0.0);
  }

  lemma LaterAvailable(b: Bucket, now: real, later: real, capacity: real, rate: real)
    requires b.updated <= now <= later && rate >= 0.0 && 0.0 <= b.tokens <= capacity
    ensures Available(b, later, capacity, rate) <= Available(b, now, capacity, rate) + Gain(rate, later - now)
    ensures 0.0 <= Available(b, later, capacity, rate) <= capacity
  {
    hide Gain;
    AvailableIsMinimum(b, now, capacity, rate, Gain(rate, now - b.updated));
    AvailableIsMinimum(b, later, capacity, rate, Gain(rate, later - b.updated));
    GainAdds(rate, now - b.updated, later - now);
    assert now - b.updated + (later - now) == later - b.updated;
  }

  ghost predicate WithinAllowance(buckets: map<string, Bucket>, admitted: nat, evictions: nat, key: string,
                                  start: real, now: real, limits: Limits)
  {
    Exposure(buckets, admitted, key, now, limits) <=
      Allowance(evictions, key, now - start, limits) - if key in buckets then 0.0 else Capacity(limits, key)
  }

  /** Waiting adds no more to the exposure than to the allowance. */
  lemma WaitKeepsAllowance(buckets: map<string, Bucket>, admitted: nat, evictions: nat, key: string,
                           start: real, now: real, later: real, limits: Limits)
    requires WithinAllowance(buckets, admitted, evictions, key, start, now, limits)
    requires Sound(buckets, limits, now) && now <= later && limits.Valid()
    ensures WithinAllowance(buckets, admitted, evictions, key, start, later, limits)
  {
    hide Gain, Rate, Capacity;
    var rate := Rate(limits, key);
    RatePositive(limits, key);
    GainAdds(rate, now - start, later - now);
    assert now - start + (later - now) == later - start;
    if key in buckets {
      LaterAvailable(buckets[key], now, later, Capacity(limits, key), rate);
    }
  }

  lemma EvictionKeepsAllowance(before: map<string, Bucket>, after: map<string, Bucket>, c: Call, admitted: nat,
                               evictions: nat,
                               key: string, start: real, limits: Limits)
    requires LimiterStep(before, after, c, limits) && c.evicted == Some(key)
    requires Sound(before, limits, c.now) && limits.Valid()
    requires WithinAllowance(before, admitted, evictions, key, start, c.now, limits)
    ensures WithinAllowance(after, admitted, evictions + 1, key, start, c.now, limits)
  {
    hide Gain, Rate, Capacity;
    RatePositive(limits, key);
    var capacity := Capacity(limits, key);
    LaterAvailable(before[key], c.now, c.now, capacity, Rate(limits, key));
  }

  lemma OwnCallKeepsAllowance(before: map<string, Bucket>, after: map<string, Bucket>, c: Call, admitted: nat,
                              evictions: nat,
                              key: string, start: real, limits: Limits)
    requires LimiterStep(before, after, c, limits) && Key(c.identity) == key
    requires Sound(before, limits, c.now) && limits.Valid()
    requires WithinAllowance(before, admitted, evictions, key, start, c.now, limits)
    ensures WithinAllowance(after, admitted + (if c.ok then 1 else 0), evictions, key, start, c.now, limits)
  {
    hide Gain, Rate, Capacity;
    RatePositive(limits, key);
    GainAdds(Rate(limits, key), 0.0, 0.0);
    var capacity, rate := Capacity(limits, key), Rate(limits, key);
    var b := Found(before, key, c.now, limits);
    assert after[key] == Taken(b, c.now, capacity, rate);
    assert Available(after[key], c.now, capacity, rate) == after[key].tokens;
  }

  lemma CallKeepsAllowance(before: map<string, Bucket>, after: map<string, Bucket>, c: Call, admitted: nat,
                           evictions: nat,
                           key: string, start: real, limits: Limits)
    requires LimiterStep(before, after, c, limits)
    requires Sound(before, limits, c.now) && limits.Valid()
    requires WithinAllowance(before, admitted, evictions, key, start, c.now, limits)
    ensures WithinAllowance(after, admitted + (if Key(c.identity) == key && c.ok then 1 else 0),
                            evictions + (if c.evicted == Some(key) then 1 else 0), key, start, c.now, limits)
  {
    if c.evicted == Some(key) {
      EvictionKeepsAllowance(before, after, c, admitted, evictions, key, start, limits);
    } else if Key(c.identity) == key {
      OwnCallKeepsAllowance(before, after, c, admitted, evictions, key, start, limits);
    } else {
      OthersLeaveBucket(before, after, c, key, limits);
    }
  }

  lemma CallKeepsSound(before: map<string, Bucket>, after: map<string, Bucket>, c: Call, limits: Limits)
    requires LimiterStep(before, after, c, limits) && Sound(before, limits, c.now) && limits.Valid()
    ensures Sound(after, limits, c.now)
  {
    var key := Key(c.identity);
    LaterAvailable(Found(before, key, c.now, limits), c.now, c.now, Capacity(limits, key), Rate(limits, key));
  }

  lemma {:induction false} RunsKeepAllowance(states: seq<map<string, Bucket>>, calls: seq<Call>, limits: Limits,
                                             i: nat, key: string, start: real, now: real)
    requires IsRun(states, calls, limits) && Sound(states[0], limits, start) && limits.Valid() && i <= |calls|
    requires start <= now && (i > 0 ==> start <= calls[0].now && calls[i - 1].now <= now)
    ensures WithinAllowance(states[i], Admissions(calls, i, key), Evictions(calls, i, key), key, start, now, limits)
    ensures Sound(states[i], limits, now)
  {
    if i == 0 {
      StartWithinAllowance(states[0], key, start, limits);
      WaitKeepsAllowance(states[0], 0, 0, key, start, start, now, limits);
    } else {
      var c := calls[i - 1];
      assert LimiterStep(states[i - 1], states[i], c, limits);
      RunsKeepAllowance(states, calls, limits, i - 1, key, start, c.now);
      CallKeepsAllowance(states[i - 1], states[i], c, Admissions(calls, i - 1, key), Evictions(calls, i - 1, key),
                         key, start, limits);
      CallKeepsSound(states[i - 1], states[i], c, limits);
      WaitKeepsAllowance(states[i], Admissions(calls, i, key), Evictions(calls, i, key), key, start, c.now, now,
                         limits);
    }
  }

  /**
   From any state, over any run with nondecreasing times, an identity is admitted at most
   (1 + times it was evicted) * capacity + rate * (time since the start of the run).
   */
  lemma AdmissionsWithinAllowance(states: seq<map<string, Bucket>>, calls: seq<Call>, limits: Limits,
                                  i: nat, key: string, start: real, now: real)
    requires IsRun(states, calls, limits) && Sound(states[0], limits, start) && limits.Valid() && i <= |calls|
    requires start <= now && (i > 0 ==> start <= calls[0].now && calls[i - 1].now <= now)
    ensures Admissions(calls, i, key) as real <= Allowance(Evictions(calls, i, key), key, now - start, limits)
  {
    RunsKeepAllowance(states, calls, limits, i, key, start, now);
    ExposureCoversAdmissions(states[i], Admissions(calls, i, key), key, now, limits);
    RatePositive(limits, key);
  }

  lemma StartWithinAllowance(buckets: map<string, Bucket>, key: string, start: real, limits: Limits)
    requires Sound(buckets, limits, start) && limits.Valid()
    ensures WithinAllowance(buckets, 0, 0, key, start, start, limits)
  {
    hide Gain, Rate, Capacity;
    RatePositive(limits, key);
    GainAdds(Rate(limits, key), 0.0, 0.0);
    assert start - start == 0.0;
    assert Times(1, Capacity(limits, key)) == Capacity(limits, key) + Times(0, Capacity(limits, key));
    if key in buckets {
      LaterAvailable(buckets[key], start, start, Capacity(limits, key), Rate(limits, key));
    }
  }

  lemma ExposureCoversAdmissions(buckets: map<string, Bucket>, admitted: nat, key: string, now: real, limits: Limits)
    requires Sound(buckets, limits, now) && limits.Valid()
    ensures admitted as real <= Exposure(buckets, admitted, key, now, limits)
  {
    if key in buckets {
      LaterAvailable(buckets[key], now, now, Capacity(limits, key), Rate(limits, key));
    }
  }
}
