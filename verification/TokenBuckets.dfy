/**
 The token bucket of one identity. The limiter refills a bucket only when a request arrives; the
 reference definition here has no bucket at all, only the history of requests. Time and tokens
 are real numbers: the rounding of floating-point numbers is not modelled.
 */
module TokenBuckets {

  datatype Bucket = Bucket(tokens: real, updated: real, lastSeen: real)

  /** What a refill rate yields over a span of time. */
  function Gain(rate: real, span: real): real {
    rate * span
  }

  lemma GainAdds(rate: real, a: real, b: real)
    ensures Gain(rate, a + b) == Gain(rate, a) + Gain(rate, b)
    ensures Gain(rate, 0.0) == 0.0
    ensures rate >= 0.0 && a >= 0.0 ==> Gain(rate, a) >= 0.0
    ensures rate >= 0.0 && b >= 0.0 ==> Gain(rate, b) >= 0.0
  {
    assert rate * (a + b) == rate * a + rate * b;
  }

  /** Tokens at time now, refilled for the time since the last request and capped. */
  function Available(b: Bucket, now: real, capacity: real, rate: real): real {
    if now > b.updated then
      var refilled := b.tokens + Gain(rate, now - b.updated);
      if refilled > capacity then capacity else refilled
    else b.tokens
  }

  predicate Allows(b: Bucket, now: real, capacity: real, rate: real) {
    Available(b, now, capacity, rate) >= 1.0
  }

  function Taken(b: Bucket, now: real, capacity: real, rate: real): Bucket {
    var tokens := Available(b, now, capacity, rate);
    Bucket(if tokens < 1.0 then tokens else tokens - 1.0, now, now)
  }

  predicate Nondecreasing(times: seq<real>) {
    forall i, j :: 0 <= i < j < |times| ==> times[i] <= times[j]
  }

  // ---- the bucket's answers to a history of requests ----

  /** The bucket after requests at the given times, the first of which finds it full. */
  function BucketAfter(times: seq<real>, capacity: real, rate: real): Bucket
    requires times != []
  {
    var now := times[|times| - 1];
    Taken(BucketBefore(times, capacity, rate), now, capacity, rate)
  }

  /** The bucket as the last request finds it. */
  function BucketBefore(times: seq<real>, capacity: real, rate: real): Bucket
    requires times != []
    decreases |times|, 0
  {
    if |times| == 1 then Bucket(capacity, times[0], times[0])
    else
      var earlier := times[..|times| - 1];
      Taken(BucketBefore(earlier, capacity, rate), earlier[|earlier| - 1], capacity, rate)
  }

  function TokensAtLast(times: seq<real>, capacity: real, rate: real): real
    requires times != []
  {
    Available(BucketBefore(times, capacity, rate), times[|times| - 1], capacity, rate)
  }

  function LazyDecisions(times: seq<real>, capacity: real, rate: real): (ds: seq<bool>)
    ensures |ds| == |times|
  {
    if times == [] then []
    else LazyDecisions(times[..|times| - 1], capacity, rate) + [TokensAtLast(times, capacity, rate) >= 1.0]
  }

  // ---- the reference: no window ending at a request may exceed its allowance ----

  function Count(ds: seq<bool>, j: nat): (n: nat)
    requires j <= |ds|
    decreases |ds| - j
  {
    if j == |ds| then 0 else (if ds[j] then 1 else 0) + Count(ds, j + 1)
  }

  /** What the window that opens with request j leaves for one more request at time now. */
  function WindowSlack(ds: seq<bool>, times: seq<real>, j: nat, now: real, capacity: real, rate: real): real
    requires j <= |ds| < |times|
  {
    capacity + Gain(rate, now - times[j]) - Count(ds, j) as real
  }

  /** One more admission keeps every window ending now within capacity + rate * length. */
  ghost predicate WindowsAllow(ds: seq<bool>, times: seq<real>, capacity: real, rate: real)
    requires |times| == |ds| + 1
  {
    forall j :: 0 <= j <= |ds| ==> Count(ds, j) as real + 1.0 <= capacity + Gain(rate, times[|ds|] - times[j])
  }

  ghost function WindowDecisions(times: seq<real>, capacity: real, rate: real): (ds: seq<bool>)
    ensures |ds| == |times|
  {
    if times == [] then []
    else
      var k := |times| - 1;
      var ds := WindowDecisions(times[..k], capacity, rate);
      ds + [WindowsAllow(ds, times, capacity, rate)]
  }

  lemma {:induction false} CountAppend(ds: seq<bool>, d: bool, j: nat)
    requires j <= |ds|
    ensures Count(ds + [d], j) == Count(ds, j) + (if d then 1 else 0)
    decreases |ds| - j
  {
    if j < |ds| {
      CountAppend(ds, d, j + 1);
    }
  }

  /** tokens is the minimum, over the windows that end with the last of the times, of their slack. */
  ghost predicate LeastSlack(tokens: real, ds: seq<bool>, times: seq<real>, capacity: real, rate: real)
    requires |times| == |ds| + 1
  {
    && (forall j :: 0 <= j <= |ds| ==> tokens <= WindowSlack(ds, times, j, times[|ds|], capacity, rate))
    && (exists j :: 0 <= j <= |ds| && tokens == WindowSlack(ds, times, j, times[|ds|], capacity, rate))
  }

  /** The tokens found by a request are the least slack of any window that ends with it. */
  lemma {:induction false} TokensAreLeastSlack(times: seq<real>, capacity: real, rate: real)
    requires times != [] && Nondecreasing(times) && rate >= 0.0
    ensures LeastSlack(TokensAtLast(times, capacity, rate), LazyDecisions(times[..|times| - 1], capacity, rate),
                       times, capacity, rate)
  {
    hide Gain;
    GainAdds(rate, 0.0, 0.0);
    var k := |times| - 1;
    var ds := LazyDecisions(times[..k], capacity, rate);
    assert WindowSlack(ds, times, k, times[k], capacity, rate) == capacity;
    if k > 0 {
      var earlier := times[..k];
      assert earlier[..k - 1] == times[..k - 1];
      TokensAreLeastSlack(earlier, capacity, rate);
      var before := LazyDecisions(times[..k - 1], capacity, rate);
      var had := TokensAtLast(earlier, capacity, rate);
      StepTokens(times, capacity, rate);
      LeastSlackStep(had, before, times, capacity, rate);
    }
  }

  lemma LeastSlackStep(had: real, before: seq<bool>, times: seq<real>, capacity: real, rate: real)
    requires |times| == |before| + 2
    requires LeastSlack(had, before, times[..|times| - 1], capacity, rate)
    ensures var k := |times| - 1;
            var refilled := had - (if had >= 1.0 then 1.0 else 0.0) + Gain(rate, times[k] - times[k - 1]);
            LeastSlack(if refilled > capacity then capacity else refilled, before + [had >= 1.0], times, capacity, rate)
  {
    hide Gain;
    GainAdds(rate, 0.0, 0.0);
    var k := |times| - 1;
    var ds := before + [had >= 1.0];
    var refilled := had - (if had >= 1.0 then 1.0 else 0.0) + Gain(rate, times[k] - times[k - 1]);
    assert WindowSlack(ds, times, k, times[k], capacity, rate) == capacity;
    forall j | 0 <= j < k
      ensures WindowSlack(ds, times, j, times[k], capacity, rate) - refilled ==
              WindowSlack(before, times[..k], j, times[k - 1], capacity, rate) - had
    {
      SlackStep(before, had >= 1.0, times, j, capacity, rate);
    }
    var tight :| 0 <= tight < k && had == WindowSlack(before, times[..k], tight, times[k - 1], capacity, rate);
    assert refilled == WindowSlack(ds, times, tight, times[k], capacity, rate);
  }

  lemma SlackStep(before: seq<bool>, admitted: bool, times: seq<real>, j: nat, capacity: real, rate: real)
    requires |times| == |before| + 2 && j <= |before|
    ensures var k := |times| - 1;
            WindowSlack(before + [admitted], times, j, times[k], capacity, rate) ==
            WindowSlack(before, times[..k], j, times[k - 1], capacity, rate)
              + Gain(rate, times[k] - times[k - 1]) - (if admitted then 1.0 else 0.0)
  {
    hide Gain;
    CountAppend(before, admitted, j);
    var k := |times| - 1;
    GainAdds(rate, times[k] - times[k - 1], times[k - 1] - times[j]);
    assert times[k] - times[k - 1] + (times[k - 1] - times[j]) == times[k] - times[j];
  }

  /** One request to the next: spend if admitted, refill, cap. */
  lemma StepTokens(times: seq<real>, capacity: real, rate: real)
    requires |times| > 1 && Nondecreasing(times) && rate >= 0.0
    ensures var k := |times| - 1;
            var had := TokensAtLast(times[..k], capacity, rate);
            var refilled := had - (if had >= 1.0 then 1.0 else 0.0) + Gain(rate, times[k] - times[k - 1]);
            TokensAtLast(times, capacity, rate) == if refilled > capacity then capacity else refilled
  {
    hide Gain;
    var earlier := times[..|times| - 1];
    TokensCapped(earlier, capacity, rate);
    AvailableAfterTaken(BucketBefore(earlier, capacity, rate), times[|times| - 2], times[|times| - 1], capacity, rate);
  }

  lemma AvailableAfterTaken(b: Bucket, now: real, later: real, capacity: real, rate: real)
    requires now <= later && Available(b, now, capacity, rate) <= capacity
    ensures var had := Available(b, now, capacity, rate);
            var refilled := had - (if had >= 1.0 then 1.0 else 0.0) + Gain(rate, later - now);
            Available(Taken(b, now, capacity, rate), later, capacity, rate) == if refilled > capacity then capacity
              else refilled
  {
    hide Gain;
    GainAdds(rate, later - now, 0.0);
  }

  lemma {:induction false} TokensCapped(times: seq<real>, capacity: real, rate: real)
    requires times != [] && rate >= 0.0
    ensures TokensAtLast(times, capacity, rate) <= capacity
  {
    hide Gain;
    if |times| > 1 {
      TokensCapped(times[..|times| - 1], capacity, rate);
    }
  }

  lemma LeastSlackDecides(tokens: real, ds: seq<bool>, times: seq<real>, capacity: real, rate: real)
    requires |times| == |ds| + 1 && LeastSlack(tokens, ds, times, capacity, rate)
    ensures tokens >= 1.0 <==> WindowsAllow(ds, times, capacity, rate)
  {
    hide Gain;
    var k := |ds|;
    forall j | 0 <= j <= k
      ensures tokens >= 1.0 ==> Count(ds, j) as real + 1.0 <= capacity + Gain(rate, times[k] - times[j])
    {
      assert tokens <= WindowSlack(ds, times, j, times[k], capacity, rate);
    }
    var tight :| 0 <= tight <= k && tokens == WindowSlack(ds, times, tight, times[k], capacity, rate);
  }

  /** The lazily refilled bucket admits exactly what the window rule admits, for every request history. */
  lemma {:induction false} LazyMeetsWindows(times: seq<real>, capacity: real, rate: real)
    requires Nondecreasing(times) && rate >= 0.0
    ensures LazyDecisions(times, capacity, rate) == WindowDecisions(times, capacity, rate)
  {
    hide Gain;
    if times != [] {
      var k := |times| - 1;
      LazyMeetsWindows(times[..k], capacity, rate);
      TokensAreLeastSlack(times, capacity, rate);
      LeastSlackDecides(TokensAtLast(times, capacity, rate), LazyDecisions(times[..k], capacity, rate), times, capacity,
                        rate);
    }
  }
}
