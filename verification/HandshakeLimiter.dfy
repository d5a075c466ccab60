/** The limiter that throttles sources and identities whose handshakes keep failing. */
module HandshakeLimiter {
  import opened Wrappers
  import opened Resource

  /** blockedUntil is None while the source has not been blocked in this window. */
  datatype FailureState = FailureState(failures: nat, windowStart: int, blockedUntil: Option<int>, lastSeen: int)

  predicate Blocked(s: FailureState, now: int) {
    s.blockedUntil.Some? && now < s.blockedUntil.value
  }

  predicate WindowOver(s: FailureState, now: int, limits: Limits) {
    now - s.windowStart >= limits.handshakeFailureWindowSeconds
  }

  predicate Allows(s: Option<FailureState>, now: int) {
    s.None? || !Blocked(s.value, now)
  }

  function AfterAllow(s: Option<FailureState>, now: int, limits: Limits): Option<FailureState> {
    if s.None? then None
    else if !Blocked(s.value, now) && WindowOver(s.value, now, limits) then None
    else Some(s.value.(lastSeen := now))
  }

  /** A failure counts in the current window; after it is over, a new state replaces the old one. */
  function AfterFailure(s: Option<FailureState>, now: int, limits: Limits): FailureState {
    var base := if s.None? || WindowOver(s.value, now, limits) then FailureState(0, now, None, now) else s.value;
    var failures := base.failures + 1;
    FailureState(failures, base.windowStart,
                 if failures >= limits.handshakeFailuresPerWindow then Some(now + limits.handshakeCooldownSeconds)
                 else base.blockedUntil,
                 now)
  }

  ghost predicate IsOldest(sources: map<string, FailureState>, key: string) {
    key in sources && forall k :: k in sources ==> sources[key].lastSeen <= sources[k].lastSeen
  }

  class Limiter {
    const limits: Limits
    var sources: map<string, FailureState>

    ghost predicate Valid()
      reads this
    {
      "" !in sources && |sources| <= MAX_TRACKED_IDENTITIES
    }

    constructor (limits: Limits)
      ensures Valid() && this.limits == limits && sources == map[]
    {
      this.limits, sources := limits, map[];
    }

    method Allow(source: string, now: int) returns (ok: bool)
      requires Valid()
      modifies this`sources
      ensures Valid()
      ensures ok <==> Allows(Lookup(old(sources), source), now)
      ensures Lookup(sources, source) == AfterAllow(Lookup(old(sources), source), now, limits)
      ensures forall k :: k != source ==> Lookup(sources, k) == Lookup(old(sources), k)
    {
      if source !in sources {
        return true;
      }
      var state := sources[source].(lastSeen := now);
      if Blocked(state, now) {
        sources := sources[source := state];
        return false;
      }
      if WindowOver(state, now, limits) {
        RemovalShrinks(sources, source);
        sources := sources - {source};
        return true;
      }
      sources := sources[source := state];
      return true;
    }

    method Failed(source: string, now: int) returns (ghost evicted: Option<string>)
      requires Valid() && source != ""
      modifies this`sources
      ensures Valid()
      ensures Lookup(sources, source) == Some(AfterFailure(Lookup(old(sources), source), now, limits))
      ensures forall k :: k != source && evicted != Some(k) ==> Lookup(sources, k) == Lookup(old(sources), k)
      ensures evicted.Some? <==> source !in old(sources) && |old(sources)| >= 4096
      ensures evicted.Some? ==> IsOldest(old(sources), evicted.value) && evicted.value !in sources
    {
      evicted := None;
      var exists_ := source in sources;
      var state;
      if !exists_ || WindowOver(sources[source], now, limits) {
        state := FailureState(0, now, None, now);
      } else {
        state := sources[source];
      }
      state := state.(failures := state.failures + 1, lastSeen := now);
      if state.failures >= limits.handshakeFailuresPerWindow {
        state := state.(blockedUntil := Some(now + limits.handshakeCooldownSeconds));
      }
      if |sources| >= MAX_TRACKED_IDENTITIES && !exists_ {
        var oldest := EvictOldest();
        evicted := Some(oldest);
      }
      sources := sources[source := state];
    }

    method Succeeded(source: string)
      requires Valid()
      modifies this`sources
      ensures Valid() && sources == old(sources) - {source}
    {
      RemovalShrinks(sources, source);
      sources := sources - {source};
    }

    method EvictOldest() returns (oldest: string)
      requires Valid() && sources != map[]
      modifies this`sources
      ensures IsOldest(old(sources), oldest)
      ensures sources == old(sources) - {oldest} && |sources| == |old(sources)| - 1
    {
      oldest := "";
      var oldestSeen := 0;
      var rest := sources.Keys;
      while rest != {}
        invariant rest <= sources.Keys
        invariant oldest == "" ==> rest == sources.Keys
        invariant oldest != "" ==> oldest in sources && oldest !in rest && oldestSeen == sources[oldest].lastSeen
        invariant oldest != "" ==> forall k :: k in sources && k !in rest ==> oldestSeen <= sources[k].lastSeen
        decreases |rest|
      {
        var key :| key in rest;
        if oldest == "" || sources[key].lastSeen < oldestSeen {
          oldest, oldestSeen := key, sources[key].lastSeen;
        }
        rest := rest - {key};
      }
      RemovalShrinks(sources, oldest);
      sources := sources - {oldest};
    }
  }

  lemma RemovalShrinks(m: map<string, FailureState>, k: string)
    ensures |m - {k}| == |m| - if k in m then 1 else 0
  {
    assert (m - {k}).Keys == m.Keys - {k};
    assert |m - {k}| == |(m - {k}).Keys| && |m| == |m.Keys|;
  }

  // ---- what throttling achieves, and where the cooldown gives way ----

  /**
   The cooldown promises that a blocked source stays blocked. A further failure recorded during the
   block keeps that promise exactly when it falls in the same window, or when one failure is enough
   to block: after the window the rebuilt state has forgotten the block.
   */
  lemma FailureKeepsBlock(s: FailureState, now: int, limits: Limits)
    requires Blocked(s, now) && limits.Valid()
    ensures Blocked(AfterFailure(Some(s), now, limits), now) <==>
            !WindowOver(s, now, limits) || limits.handshakeFailuresPerWindow == 1
  {
  }

  /** With the default five failures in 60 seconds: blocked until 119, unblocked by a failure at 60. */
  lemma LateFailureClearsBlock(limits: Limits)
    requires limits.handshakeFailuresPerWindow == 5
    requires limits.handshakeFailureWindowSeconds == 60 && limits.handshakeCooldownSeconds == 60
    ensures var s := FailureState(5, 0, Some(119), 59);
            && AfterFailure(Some(FailureState(4, 0, None, 58)), 59, limits) == s
            && !Allows(Some(s), 60)
            && Allows(Some(AfterFailure(Some(s), 60, limits)), 60)
  {
  }

  // ---- when exactly a source is refused ----

  /** The state after failures at these times, from a source the limiter does not know. */
  function AfterFailures(times: seq<int>, limits: Limits): Option<FailureState> {
    if times == [] then None
    else Some(AfterFailure(AfterFailures(times[..|times| - 1], limits), times[|times| - 1], limits))
  }

  lemma {:induction false} FailuresCount(times: seq<int>, limits: Limits)
    requires times != [] && forall i, j :: 0 <= i < j < |times| ==> times[i] <= times[j]
    requires times[|times| - 1] - times[0] < limits.handshakeFailureWindowSeconds
    ensures var s := AfterFailures(times, limits).value;
            && s.failures == |times| && s.windowStart == times[0]
            && s.blockedUntil == if |times| >= limits.handshakeFailuresPerWindow
                                 then Some(times[|times| - 1] + limits.handshakeCooldownSeconds) else None
  {
    if |times| > 1 {
      FailuresCount(times[..|times| - 1], limits);
    }
  }

  /**
   After any number of failures within one window, a source is refused exactly when they are at least as
   many as are configured and the cooldown since the last of them is not over.
   */
  lemma RefusedExactly(times: seq<int>, now: int, limits: Limits)
    requires limits.Valid() && times != [] && forall i, j :: 0 <= i < j < |times| ==> times[i] <= times[j]
    requires times[|times| - 1] - times[0] < limits.handshakeFailureWindowSeconds
    ensures !Allows(AfterFailures(times, limits), now) <==>
            && |times| >= limits.handshakeFailuresPerWindow
            && now < times[|times| - 1] + limits.handshakeCooldownSeconds
  {
    FailuresCount(times, limits);
  }

  // ---- overlapping handshakes ----

  /**
   What happens to one source or identity. Ask is a call of allow. Fail is a recorded failure, of a
   handshake that was granted or of any other: an identity's refused handshakes count as failures, too.
   Drop is a granted handshake turned away for lack of capacity, which records nothing. Succeed is a
   granted handshake that succeeds, and Evict makes room for another source; both forget the state.
   */
  datatype Event =
    | Ask(now: int) | Fail(now: int, granted: bool) | Drop(now: int) | Succeed(now: int) | Evict(now: int)

  /**
   The limiter's state, the granted handshakes still in flight, and so far: how many were granted, how many
   of these were dropped or succeeded, and how often the state was forgotten.
   */
  datatype Burst = Burst(state: Option<FailureState>, inFlight: nat, granted: nat, spared: nat, forgotten: nat)

  /** Granted handshakes hold a connection slot, of which there are at most cap, and only these end as such. */
  predicate Possible(b: Burst, e: Event, cap: nat) {
    match e
    case Ask(_) => b.inFlight < cap
    case Fail(_, granted) => granted ==> b.inFlight > 0
    case Drop(_) => b.inFlight > 0
    case Succeed(_) => b.inFlight > 0
    case Evict(_) => true
  }

  function After(b: Burst, e: Event, limits: Limits, cap: nat): Burst
    requires Possible(b, e, cap)
  {
    match e
    case Ask(now) =>
      var state := AfterAllow(b.state, now, limits);
      if Allows(b.state, now) then b.(state := state, inFlight := b.inFlight + 1, granted := b.granted + 1)
      else b.(state := state)
    case Fail(now, granted) =>
      b.(state := Some(AfterFailure(b.state, now, limits)), inFlight := if granted then b.inFlight - 1 else b.inFlight)
    case Drop(_) => b.(inFlight := b.inFlight - 1, spared := b.spared + 1)
    case Succeed(_) =>
      b.(state := None, inFlight := b.inFlight - 1, spared := b.spared + 1, forgotten := b.forgotten + 1)
    case Evict(_) => b.(state := None, forgotten := b.forgotten + 1)
  }

  /** bursts are the successive states of one interleaving of these events. */
  ghost predicate IsBurst(bursts: seq<Burst>, events: seq<Event>, limits: Limits, cap: nat) {
    && |bursts| == |events| + 1
    && bursts[0].inFlight <= cap && bursts[0].granted == bursts[0].spared == bursts[0].forgotten == 0
    && (forall i :: 0 <= i < |events| ==>
          Possible(bursts[i], events[i], cap) && bursts[i + 1] == After(bursts[i], events[i], limits, cap))
    && (forall i, j :: 0 <= i < j < |events| ==> events[i].now <= events[j].now)
  }

  /** All of it happens within less than the window and less than the cooldown. */
  ghost predicate Brief(events: seq<Event>, limits: Limits) {
    forall i :: 0 <= i < |events| ==>
      && events[i].now - events[0].now < limits.handshakeFailureWindowSeconds
      && events[i].now - events[0].now < limits.handshakeCooldownSeconds
  }

  /** The granted handshakes whose failure has been recorded, those in flight at the start included. */
  function Failures(b: Burst, before: nat): int {
    b.granted + before - b.inFlight - b.spared
  }

  /** How many failures of granted handshakes one window allows: those in flight when it blocks fail as well. */
  function PerWindow(limits: Limits, cap: nat): int {
    limits.handshakeFailuresPerWindow + cap - 1
  }

  /** The window of the start is still open and has not blocked during the burst. */
  predicate Counting(s: Option<FailureState>, failures: int, limits: Limits) {
    s.Some? && failures <= s.value.failures && failures <= limits.handshakeFailuresPerWindow - 1
  }

  /** The window of the start has blocked: only what was in flight then can still fail as granted. */
  predicate Closed(s: Option<FailureState>, failures: int, inFlight: nat, last: int, limits: Limits, cap: nat) {
    s.Some? && Blocked(s.value, last) && failures + inFlight <= PerWindow(limits, cap)
  }

  /** What the windows before the present one allow, when each forgetting opens one more. */
  function Earlier(forgotten: nat, limits: Limits, cap: nat): int {
    (forgotten + 1) * PerWindow(limits, cap) - 1
  }

  /** A window that opened during the burst, and so outlasts it, counts or has blocked. */
  predicate Renewed(s: Option<FailureState>, failures: int, inFlight: nat, earlier: int, first: int, last: int,
                    limits: Limits, cap: nat)
  {
    var counted := if s.None? then 0 else s.value.failures;
    && (s.Some? ==> s.value.windowStart >= first)
    && if counted < limits.handshakeFailuresPerWindow then failures <= earlier + counted
       else s.Some? && Blocked(s.value, last) && failures + inFlight <= earlier + PerWindow(limits, cap)
  }

  ghost predicate Tallied(b: Burst, before: nat, first: int, last: int, limits: Limits, cap: nat) {
    && b.inFlight <= cap
    && b.granted + before <= Earlier(b.forgotten, limits, cap) + PerWindow(limits, cap) + b.spared
    && (|| Counting(b.state, Failures(b, before), limits)
        || Closed(b.state, Failures(b, before), b.inFlight, last, limits, cap)
        || Renewed(b.state, Failures(b, before), b.inFlight, Earlier(b.forgotten, limits, cap), first, last, limits,
                   cap))
  }

  lemma EarlierGrows(forgotten: nat, limits: Limits, cap: nat)
    requires limits.Valid() && cap >= 1
    ensures Earlier(forgotten + 1, limits, cap) == Earlier(forgotten, limits, cap) + PerWindow(limits, cap)
    ensures Earlier(forgotten, limits, cap) >= PerWindow(limits, cap) - 1
  {
    var p := PerWindow(limits, cap);
    assert (forgotten + 2) * p == (forgotten + 1) * p + p && forgotten * p >= 0;
  }

  lemma EventTallied(b: Burst, e: Event, before: nat, first: int, last: int, limits: Limits, cap: nat)
    requires Tallied(b, before, first, last, limits, cap) && Possible(b, e, cap) && limits.Valid() && cap >= 1
    requires first <= e.now <= last
    requires last - first < limits.handshakeFailureWindowSeconds && last - first < limits.handshakeCooldownSeconds
    ensures Tallied(After(b, e, limits, cap), before, first, last, limits, cap)
  {
    EarlierGrows(b.forgotten, limits, cap);
    hide Earlier;
    match e {
      case Ask(now) => AskTallied(b, now, before, first, last, limits, cap);
      case Fail(now, granted) => FailTallied(b, now, granted, before, first, last, limits, cap);
      case Drop(_) =>
      case Succeed(_) =>
      case Evict(_) =>
    }
  }

  lemma AskTallied(b: Burst, now: int, before: nat, first: int, last: int, limits: Limits, cap: nat)
    requires Tallied(b, before, first, last, limits, cap) && b.inFlight < cap && limits.Valid()
    requires first <= now <= last && last - first < limits.handshakeFailureWindowSeconds
    ensures Tallied(After(b, Ask(now), limits, cap), before, first, last, limits, cap)
  {
    EarlierGrows(b.forgotten, limits, cap);
    hide Earlier;
  }

  lemma FailTallied(b: Burst, now: int, granted: bool, before: nat, first: int, last: int, limits: Limits, cap: nat)
    requires Tallied(b, before, first, last, limits, cap) && (granted ==> b.inFlight > 0) && limits.Valid() && cap >= 1
    requires first <= now <= last
    requires last - first < limits.handshakeFailureWindowSeconds && last - first < limits.handshakeCooldownSeconds
    ensures Tallied(After(b, Fail(now, granted), limits, cap), before, first, last, limits, cap)
  {
    EarlierGrows(b.forgotten, limits, cap);
    hide Earlier;
  }

  lemma {:induction false} BurstTallied(bursts: seq<Burst>, events: seq<Event>, i: nat, limits: Limits, cap: nat)
    requires IsBurst(bursts, events, limits, cap) && Brief(events, limits) && limits.Valid() && cap >= 1
    requires i <= |events| && events != []
    ensures Tallied(bursts[i], bursts[0].inFlight, events[0].now, events[|events| - 1].now, limits, cap)
  {
    hide Earlier;
    EarlierGrows(0, limits, cap);
    if i > 0 {
      BurstTallied(bursts, events, i - 1, limits, cap);
      assert events[0].now <= events[i - 1].now <= events[|events| - 1].now;
      EventTallied(bursts[i - 1], events[i - 1], bursts[0].inFlight, events[0].now, events[|events| - 1].now, limits,
                   cap);
    }
  }

  /**
   From any state and under any interleaving, a source or identity is granted at most 2N - 1 handshakes
   within less than the window and the cooldown, N being the failures a window allows, and two more for
   each handshake it can have in flight beside another. Those in flight at the start count; those that
   succeed or are dropped for lack of capacity come on top; and each time the state is forgotten, by a
   success or an eviction, as many more are granted as a window allows.
   */
  lemma AttemptsAreThrottled(bursts: seq<Burst>, events: seq<Event>, limits: Limits, cap: nat)
    requires IsBurst(bursts, events, limits, cap) && Brief(events, limits) && limits.Valid() && cap >= 1
    ensures var end := bursts[|events|];
            end.granted + bursts[0].inFlight <=
              2 * limits.handshakeFailuresPerWindow - 1 + 2 * (cap - 1) + end.spared +
              end.forgotten * PerWindow(limits, cap)
  {
    if events != [] {
      BurstTallied(bursts, events, |events|, limits, cap);
      var f := bursts[|events|].forgotten;
      assert (f + 1) * PerWindow(limits, cap) == f * PerWindow(limits, cap) + PerWindow(limits, cap);
    }
  }

  /** With one handshake at a time that always fails, and no eviction, the bound is 2N - 1. */
  lemma SequentialAttemptsAreThrottled(bursts: seq<Burst>, events: seq<Event>, limits: Limits)
    requires IsBurst(bursts, events, limits, 1) && Brief(events, limits) && limits.Valid()
    requires bursts[|events|].spared == bursts[|events|].forgotten == 0
    ensures bursts[|events|].granted <= 2 * limits.handshakeFailuresPerWindow - 1
  {
    AttemptsAreThrottled(bursts, events, limits, 1);
  }

  /**
   The bound is met: with two failures a window and two handshakes in flight at a time, five are
   granted from 30 to 61, because a failure at 60 that overlaps the block clears it.
   */
  lemma OverlapMeetsBound(limits: Limits)
    requires limits.handshakeFailuresPerWindow == 2
    requires limits.handshakeFailureWindowSeconds == 60 && limits.handshakeCooldownSeconds == 60
    ensures exists bursts: seq<Burst> ::
              && IsBurst(bursts, Overlap(), limits, 2) && Brief(Overlap(), limits)
              && bursts[|Overlap()|].granted == 5
              && bursts[|Overlap()|].spared == bursts[|Overlap()|].forgotten == bursts[0].inFlight == 0
  {
    var open := FailureState(0, 0, None, 0);
    var bursts := [
      Burst(Some(open), 0, 0, 0, 0),
      Burst(Some(open.(lastSeen := 30)), 1, 1, 0, 0),
      Burst(Some(FailureState(1, 0, None, 30)), 0, 1, 0, 0),
      Burst(Some(FailureState(1, 0, None, 31)), 1, 2, 0, 0),
      Burst(Some(FailureState(1, 0, None, 31)), 2, 3, 0, 0),
      Burst(Some(FailureState(2, 0, Some(92), 32)), 1, 3, 0, 0),
      Burst(Some(FailureState(1, 60, None, 60)), 0, 3, 0, 0),
      Burst(Some(FailureState(1, 60, None, 61)), 1, 4, 0, 0),
      Burst(Some(FailureState(1, 60, None, 61)), 2, 5, 0, 0)];
    forall i | 0 <= i < 8 ensures Possible(bursts[i], Overlap()[i], 2)
      ensures bursts[i + 1] == After(bursts[i], Overlap()[i], limits, 2)
    {
      assert i == 0 || i == 1 || i == 2 || i == 3 || i == 4 || i == 5 || i == 6 || i == 7;
    }
    assert IsBurst(bursts, Overlap(), limits, 2);
  }

  function Overlap(): seq<Event> {
    [Ask(30), Fail(30, true), Ask(31), Ask(31), Fail(32, true), Fail(60, true), Ask(61), Ask(61)]
  }
}
