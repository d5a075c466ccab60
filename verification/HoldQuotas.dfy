/** The quotas of a hold store in figures: what each configured limit bounds, and when exactly a request is stored. */
module HoldQuotas {
  import opened Timelines
  import opened Wrappers
  import opened ByteStrings
  import opened Resource
  import opened Tokens
  import opened HoldTables
  import Sums

  /** The held rows that a user submitted, that are for a mailbox, and all of them. */
  function SubmittedBy(held: map<string, HeldRow>, user: Bytes): set<string> {
    set id | id in held && held[id].submitter == Some(user)
  }

  function KeptFor(held: map<string, HeldRow>, mailbox: string): set<string> {
    set id | id in held && held[id].mailbox == mailbox
  }

  function RecordedFor(replay: map<string, ReplayRow>, user: Bytes): set<string> {
    set id | id in replay && replay[id].submitter == Some(user)
  }

  ghost function Weight(held: map<string, HeldRow>, ids: set<string>): nat {
    Sums.Sum(map id | id in held && id in ids :: |held[id].payload|)
  }

  /** Every quota, each against its own limit. */
  ghost predicate WithinLimits(t: Tables, limits: Limits, legacy: Legacy) {
    && (forall user: Bytes ::
          && |SubmittedBy(t.held, user)| <= limits.heldMessagesPerUser
          && Weight(t.held, SubmittedBy(t.held, user)) <= limits.heldBytesPerUser)
    && (forall mailbox: string ::
          && |KeptFor(t.held, mailbox)| <= limits.heldMessagesPerMailbox
          && Weight(t.held, KeptFor(t.held, mailbox)) <= limits.heldBytesPerMailbox)
    && |t.held| + legacy.messages <= limits.heldMessagesGlobal
    && Weight(t.held, t.held.Keys) + legacy.bytes <= limits.heldBytesGlobal
    && (forall user: Bytes :: |RecordedFor(t.replay, user)| <= limits.replayRecordsPerUser)
    && |t.replay| <= limits.replayRecordsGlobal
  }

  lemma ScopeInFigures(held: map<string, HeldRow>, s: Scope)
    ensures var ids := match s
                       case Everything => held.Keys
                       case OfUser(user) => SubmittedBy(held, user)
                       case OfMailbox(mailbox) => KeptFor(held, mailbox);
            |HeldIn(held, s)| == |ids| && HeldBytes(HeldIn(held, s)) == Weight(held, ids)
  {
    var ids := match s
      case Everything => held.Keys
      case OfUser(user) => SubmittedBy(held, user)
      case OfMailbox(mailbox) => KeptFor(held, mailbox);
    assert HeldIn(held, s).Keys == ids;
    assert |HeldIn(held, s).Keys| == |HeldIn(held, s)|;
    assert Sizes(HeldIn(held, s)) == map id | id in held && id in ids :: |held[id].payload|;
  }

  lemma RecordsInFigures(replay: map<string, ReplayRow>, s: Option<Bytes>)
    ensures |ReplayOf(replay, s)| == if s.None? then |replay| else |RecordedFor(replay, s.value)|
  {
    if s.None? {
      assert ReplayOf(replay, s) == replay;
    } else {
      assert ReplayOf(replay, s).Keys == RecordedFor(replay, s.value);
      assert |ReplayOf(replay, s).Keys| == |ReplayOf(replay, s)|;
    }
  }

  lemma QuotasMeanLimits(t: Tables, limits: Limits, legacy: Legacy)
    requires WithinQuotas(t, limits, legacy)
    ensures WithinLimits(t, limits, legacy)
  {
    hide HeldIn, HeldBytes, ReplayOf, Weight, SubmittedBy, KeptFor, RecordedFor;
    forall user: Bytes
      ensures |SubmittedBy(t.held, user)| <= limits.heldMessagesPerUser
      ensures Weight(t.held, SubmittedBy(t.held, user)) <= limits.heldBytesPerUser
      ensures |RecordedFor(t.replay, user)| <= limits.replayRecordsPerUser
    {
      assert ScopeWithin(t.held, limits, legacy, OfUser(user)) && ReplayWithin(t.replay, limits, Some(user));
      ScopeInFigures(t.held, OfUser(user));
      RecordsInFigures(t.replay, Some(user));
    }
    forall mailbox: string
      ensures |KeptFor(t.held, mailbox)| <= limits.heldMessagesPerMailbox
      ensures Weight(t.held, KeptFor(t.held, mailbox)) <= limits.heldBytesPerMailbox
    {
      assert ScopeWithin(t.held, limits, legacy, OfMailbox(mailbox));
      ScopeInFigures(t.held, OfMailbox(mailbox));
    }
    assert ScopeWithin(t.held, limits, legacy, Everything) && ReplayWithin(t.replay, limits, None);
    ScopeInFigures(t.held, Everything);
    RecordsInFigures(t.replay, None);
    assert |t.held.Keys| == |t.held|;
  }

  lemma LimitsMeanQuotas(t: Tables, limits: Limits, legacy: Legacy)
    requires WithinLimits(t, limits, legacy)
    ensures WithinQuotas(t, limits, legacy)
  {
    hide HeldIn, HeldBytes, ReplayOf, Weight, SubmittedBy, KeptFor, RecordedFor;
    forall s: Scope ensures ScopeWithin(t.held, limits, legacy, s) {
      ScopeInFigures(t.held, s);
      assert |t.held.Keys| == |t.held|;
    }
    forall s: Option<Bytes> ensures ReplayWithin(t.replay, limits, s) {
      RecordsInFigures(t.replay, s);
    }
  }

  /** The quotas that every transaction keeps are these figures, no more and no less. */
  lemma QuotasAreLimits(t: Tables, limits: Limits, legacy: Legacy)
    ensures WithinQuotas(t, limits, legacy) <==> WithinLimits(t, limits, legacy)
  {
    hide WithinQuotas, WithinLimits;
    if WithinQuotas(t, limits, legacy) {
      QuotasMeanLimits(t, limits, legacy);
    }
    if WithinLimits(t, limits, legacy) {
      LimitsMeanQuotas(t, limits, legacy);
    }
  }

  /**
   At every point of every run from a store within its limits: per user, per mailbox and in all, messages
   and bytes, legacy rows included, and both kinds of replay counts are within what is configured.
   */
  lemma RunsStayWithinLimits(t: Tables, limits: Limits, legacy: Legacy, start: int, es: seq<Event>, i: nat)
    requires WithinLimits(t, limits, legacy) && Covered(t, start) && PayloadsBounded(t.held)
    requires Timely(start, es) && i <= |es|
    ensures WithinLimits(StateAt(t, limits, legacy, es, i), limits, legacy)
  {
    hide WithinQuotas, WithinLimits, StateAt;
    QuotasAreLimits(t, limits, legacy);
    RunsKeepQuotas(t, limits, legacy, start, es, i);
    QuotasAreLimits(StateAt(t, limits, legacy, es, i), limits, legacy);
  }

  /** At every point of every run, each row that is due still has the record of its own content. */
  lemma RunsKeepRecords(t: Tables, limits: Limits, legacy: Legacy, start: int, es: seq<Event>, i: nat, id: string)
    requires Good(t, limits, legacy, start) && Timely(start, es) && i <= |es|
    requires var s := StateAt(t, limits, legacy, es, i);
             id in s.held && s.held[id].expiresAt > ClockAt(start, es, i)
    ensures var s := StateAt(t, limits, legacy, es, i);
            && id in s.replay && s.replay[id].mailbox == s.held[id].mailbox
            && s.replay[id].payload == s.held[id].payload && s.replay[id].expiresAt == s.held[id].expiresAt
  {
    hide StateAt;
    RunsKeepQuotas(t, limits, legacy, start, es, i);
    assert HasRecord(StateAt(t, limits, legacy, es, i), id);
  }

  // ---- when a request is stored ----

  /** part is what has not expired of whole. */
  ghost predicate IsLivePart<R>(part: map<string, R>, whole: map<string, R>, expiry: R -> int, now: int) {
    && (forall id :: id in part <==> id in whole && expiry(whole[id]) > now)
    && (forall id :: id in part ==> part[id] == whole[id])
  }

  /** The tokens, payload, expiry and user a store accepts: 2 MiB at most, held for 30 days at most. */
  predicate Acceptable(r: Request, now: int) {
    && IsToken(r.id) && IsToken(r.mailbox) && |r.user| > 0
    && 1 <= |r.payload| <= 2097152
    && now < r.expiresAt <= now + 2592000
  }

  /** One more row of that size leaves the user, the mailbox and the store within their limits. */
  ghost predicate Fits(held: map<string, HeldRow>, replay: map<string, ReplayRow>, limits: Limits, legacy: Legacy,
                       r: Request)
  {
    && |SubmittedBy(held, r.user)| + 1 <= limits.heldMessagesPerUser
    && Weight(held, SubmittedBy(held, r.user)) + |r.payload| <= limits.heldBytesPerUser
    && |KeptFor(held, r.mailbox)| + 1 <= limits.heldMessagesPerMailbox
    && Weight(held, KeptFor(held, r.mailbox)) + |r.payload| <= limits.heldBytesPerMailbox
    && |held| + legacy.messages + 1 <= limits.heldMessagesGlobal
    && Weight(held, held.Keys) + legacy.bytes + |r.payload| <= limits.heldBytesGlobal
    && |RecordedFor(replay, r.user)| + 1 <= limits.replayRecordsPerUser
    && |replay| + 1 <= limits.replayRecordsGlobal
  }

  /**
   A request is stored if and only if it is acceptable, no live record has its ID, and, by the rows and
   records that have not expired, one more fits every limit.
   */
  lemma StoredExactly(t: Tables, limits: Limits, legacy: Legacy, r: Request, now: int, held: map<string, HeldRow>,
                      replay: map<string, ReplayRow>)
    requires IsLivePart(held, t.held, (row: HeldRow) => row.expiresAt, now)
    requires IsLivePart(replay, t.replay, (row: ReplayRow) => row.expiresAt, now)
    ensures Decide(t, limits, legacy, r, now) == Stored <==>
            Acceptable(r, now) && r.id !in replay && Fits(held, replay, limits, legacy, r)
  {
    hide HeldIn, HeldBytes, ReplayOf, Weight, SubmittedBy, KeptFor, RecordedFor, IsToken;
    LiveParts(t, now, held, replay);
    ScopeInFigures(held, OfUser(r.user));
    ScopeInFigures(held, OfMailbox(r.mailbox));
    ScopeInFigures(held, Everything);
    assert |held.Keys| == |held|;
    RecordsInFigures(replay, Some(r.user));
    RecordsInFigures(replay, None);
  }

  lemma LiveParts(t: Tables, now: int, held: map<string, HeldRow>, replay: map<string, ReplayRow>)
    requires IsLivePart(held, t.held, (row: HeldRow) => row.expiresAt, now)
    requires IsLivePart(replay, t.replay, (row: ReplayRow) => row.expiresAt, now)
    ensures Expired(t, now) == Tables(held, replay)
  {
    assert Expired(t, now).held == held;
    assert Expired(t, now).replay == replay;
  }

  /**
   A live record of the ID answers an acceptable request: already stored for the same mailbox and payload,
   conflict otherwise. Those answers are given in no other case.
   */
  lemma ReplayAnswersExactly(t: Tables, limits: Limits, legacy: Legacy, r: Request, now: int)
    ensures var known := r.id in t.replay && t.replay[r.id].expiresAt > now;
            var same := known && t.replay[r.id].mailbox == r.mailbox && t.replay[r.id].payload == r.payload;
            && (Decide(t, limits, legacy, r, now) == AlreadyStored <==> Acceptable(r, now) && same)
            && (Decide(t, limits, legacy, r, now) == Refused(ReplayConflict) <==> Acceptable(r, now) && known && !same)
  {
    hide IsToken, HasRoom, ReplayOf;
  }

  /** What a stored request leaves: its row and its record, and of everything else what has not expired. */
  lemma StoredLeaves(t: Tables, limits: Limits, legacy: Legacy, r: Request, now: int)
    requires Decide(t, limits, legacy, r, now) == Stored
    ensures var u := Admitted(t, limits, legacy, r, now);
            && r.id in u.held && u.held[r.id] == HeldRow(r.mailbox, r.payload, r.expiresAt, now, Some(r.user))
            && r.id in u.replay && u.replay[r.id] == ReplayRow(r.mailbox, r.payload, Some(r.user), r.expiresAt)
            && (forall id :: id != r.id ==>
                  && (id in u.held <==> id in t.held && t.held[id].expiresAt > now)
                  && (id in u.replay <==> id in t.replay && t.replay[id].expiresAt > now))
            && (forall id :: id in u.held && id != r.id ==> u.held[id] == t.held[id])
            && (forall id :: id in u.replay && id != r.id ==> u.replay[id] == t.replay[id])
  {
    hide Decide;
  }
}
