/**
 The tables of a Daddy's hold store and the transactions that change them, as values.
 A SHA-256 digest is represented by the value that was hashed: digests are assumed not
 to collide, so comparing two of them is comparing what they were taken of.
 */
module HoldTables {
  import opened Timelines
  import opened Wrappers
  import opened ByteStrings
  import opened Resource
  import opened Tokens
  import Sums

  const MAX_OPAQUE_ENVELOPE_SIZE := 2 * 1024 * 1024
  const MAX_OPAQUE_DELIVERY_BYTES := 3 * 1024 * 1024
  const MAX_ENVELOPE_RETENTION := 30 * 24 * 60 * 60
  /** The expiry relays give to what they hold. */
  const HELD_MESSAGE_TTL := 30 * 24 * 60 * 60

  /** The authenticated key of the user who submitted a row; None on rows older than that column. */
  type Submitter = Option<Bytes>

  datatype HeldRow = HeldRow(mailbox: string, payload: Bytes, expiresAt: int, storedAt: int, submitter: Submitter)

  datatype ReplayRow = ReplayRow(mailbox: string, payload: Bytes, submitter: Submitter, expiresAt: int)

  datatype Tables = Tables(held: map<string, HeldRow>, replay: map<string, ReplayRow>)

  /** One submission, with the time at which the store handles it. */
  datatype Request = Request(id: string, mailbox: string, payload: Bytes, expiresAt: int, user: Bytes)

  /** What a relay asks of its store for an envelope handed over to hold. */
  function ForHolding(id: string, mailbox: string, payload: Bytes, now: int, user: Bytes): Request {
    Request(id, mailbox, payload, now + HELD_MESSAGE_TTL, user)
  }

  datatype Refusal =
    | InvalidToken | InvalidEnvelope | MissingUser | ReplayConflict
    | UserQuota | MailboxQuota | GlobalQuota | UserReplayQuota | GlobalReplayQuota

  datatype Verdict = Stored | AlreadyStored | Refused(why: Refusal)

  /** The legacy rows that startup counted; they use up part of the global quota. */
  datatype Legacy = Legacy(messages: nat, bytes: nat)

  // ---- the row sets the quota queries range over ----

  datatype Scope = Everything | OfUser(user: Bytes) | OfMailbox(mailbox: string)

  predicate InScope(row: HeldRow, s: Scope) {
    match s
    case Everything => true
    case OfUser(u) => row.submitter == Some(u)
    case OfMailbox(m) => row.mailbox == m
  }

  function HeldIn(held: map<string, HeldRow>, s: Scope): map<string, HeldRow> {
    map id | id in held && InScope(held[id], s) :: held[id]
  }

  function Sizes(rows: map<string, HeldRow>): map<string, nat> {
    map id | id in rows :: |rows[id].payload|
  }

  ghost function HeldBytes(rows: map<string, HeldRow>): nat {
    Sums.Sum(Sizes(rows))
  }

  /** The replay records of one user, or all of them. */
  function ReplayOf(replay: map<string, ReplayRow>, s: Option<Bytes>): map<string, ReplayRow> {
    map id | id in replay && (s.None? || replay[id].submitter == Some(s.value)) :: replay[id]
  }

  function CountLimit(limits: Limits, legacy: Legacy, s: Scope): int {
    match s
    case Everything => limits.heldMessagesGlobal - legacy.messages
    case OfUser(_) => limits.heldMessagesPerUser
    case OfMailbox(_) => limits.heldMessagesPerMailbox
  }

  function ByteLimit(limits: Limits, legacy: Legacy, s: Scope): int {
    match s
    case Everything => limits.heldBytesGlobal - legacy.bytes
    case OfUser(_) => limits.heldBytesPerUser
    case OfMailbox(_) => limits.heldBytesPerMailbox
  }

  // ---- the transactions ----

  function DropExpiredHeld(held: map<string, HeldRow>, now: int): map<string, HeldRow> {
    map id | id in held && held[id].expiresAt > now :: held[id]
  }

  function DropExpiredReplay(replay: map<string, ReplayRow>, now: int): map<string, ReplayRow> {
    map id | id in replay && replay[id].expiresAt > now :: replay[id]
  }

  function Expired(t: Tables, now: int): Tables {
    Tables(DropExpiredHeld(t.held, now), DropExpiredReplay(t.replay, now))
  }

  predicate WellFormed(r: Request, now: int) {
    && IsToken(r.id) && IsToken(r.mailbox)
    && 0 < |r.payload| <= MAX_OPAQUE_ENVELOPE_SIZE
    && now < r.expiresAt <= now + MAX_ENVELOPE_RETENTION
    && |r.user| > 0
  }

  ghost predicate HasRoom(held: map<string, HeldRow>, size: nat, limits: Limits, legacy: Legacy, s: Scope) {
    && |HeldIn(held, s)| < CountLimit(limits, legacy, s)
    && HeldBytes(HeldIn(held, s)) + size <= ByteLimit(limits, legacy, s)
  }

  /** What StoreOpaqueHeldMessageForUser answers on tables t. */
  ghost function Decide(t: Tables, limits: Limits, legacy: Legacy, r: Request, now: int): Verdict {
    if !IsToken(r.id) || !IsToken(r.mailbox) then Refused(InvalidToken)
    else if !(0 < |r.payload| <= MAX_OPAQUE_ENVELOPE_SIZE && now < r.expiresAt <= now + MAX_ENVELOPE_RETENTION) then
      Refused(InvalidEnvelope)
    else if |r.user| == 0 then Refused(MissingUser)
    else
      var live := Expired(t, now);
      if r.id in live.replay then
        if live.replay[r.id].mailbox == r.mailbox && live.replay[r.id].payload == r.payload then AlreadyStored
        else Refused(ReplayConflict)
      else if !HasRoom(live.held, |r.payload|, limits, legacy, OfUser(r.user)) then Refused(UserQuota)
      else if !HasRoom(live.held, |r.payload|, limits, legacy, OfMailbox(r.mailbox)) then Refused(MailboxQuota)
      else if !HasRoom(live.held, |r.payload|, limits, legacy, Everything) then Refused(GlobalQuota)
      else if |ReplayOf(live.replay, Some(r.user))| >= limits.replayRecordsPerUser then Refused(UserReplayQuota)
      else if |ReplayOf(live.replay, None)| >= limits.replayRecordsGlobal then Refused(GlobalReplayQuota)
      else Stored
  }

  function Inserted(t: Tables, r: Request, now: int): Tables {
    var live := Expired(t, now);
    Tables(live.held[r.id := HeldRow(r.mailbox, r.payload, r.expiresAt, now, Some(r.user))],
           live.replay[r.id := ReplayRow(r.mailbox, r.payload, Some(r.user), r.expiresAt)])
  }

  /** The tables after the admission transaction: only a stored envelope commits anything. */
  ghost function Admitted(t: Tables, limits: Limits, legacy: Legacy, r: Request, now: int): Tables {
    if Decide(t, limits, legacy, r, now) == Stored then Inserted(t, r, now) else t
  }

  function Deleted(t: Tables, id: string, mailbox: string): Tables {
    if id in t.held && t.held[id].mailbox == mailbox then t.(held := t.held - {id}) else t
  }

  // ---- invariants ----

  /** Every live held row has the replay record of its own content. */
  ghost predicate Covered(t: Tables, now: int) {
    forall id :: id in t.held && t.held[id].expiresAt > now ==> HasRecord(t, id)
  }

  predicate HasRecord(t: Tables, id: string)
    requires id in t.held
  {
    && id in t.replay
    && t.replay[id].mailbox == t.held[id].mailbox
    && t.replay[id].payload == t.held[id].payload
    && t.replay[id].expiresAt == t.held[id].expiresAt
  }

  ghost predicate ScopeWithin(held: map<string, HeldRow>, limits: Limits, legacy: Legacy, s: Scope) {
    && |HeldIn(held, s)| <= CountLimit(limits, legacy, s)
    && HeldBytes(HeldIn(held, s)) <= ByteLimit(limits, legacy, s)
  }

  predicate ReplayWithin(replay: map<string, ReplayRow>, limits: Limits, s: Option<Bytes>) {
    |ReplayOf(replay, s)| <= if s.None? then limits.replayRecordsGlobal else limits.replayRecordsPerUser
  }

  /** All the quotas at once: every user, every mailbox and the whole store. */
  ghost predicate WithinQuotas(t: Tables, limits: Limits, legacy: Legacy) {
    && (forall s: Scope :: ScopeWithin(t.held, limits, legacy, s))
    && (forall s: Option<Bytes> :: ReplayWithin(t.replay, limits, s))
  }

  /** Held payloads have the sizes the admission check lets in. */
  ghost predicate PayloadsBounded(held: map<string, HeldRow>) {
    forall id :: id in held ==> 0 < |held[id].payload| <= MAX_OPAQUE_ENVELOPE_SIZE
  }

  ghost predicate Good(t: Tables, limits: Limits, legacy: Legacy, now: int) {
    Covered(t, now) && WithinQuotas(t, limits, legacy) && PayloadsBounded(t.held)
  }

  // ---- how the sums move ----

  lemma HeldBytesInsert(rows: map<string, HeldRow>, id: string, row: HeldRow)
    requires id !in rows
    ensures HeldBytes(rows[id := row]) == HeldBytes(rows) + |row.payload|
  {
    Sums.SumInsert(Sizes(rows), id, |row.payload|);
    assert Sizes(rows[id := row]) == Sizes(rows)[id := |row.payload|];
  }

  /** Removing rows lowers, or keeps, the count and bytes of every scope. */
  lemma ScopeShrinks(part: map<string, HeldRow>, whole: map<string, HeldRow>, s: Scope)
    requires part.Keys <= whole.Keys && forall id :: id in part ==> part[id] == whole[id]
    ensures |HeldIn(part, s)| <= |HeldIn(whole, s)|
    ensures HeldBytes(HeldIn(part, s)) <= HeldBytes(HeldIn(whole, s))
  {
    Sums.CardinalityMonotone(HeldIn(part, s), HeldIn(whole, s));
    Sums.SumMonotone(Sizes(HeldIn(part, s)), Sizes(HeldIn(whole, s)));
  }

  lemma QuotasShrink(t: Tables, u: Tables, limits: Limits, legacy: Legacy)
    requires WithinQuotas(t, limits, legacy)
    requires u.held.Keys <= t.held.Keys && forall id :: id in u.held ==> u.held[id] == t.held[id]
    requires u.replay.Keys <= t.replay.Keys && forall id :: id in u.replay ==> u.replay[id] == t.replay[id]
    ensures WithinQuotas(u, limits, legacy)
  {
    forall s: Scope ensures ScopeWithin(u.held, limits, legacy, s) {
      assert ScopeWithin(t.held, limits, legacy, s);
      ScopeShrinks(u.held, t.held, s);
    }
    forall s: Option<Bytes> ensures ReplayWithin(u.replay, limits, s) {
      assert ReplayWithin(t.replay, limits, s);
      Sums.CardinalityMonotone(ReplayOf(u.replay, s), ReplayOf(t.replay, s));
    }
  }

  /** What one insertion does to one scope. */
  lemma ScopeInsert(held: map<string, HeldRow>, id: string, row: HeldRow, s: Scope)
    requires id !in held
    ensures |HeldIn(held[id := row], s)| == |HeldIn(held, s)| + (if InScope(row, s) then 1 else 0)
    ensures HeldBytes(HeldIn(held[id := row], s)) ==
            HeldBytes(HeldIn(held, s)) + (if InScope(row, s) then |row.payload| else 0)
  {
    if InScope(row, s) {
      assert HeldIn(held[id := row], s) == HeldIn(held, s)[id := row];
      HeldBytesInsert(HeldIn(held, s), id, row);
    } else {
      assert HeldIn(held[id := row], s) == HeldIn(held, s);
    }
  }

  lemma ReplayInsert(replay: map<string, ReplayRow>, id: string, row: ReplayRow, s: Option<Bytes>)
    requires id !in replay
    ensures |ReplayOf(replay[id := row], s)| ==
            |ReplayOf(replay, s)| + (if s.None? || row.submitter == Some(s.value) then 1 else 0)
  {
    if s.None? || row.submitter == Some(s.value) {
      assert ReplayOf(replay[id := row], s) == ReplayOf(replay, s)[id := row];
    } else {
      assert ReplayOf(replay[id := row], s) == ReplayOf(replay, s);
    }
  }

  // ---- every transaction keeps the invariants ----

  /** The envelope ID of a stored request is free in both tables, so neither insert meets its primary key. */
  lemma InsertFindsKeysFree(t: Tables, limits: Limits, legacy: Legacy, r: Request, now: int)
    requires Covered(t, now)
    requires Decide(t, limits, legacy, r, now) == Stored
    ensures r.id !in Expired(t, now).held && r.id !in Expired(t, now).replay
  {
    assert r.id !in Expired(t, now).replay;
    assert r.id in t.held && t.held[r.id].expiresAt > now ==> HasRecord(t, r.id);
  }

  /** A stored request found room in every scope its row belongs to. */
  lemma StoredHadRoom(t: Tables, limits: Limits, legacy: Legacy, r: Request, now: int, s: Scope)
    requires Decide(t, limits, legacy, r, now) == Stored
    requires s == Everything || s == OfUser(r.user) || s == OfMailbox(r.mailbox)
    ensures HasRoom(Expired(t, now).held, |r.payload|, limits, legacy, s)
  {
  }

  lemma StoredHadReplayRoom(t: Tables, limits: Limits, legacy: Legacy, r: Request, now: int)
    requires Decide(t, limits, legacy, r, now) == Stored
    ensures |ReplayOf(Expired(t, now).replay, Some(r.user))| < limits.replayRecordsPerUser
    ensures |ReplayOf(Expired(t, now).replay, None)| < limits.replayRecordsGlobal
  {
  }

  lemma InsertKeepsScope(held: map<string, HeldRow>, id: string, row: HeldRow, limits: Limits, legacy: Legacy, s: Scope)
    requires id !in held && ScopeWithin(held, limits, legacy, s)
    requires InScope(row, s) ==> HasRoom(held, |row.payload|, limits, legacy, s)
    ensures ScopeWithin(held[id := row], limits, legacy, s)
  {
    ScopeInsert(held, id, row, s);
  }

  lemma AdmissionKeepsScope(t: Tables, limits: Limits, legacy: Legacy, r: Request, now: int, s: Scope)
    requires ScopeWithin(Expired(t, now).held, limits, legacy, s) && Covered(t, now)
    requires Decide(t, limits, legacy, r, now) == Stored
    ensures ScopeWithin(Inserted(t, r, now).held, limits, legacy, s)
  {
    InsertFindsKeysFree(t, limits, legacy, r, now);
    var row := HeldRow(r.mailbox, r.payload, r.expiresAt, now, Some(r.user));
    if InScope(row, s) {
      StoredHadRoom(t, limits, legacy, r, now, s);
    }
    InsertKeepsScope(Expired(t, now).held, r.id, row, limits, legacy, s);
  }

  lemma AdmissionKeepsReplay(t: Tables, limits: Limits, legacy: Legacy, r: Request, now: int, s: Option<Bytes>)
    requires ReplayWithin(Expired(t, now).replay, limits, s) && Covered(t, now)
    requires Decide(t, limits, legacy, r, now) == Stored
    ensures ReplayWithin(Inserted(t, r, now).replay, limits, s)
  {
    InsertFindsKeysFree(t, limits, legacy, r, now);
    StoredHadReplayRoom(t, limits, legacy, r, now);
    ReplayInsert(Expired(t, now).replay, r.id, ReplayRow(r.mailbox, r.payload, Some(r.user), r.expiresAt), s);
  }

  lemma AdmissionKeepsQuotas(t: Tables, limits: Limits, legacy: Legacy, r: Request, now: int)
    requires WithinQuotas(t, limits, legacy) && Covered(t, now)
    ensures WithinQuotas(Admitted(t, limits, legacy, r, now), limits, legacy)
  {
    QuotasShrink(t, Expired(t, now), limits, legacy);
    if Decide(t, limits, legacy, r, now) == Stored {
      var u := Inserted(t, r, now);
      forall s: Scope ensures ScopeWithin(u.held, limits, legacy, s) {
        AdmissionKeepsScope(t, limits, legacy, r, now, s);
      }
      forall s: Option<Bytes> ensures ReplayWithin(u.replay, limits, s) {
        AdmissionKeepsReplay(t, limits, legacy, r, now, s);
      }
    }
  }

  lemma AdmissionKeepsGood(t: Tables, limits: Limits, legacy: Legacy, r: Request, now: int)
    requires Good(t, limits, legacy, now)
    ensures Good(Admitted(t, limits, legacy, r, now), limits, legacy, now)
  {
    AdmissionKeepsQuotas(t, limits, legacy, r, now);
    var u := Admitted(t, limits, legacy, r, now);
    if Decide(t, limits, legacy, r, now) == Stored {
      forall id | id in u.held && u.held[id].expiresAt > now ensures HasRecord(u, id) {
        if id != r.id {
          assert HasRecord(t, id);
        }
      }
    }
  }

  lemma DeletionKeepsGood(t: Tables, limits: Limits, legacy: Legacy, id: string, mailbox: string, now: int)
    requires Good(t, limits, legacy, now)
    ensures Good(Deleted(t, id, mailbox), limits, legacy, now)
  {
    var u := Deleted(t, id, mailbox);
    QuotasShrink(t, u, limits, legacy);
    forall k | k in u.held && u.held[k].expiresAt > now ensures HasRecord(u, k) {
      assert HasRecord(t, k);
    }
  }

  lemma ExpiryKeepsGood(t: Tables, limits: Limits, legacy: Legacy, now: int)
    requires Good(t, limits, legacy, now)
    ensures Good(Expired(t, now), limits, legacy, now)
  {
    var u := Expired(t, now);
    QuotasShrink(t, u, limits, legacy);
    forall k | k in u.held && u.held[k].expiresAt > now ensures HasRecord(u, k) {
      assert HasRecord(t, k);
    }
  }

  lemma LaterIsGood(t: Tables, limits: Limits, legacy: Legacy, now: int, later: int)
    requires Good(t, limits, legacy, now) && now <= later
    ensures Good(t, limits, legacy, later)
  {
    forall id | id in t.held && t.held[id].expiresAt > later ensures HasRecord(t, id) {
      assert t.held[id].expiresAt > now;
    }
  }

  // ---- runs ----

  datatype Op = Admit(request: Request) | Delete(id: string, mailbox: string) | Expire

  type Event = Timed<Op>

  ghost function Step(t: Tables, limits: Limits, legacy: Legacy, e: Event): Tables {
    match e.op
    case Admit(r) => Admitted(t, limits, legacy, r, e.now)
    case Delete(id, mailbox) => Deleted(t, id, mailbox)
    case Expire => Expired(t, e.now)
  }

  /** The tables after the first i events. */
  ghost function StateAt(t: Tables, limits: Limits, legacy: Legacy, es: seq<Event>, i: nat): Tables
    requires i <= |es|
  {
    if i == 0 then t else Step(StateAt(t, limits, legacy, es, i - 1), limits, legacy, es[i - 1])
  }

  /** Whatever is submitted, delivered or expires, every quota holds at every point of every run. */
  lemma {:induction false} RunsKeepQuotas(t: Tables, limits: Limits, legacy: Legacy, start: int, es: seq<Event>, i: nat)
    requires Good(t, limits, legacy, start) && Timely(start, es) && i <= |es|
    ensures Good(StateAt(t, limits, legacy, es, i), limits, legacy, ClockAt(start, es, i))
  {
    hide Good, Decide, Admitted, Deleted, Expired;
    if i > 0 {
      RunsKeepQuotas(t, limits, legacy, start, es, i - 1);
      var before := StateAt(t, limits, legacy, es, i - 1);
      var now := es[i - 1].now;
      assert ClockAt(start, es, i - 1) <= now;
      LaterIsGood(before, limits, legacy, ClockAt(start, es, i - 1), now);
      match es[i - 1].op {
        case Admit(r) => AdmissionKeepsGood(before, limits, legacy, r, now);
        case Delete(id, mailbox) => DeletionKeepsGood(before, limits, legacy, id, mailbox, now);
        case Expire => ExpiryKeepsGood(before, limits, legacy, now);
      }
    }
  }

  /** A replay record outlives every event before its expiry, deletion of its envelope included. */
  lemma {:induction false} RecordsLast(t: Tables, limits: Limits, legacy: Legacy, es: seq<Event>, i: nat, j: nat,
                                       id: string)
    requires i <= j <= |es|
    requires forall a, b :: 0 <= a < b < |es| ==> es[a].now <= es[b].now
    requires var s := StateAt(t, limits, legacy, es, i);
             id in s.replay && (j > i ==> es[j - 1].now < s.replay[id].expiresAt)
    ensures id in StateAt(t, limits, legacy, es, j).replay
    ensures StateAt(t, limits, legacy, es, j).replay[id] == StateAt(t, limits, legacy, es, i).replay[id]
  {
    if i < j {
      RecordsLast(t, limits, legacy, es, i, j - 1, id);
    }
  }

  lemma StoredLeavesRecord(t: Tables, limits: Limits, legacy: Legacy, r: Request, now: int)
    requires Decide(t, limits, legacy, r, now) == Stored
    ensures var u := Admitted(t, limits, legacy, r, now);
            r.id in u.replay && u.replay[r.id] == ReplayRow(r.mailbox, r.payload, Some(r.user), r.expiresAt)
  {
  }

  lemma StoredEventLeavesRecord(t: Tables, limits: Limits, legacy: Legacy, es: seq<Event>, i: nat)
    requires i < |es| && es[i].op.Admit?
    requires Decide(StateAt(t, limits, legacy, es, i), limits, legacy, es[i].op.request, es[i].now) == Stored
    ensures var r := es[i].op.request;
            var u := StateAt(t, limits, legacy, es, i + 1);
            r.id in u.replay && u.replay[r.id] == ReplayRow(r.mailbox, r.payload, Some(r.user), r.expiresAt)
  {
    StoredLeavesRecord(StateAt(t, limits, legacy, es, i), limits, legacy, es[i].op.request, es[i].now);
  }

  /** A live replay record decides every well-formed submission of its ID. */
  lemma RecordDecides(t: Tables, limits: Limits, legacy: Legacy, r: Request, now: int)
    requires WellFormed(r, now) && r.id in t.replay && t.replay[r.id].expiresAt > now
    ensures Decide(t, limits, legacy, r, now) ==
            if r.mailbox == t.replay[r.id].mailbox && r.payload == t.replay[r.id].payload then AlreadyStored
            else Refused(ReplayConflict)
  {
    assert r.id in Expired(t, now).replay;
  }

  /**
   An envelope ID is admitted at most once until it expires. After event i stored it, a later
   well-formed submission of that ID before the expiry is answered "already stored" exactly when
   mailbox and payload are the same and is refused as a conflict otherwise, even after delivery.
   */
  lemma AdmittedAtMostOnce(t: Tables, limits: Limits, legacy: Legacy, es: seq<Event>, i: nat, j: nat)
    requires i < j < |es|
    requires forall a, b :: 0 <= a < b < |es| ==> es[a].now <= es[b].now
    requires es[i].op.Admit? && es[j].op.Admit?
    requires es[i].op.request.id == es[j].op.request.id
    requires Decide(StateAt(t, limits, legacy, es, i), limits, legacy, es[i].op.request, es[i].now) == Stored
    requires es[j].now < es[i].op.request.expiresAt && WellFormed(es[j].op.request, es[j].now)
    ensures var first, again := es[i].op.request, es[j].op.request;
            Decide(StateAt(t, limits, legacy, es, j), limits, legacy, again, es[j].now) ==
            if again.mailbox == first.mailbox && again.payload == first.payload then AlreadyStored
            else Refused(ReplayConflict)
  {
    hide Decide, StateAt;
    StoredEventLeavesRecord(t, limits, legacy, es, i);
    RecordsLast(t, limits, legacy, es, i + 1, j, es[i].op.request.id);
    RecordDecides(StateAt(t, limits, legacy, es, j), limits, legacy, es[j].op.request, es[j].now);
  }

  /** A held envelope leaves the store only by a deletion of its own ID and mailbox or by expiring. */
  lemma {:induction false} HeldUntilDeletedOrExpired(t: Tables, limits: Limits, legacy: Legacy, start: int,
                                                     es: seq<Event>,
                                                     i: nat, j: nat, id: string)
    requires Good(t, limits, legacy, start) && Timely(start, es) && i <= j <= |es|
    requires id in StateAt(t, limits, legacy, es, i).held
    ensures var row := StateAt(t, limits, legacy, es, i).held[id];
            || (id in StateAt(t, limits, legacy, es, j).held && StateAt(t, limits, legacy, es, j).held[id] == row)
            || ClockAt(start, es, j) >= row.expiresAt
            || exists k :: i <= k < j && es[k].op == Delete(id, row.mailbox)
  {
    if i < j {
      HeldUntilDeletedOrExpired(t, limits, legacy, start, es, i, j - 1, id);
      var before := StateAt(t, limits, legacy, es, j - 1);
      RunsKeepQuotas(t, limits, legacy, start, es, j - 1);
      var now := es[j - 1].now;
      assert ClockAt(start, es, j - 1) <= now;
      if id in before.held && before.held[id].expiresAt > now {
        assert HasRecord(before, id);
        match es[j - 1].op {
          case Admit(r) =>
            if Decide(before, limits, legacy, r, now) == Stored {
              InsertFindsKeysFree(before, limits, legacy, r, now);
            }
          case Delete(d, mailbox) =>
            if d == id && mailbox == before.held[id].mailbox {
              assert es[j - 1].op == Delete(id, before.held[id].mailbox);
            }
          case Expire =>
        }
      }
    }
  }
}
