/**
 One authenticated session at a Daddy: the single mailbox it may act on, the envelopes it has
 offered and not yet seen acknowledged, and the handlers for fetching and acknowledging them.
 */
module Sessions {
  import opened Wrappers
  import opened ByteStrings
  import opened Ages
  import opened Tokens
  import opened Resource
  import opened HoldTables
  import opened Listings
  import HoldStore
  import Registry

  /** message.ValidateMailboxID, which unlike the store ignores space around the identifier. */
  predicate ValidMailboxID(s: string) {
    IsToken(Trim(s))
  }

  // ---- what a session has done, as a log ----

  datatype Entry =
    | Offer(id: string, mailbox: string)
    | Ack(id: string, mailbox: string, deleted: bool)
    | Privileged(mailbox: string)

  function PendingAfter(before: map<string, string>, e: Entry): map<string, string> {
    match e
    case Offer(id, mailbox) => before[id := mailbox]
    case Ack(id, _, _) => before - {id}
    case Privileged(_) => before
  }

  /** The offers that no acknowledgement has consumed yet. */
  function Pending(log: seq<Entry>): map<string, string> {
    if log == [] then map[] else PendingAfter(Pending(log[..|log| - 1]), log[|log| - 1])
  }

  /** Every acknowledgement consumed an offer of the same envelope and mailbox that was still pending. */
  ghost predicate AcksMatchOffers(log: seq<Entry>) {
    forall k :: 0 <= k < |log| && log[k].Ack? ==>
      log[k].id in Pending(log[..k]) && Pending(log[..k])[log[k].id] == log[k].mailbox
  }

  function Offers(log: seq<Entry>): nat {
    if log == [] then 0 else Offers(log[..|log| - 1]) + if log[|log| - 1].Offer? then 1 else 0
  }

  function Deletions(log: seq<Entry>): nat {
    if log == [] then 0
    else Deletions(log[..|log| - 1]) + if log[|log| - 1].Ack? && log[|log| - 1].deleted then 1 else 0
  }

  /** So a session never deletes more envelopes than it offered, whatever is still pending. */
  lemma {:induction false} DeletionsAtMostOffers(log: seq<Entry>)
    requires AcksMatchOffers(log)
    ensures Deletions(log) + |Pending(log)| <= Offers(log)
  {
    if log != [] {
      var before := log[..|log| - 1];
      forall k | 0 <= k < |before| && before[k].Ack?
        ensures before[k].id in Pending(before[..k]) && Pending(before[..k])[before[k].id] == before[k].mailbox
      {
        assert before[..k] == log[..k] && log[k].Ack?;
      }
      DeletionsAtMostOffers(before);
      if log[|log| - 1].Ack? {
        var id := log[|log| - 1].id;
        assert Pending(before).Keys == Pending(log).Keys + {id};
        assert |Pending(before).Keys| == |Pending(log).Keys| + 1;
      }
    }
  }

  lemma LogGrows(log: seq<Entry>, e: Entry)
    requires AcksMatchOffers(log)
    requires e.Ack? ==> e.id in Pending(log) && Pending(log)[e.id] == e.mailbox
    ensures AcksMatchOffers(log + [e])
    ensures Pending(log + [e]) == PendingAfter(Pending(log), e)
  {
    var more := log + [e];
    assert more[..|log|] == log;
    forall k | 0 <= k < |more| && more[k].Ack?
      ensures more[k].id in Pending(more[..k]) && Pending(more[..k])[more[k].id] == more[k].mailbox
    {
      assert more[..k] == log[..k];
    }
  }

  /** The ID and mailbox inside a stored payload that decodes to a valid envelope. */
  datatype EnvelopeHead = EnvelopeHead(id: string, mailbox: string)

  datatype AckStatus = Delivered | Rejected | Unknown

  datatype AckResult = DeleteAcked | NoMessageID | Unauthorized | UnknownStatus | NotOffered | NoLongerHeld

  /** The IDs inside those listed rows whose payload decodes to an envelope of the mailbox. */
  function Offerable(ids: seq<string>, held: map<string, HeldRow>, mailbox: string,
                     decode: Bytes -> Option<EnvelopeHead>): seq<string>
    requires forall id :: id in ids ==> id in held
  {
    if ids == [] then []
    else
      var envelope := decode(held[ids[|ids| - 1]].payload);
      Offerable(ids[..|ids| - 1], held, mailbox, decode) +
      if envelope.Some? && EqualFold(envelope.value.mailbox, mailbox) then [envelope.value.id] else []
  }

  function OffersOf(ids: seq<string>, mailbox: string): (es: seq<Entry>)
    ensures |es| == |ids|
  {
    seq(|ids|, i requires 0 <= i < |ids| => Offer(ids[i], mailbox))
  }

  lemma OffersAppend(ids: seq<string>, id: string, mailbox: string)
    ensures OffersOf(ids + [id], mailbox) == OffersOf(ids, mailbox) + [Offer(id, mailbox)]
  {
  }

  lemma ListedAreHeld(ids: seq<string>, held: map<string, HeldRow>, mailbox: string, now: int)
    requires ShowsOldest(ids, held, mailbox, now, MAX_HELD_MESSAGE_BATCH)
    ensures forall id :: id in ids ==> id in held
  {
  }

  /** How an acknowledgement is answered: the first check that fails decides. */
  function AckAnswer(id: string, status: AckStatus, mayAct: bool, offered: bool, held: bool): AckResult {
    if id == "" then NoMessageID
    else if !mayAct then Unauthorized
    else if status == Unknown then UnknownStatus
    else if !offered then NotOffered
    else if status == Delivered && !held then NoLongerHeld
    else DeleteAcked
  }

  /** An envelope submitted for holding: its tokens, its stored form, the size it came in, and whether it validates. */
  datatype Submission = Submission(id: string, mailbox: string, payload: Bytes, rawSize: nat, valid: bool)

  /**
   The requests of a session. MESSAGE is for this node's own mailbox; a GHOST_FORWARD comes to this
   store only when every hop failed; a well-formed request is one whose body can be read.
   */
  datatype Request =
    | Incoming(wellFormed: bool)
    | HoldMessage(submission: Submission)
    | Fetch(mailbox: string)
    | DeliveryAck(id: string, ackMailbox: string, status: AckStatus)
    | RegisterRoute(routeMailbox: string, address: string, addressSplits: bool, expiresAt: int)
    | LookupRoute(lookedUp: string)
    | RelayProbe(nonce: string)
    | GhostForward(forwarded: Submission, hopsLeft: int, keptHere: bool)
    | Unsupported

  // ---- what becomes of the store while a session is served ----

  predicate IsHeldFor(held: map<string, HeldRow>, id: string, mailbox: string) {
    id in held && held[id].mailbox == mailbox
  }

  datatype Cause = Nothing | ByOthers | Admission(request: HoldTables.Request) | Removal(id: string, mailbox: string)

  datatype Change = Change(cause: Cause, before: Tables, after: Tables, now: int)
  {
    /** A request changes the store only by one admission for its own peer or by removing exactly one row. */
    ghost predicate Legal(limits: Limits, legacy: Legacy, peer: Bytes) {
      match cause
      case Nothing => after == before
      case ByOthers => true
      case Admission(r) => r.user == peer && after == Admitted(before, limits, legacy, r, now)
      case Removal(id, mailbox) => RemovesOnly(id, mailbox)
    }

    ghost predicate RemovesOnly(id: string, mailbox: string) {
      IsHeldFor(before.held, id, mailbox) && after == before.(held := before.held - {id})
    }
  }

  ghost predicate Chained(first: Tables, changes: seq<Change>, last: Tables) {
    if changes == [] then first == last
    else Chained(first, changes[..|changes| - 1], changes[|changes| - 1].before) && changes[|changes| - 1].after == last
  }

  /** The rows a session removed, in order, by its log and by what happened to the store. */
  function DeletedBy(log: seq<Entry>): seq<(string, string)> {
    if log == [] then []
    else
      var e := log[|log| - 1];
      DeletedBy(log[..|log| - 1]) + if e.Ack? && e.deleted then [(e.id, e.mailbox)] else []
  }

  function RemovedIn(changes: seq<Change>): seq<(string, string)> {
    if changes == [] then []
    else
      var c := changes[|changes| - 1].cause;
      RemovedIn(changes[..|changes| - 1]) + if c.Removal? then [(c.id, c.mailbox)] else []
  }

  lemma {:induction false} DeletionsAreDeleted(log: seq<Entry>)
    ensures |DeletedBy(log)| == Deletions(log)
  {
    if log != [] {
      DeletionsAreDeleted(log[..|log| - 1]);
    }
  }

  lemma {:induction false} OffersDeleteNothing(log: seq<Entry>, ids: seq<string>, mailbox: string)
    ensures DeletedBy(log + OffersOf(ids, mailbox)) == DeletedBy(log)
  {
    var more := log + OffersOf(ids, mailbox);
    if ids == [] {
      assert more == log;
    } else {
      assert more[..|more| - 1] == log + OffersOf(ids[..|ids| - 1], mailbox);
      OffersDeleteNothing(log, ids[..|ids| - 1], mailbox);
    }
  }

  lemma DeletedAppend(log: seq<Entry>, e: Entry)
    ensures DeletedBy(log + [e]) == DeletedBy(log) + if e.Ack? && e.deleted then [(e.id, e.mailbox)] else []
  {
    assert (log + [e])[..|log|] == log;
  }

  lemma ChangeAppends(first: Tables, changes: seq<Change>, c: Change)
    requires Chained(first, changes, c.before)
    ensures Chained(first, changes + [c], c.after)
    ensures RemovedIn(changes + [c]) == RemovedIn(changes) + if c.cause.Removal? then [(c.cause.id, c.cause.mailbox)]
              else []
  {
    assert (changes + [c])[..|changes|] == changes;
  }

  // ---- what each request does ----

  /** Whether a peer may act on a mailbox: a stable identity that owns it, on a session that may name it. */
  predicate MayActOn(peer: Bytes, anonymous: bool, mailboxID: string, owners: map<string, Bytes>, mailbox: string) {
    && ValidMailboxID(mailbox) && IsToken(mailbox)
    && (mailboxID == "" || EqualFold(mailboxID, Trim(mailbox)))
    && |peer| == 32 && !anonymous
    && mailbox in owners && owners[mailbox] == peer
  }

  /** All that decides the answer to a fetch or an acknowledgement. */
  datatype Standing = Standing(peer: Bytes, anonymous: bool, mailboxID: string, owners: map<string, Bytes>,
                               fetched: map<string, string>, log: seq<Entry>, held: map<string, HeldRow>)
  {
    predicate MayAct(mailbox: string) {
      MayActOn(peer, anonymous, mailboxID, owners, mailbox)
    }

    function Tables(replay: map<string, ReplayRow>): HoldTables.Tables {
      HoldTables.Tables(held, replay)
    }

    /** The owner acknowledges an envelope that was offered and not yet acknowledged. */
    predicate Honours(id: string, mailbox: string, status: AckStatus) {
      id != "" && MayAct(mailbox) && status != Unknown && id in fetched && fetched[id] == mailbox
    }

    /** Such an envelope was accepted, and is still held. */
    predicate Removes(id: string, mailbox: string, status: AckStatus) {
      Honours(id, mailbox, status) && status == Delivered && IsHeldFor(held, id, mailbox)
    }
  }

  /** A fetch offers an owner the oldest of what is due in its mailbox, and nobody else anything. */
  ghost predicate AnswersFetch(s: Standing, s': Standing, mailbox: string, offered: seq<string>,
                               decode: Bytes -> Option<EnvelopeHead>, now: int)
  {
    && s'.held == s.held && s'.log == s.log + OffersOf(offered, mailbox) && s'.fetched == Pending(s'.log)
    && (s.MayAct(mailbox) ==>
          && s'.MayAct(mailbox)
          && exists listed :: ShowsOldest(listed, s.held, mailbox, now, 256) &&
               offered == Offerable(listed, s.held, mailbox, decode))
    && (!s.MayAct(mailbox) ==> offered == [])
  }

  /** An acknowledgement is honoured once, and removes the row if it was accepted; else the session ends. */
  ghost predicate AnswersAck(s: Standing, s': Standing, id: string, mailbox: string, status: AckStatus, ok: bool) {
    var removed := s.Removes(id, mailbox, status);
    var honoured := s.Honours(id, mailbox, status);
    && (ok <==> honoured && (status == Delivered ==> removed))
    && s'.held == (if removed then s.held - {id} else s.held)
    && s'.fetched == (if honoured then s.fetched - {id} else s.fetched)
    && s'.log == (if honoured then s.log + [Ack(id, mailbox, removed)] else s.log)
    && (s.MayAct(mailbox) ==> s'.MayAct(mailbox))
  }

  /** The handler's answers are those. */
  lemma AnswersAreAcks(s: Standing, s': Standing, id: string, mailbox: string, status: AckStatus, r: AckResult)
    requires r == AckAnswer(id, status, s.MayAct(mailbox), id in s.fetched && s.fetched[id] == mailbox,
                            IsHeldFor(s.held, id, mailbox))
    requires r in {DeleteAcked, NoLongerHeld} ==>
               && s'.fetched == s.fetched - {id}
               && s'.log == s.log + [Ack(id, mailbox, status == Delivered && r == DeleteAcked)]
    requires r !in {DeleteAcked, NoLongerHeld} ==> s'.log == s.log && s'.fetched == s.fetched
    requires s'.held == if r in {DeleteAcked, NoLongerHeld} && status == Delivered
                        then Deleted(s.Tables(map[]), id, mailbox).held else s.held
    requires s.MayAct(mailbox) ==> s'.MayAct(mailbox)
    ensures AnswersAck(s, s', id, mailbox, status, r == DeleteAcked)
    ensures r == DeleteAcked <==> !EndsSession(DeliveryAck(id, mailbox, status), s)
    ensures r == DeleteAcked && status == Delivered <==> s.Removes(id, mailbox, status)
    ensures r == NoLongerHeld ==> !IsHeldFor(s.held, id, mailbox)
  {
    hide MayActOn;
  }

  /** Which requests end the session by an error. */
  predicate EndsSession(r: Request, s: Standing) {
    match r
    case Incoming(wellFormed) => !wellFormed
    case DeliveryAck(id, mailbox, status) =>
      !s.Honours(id, mailbox, status) || (status == Delivered && !s.Removes(id, mailbox, status))
    case Unsupported => true
    case _ => false
  }

  ghost predicate Answers(r: Request, s: Standing, s': Standing, ok: bool, offered: seq<string>,
                          decode: Bytes -> Option<EnvelopeHead>, now: int)
  {
    && (ok <==> !EndsSession(r, s))
    && match r
       case Fetch(mailbox) => AnswersFetch(s, s', mailbox, offered, decode, now)
       case DeliveryAck(id, mailbox, status) => offered == [] && AnswersAck(s, s', id, mailbox, status, ok)
       case _ => offered == [] && s'.fetched == s.fetched && (!r.RegisterRoute? ==> s'.log == s.log)
  }

  // ---- a session that fetches and acknowledges all of it ----

  /** Delivered acknowledgements of these envelopes. */
  function AcksOf(ids: seq<string>, mailbox: string): (rs: seq<Request>)
    ensures |rs| == |ids|
  {
    seq(|ids|, i requires 0 <= i < |ids| => DeliveryAck(ids[i], mailbox, Delivered))
  }

  /** Every held payload decodes to the envelope its row is filed under. */
  ghost predicate Readable(held: map<string, HeldRow>, decode: Bytes -> Option<EnvelopeHead>) {
    forall id :: id in held ==> id != "" && decode(held[id].payload) == Some(EnvelopeHead(id, held[id].mailbox))
  }

  lemma {:induction false} ReadableIsOffered(ids: seq<string>, held: map<string, HeldRow>, mailbox: string,
                                             decode: Bytes -> Option<EnvelopeHead>)
    requires Readable(held, decode) && forall id :: id in ids ==> id in held && held[id].mailbox == mailbox
    ensures Offerable(ids, held, mailbox, decode) == ids
  {
    if ids != [] {
      ReadableIsOffered(ids[..|ids| - 1], held, mailbox, decode);
      assert ids[|ids| - 1] in ids;
    }
  }

  lemma {:induction false} OffersArePending(log: seq<Entry>, ids: seq<string>, mailbox: string)
    ensures forall id :: id in ids ==>
              id in Pending(log + OffersOf(ids, mailbox)) && Pending(log + OffersOf(ids, mailbox))[id] == mailbox
  {
    if ids != [] {
      var front, last := ids[..|ids| - 1], ids[|ids| - 1];
      OffersArePending(log, front, mailbox);
      var more := log + OffersOf(ids, mailbox);
      assert more[..|more| - 1] == log + OffersOf(front, mailbox);
      assert forall id :: id in ids ==> id in front || id == last;
    }
  }

  /** n acknowledgements after the fetch: those are gone, and the other offers are pending and held. */
  ghost predicate OnCourse(s: Standing, held: map<string, HeldRow>, offered: seq<string>, n: nat, mailbox: string)
    requires n <= |offered|
  {
    && s.MayAct(mailbox) && s.held == Without(held, offered[..n]) && Distinct(offered)
    && forall k :: n <= k < |offered| ==>
         && offered[k] != "" && offered[k] in s.fetched && s.fetched[offered[k]] == mailbox
         && IsHeldFor(s.held, offered[k], mailbox)
  }

  lemma FetchStartsCourse(s: Standing, s': Standing, mailbox: string, offered: seq<string>, ok: bool,
                          decode: Bytes -> Option<EnvelopeHead>, now: int)
    requires Answers(Fetch(mailbox), s, s', ok, offered, decode, now) && s.MayAct(mailbox)
    requires Readable(s.held, decode)
    ensures ok && OnCourse(s', s.held, offered, 0, mailbox) && ShowsOldest(offered, s.held, mailbox, now, 256)
  {
    hide MayActOn, Offerable, OffersOf, Pending;
    var listed :|
      ShowsOldest(listed, s.held, mailbox, now, 256) && offered == Offerable(listed, s.held, mailbox, decode);
    ReadableIsOffered(listed, s.held, mailbox, decode);
    OffersArePending(s.log, offered, mailbox);
    assert offered[..0] == [] && Without(s.held, []) == s.held;
    assert forall k :: 0 <= k < |offered| ==> offered[k] in listed;
  }

  lemma AckGoesOn(s: Standing, s': Standing, held: map<string, HeldRow>, mailbox: string, offered: seq<string>, n: nat,
                  ok: bool, none: seq<string>, decode: Bytes -> Option<EnvelopeHead>, now: int)
    requires n < |offered| && OnCourse(s, held, offered, n, mailbox)
    requires Answers(AcksOf(offered, mailbox)[n], s, s', ok, none, decode, now)
    ensures ok && OnCourse(s', held, offered, n + 1, mailbox)
  {
    hide MayActOn;
    assert AcksOf(offered, mailbox)[n] == DeliveryAck(offered[n], mailbox, Delivered);
    assert offered[..n + 1] == offered[..n] + [offered[n]];
    assert Without(held, offered[..n + 1]) == Without(held, offered[..n]) - {offered[n]};
  }

  function FirstMailbox(requests: seq<Request>): string {
    if requests != [] && requests[0].Fetch? then requests[0].mailbox else ""
  }

  /** The script of such a session: the owner fetches, and acknowledges as delivered what it was offered. */
  ghost predicate FetchesAndAcks(requests: seq<Request>, s: Standing, offered: seq<string>,
                                 decode: Bytes -> Option<EnvelopeHead>)
  {
    && requests != [] && requests[0].Fetch? && s.MayAct(requests[0].mailbox) && Readable(s.held, decode)
    && requests[1..] == AcksOf(offered, requests[0].mailbox)
  }

  /** Others left the store alone. */
  ghost predicate Undisturbed(changes: seq<Change>) {
    forall k :: 0 <= k < |changes| && changes[k].cause == ByOthers ==> changes[k].after == changes[k].before
  }

  lemma CourseStep(requests: seq<Request>, first: Standing, was: Standing, mid: Standing, s: Standing, served: nat,
                   offered: seq<string>, more: seq<string>, before: seq<Change>, changes: seq<Change>, ok: bool,
                   decode: Bytes -> Option<EnvelopeHead>, now: int)
    requires served < |requests| && Answers(requests[served], mid, s, ok, more, decode, now)
    requires before < changes && changes[|before|].cause == ByOthers && changes[|before|].now == now
    requires changes[|before|].before.held == was.held
    requires mid == was.(held := changes[|before|].after.held, owners := mid.owners)
    requires OwnersStay(was.owners, mid.owners)
    requires served == 0 ==> was == first && before == [] && offered == more
    requires served > 0 && FetchesAndAcks(requests, first, offered, decode) && Undisturbed(before) ==>
               && before != [] && ShowsOldest(offered, first.held, FirstMailbox(requests), before[0].now, 256)
               && served - 1 <= |offered| && OnCourse(was, first.held, offered, served - 1, FirstMailbox(requests))
    ensures FetchesAndAcks(requests, first, offered, decode) && Undisturbed(changes) ==>
              && ok && ShowsOldest(offered, first.held, FirstMailbox(requests), changes[0].now, 256)
              && served <= |offered| && OnCourse(s, first.held, offered, served, FirstMailbox(requests))
  {
    hide Answers, ShowsOldest;
    if FetchesAndAcks(requests, first, offered, decode) && Undisturbed(changes) {
      var mailbox := requests[0].mailbox;
      assert Undisturbed(before) && mid.held == was.held;
      if served == 0 {
        FetchStartsCourse(mid, s, mailbox, offered, ok, decode, now);
      } else {
        assert requests[served] == requests[1..][served - 1];
        AckGoesOn(mid, s, first.held, mailbox, offered, served - 1, ok, more, decode, now);
      }
    }
  }

  lemma CourseEnds(requests: seq<Request>, first: Standing, s: Standing, offered: seq<string>,
                   decode: Bytes -> Option<EnvelopeHead>, now: int)
    requires FetchesAndAcks(requests, first, offered, decode)
    ensures |requests| == |offered| + 1
    ensures ShowsOldest(offered, first.held, FirstMailbox(requests), now, 256) ==> |offered| <= 256
    ensures OnCourse(s, first.held, offered, |offered|, FirstMailbox(requests)) ==>
              s.held == Without(first.held, offered)
  {
    assert offered[..|offered|] == offered;
  }

  lemma NotEmpty(requests: seq<Request>, s: Standing, offered: seq<string>, decode: Bytes -> Option<EnvelopeHead>)
    ensures FetchesAndAcks(requests, s, offered, decode) ==> requests != []
  {
  }

  lemma RemovedRowWasHeld(s: Standing, id: string, mailbox: string, status: AckStatus)
    ensures s.Removes(id, mailbox, status) ==> status == Delivered && IsHeldFor(s.held, id, mailbox)
  {
  }

  lemma NothingServed(t: HoldTables.Tables)
    ensures Chained(t, [], t) && RemovedIn([]) == DeletedBy([])
  {
  }

  class Session {
    const peer: Bytes
    const peerNamespace: string
    const peerAnonymous: bool
    var mailboxID: string
    var fetched: map<string, string>
    ghost var log: seq<Entry>

    ghost predicate Valid()
      reads this
    {
      && fetched == Pending(log)
      && AcksMatchOffers(log)
      && (mailboxID == "" ==> log == [])
      && (mailboxID != "" ==> IsToken(mailboxID))
      && (forall k :: 0 <= k < |log| ==> EqualFold(log[k].mailbox, mailboxID))
    }

    constructor (peer: Bytes, peerNamespace: string, peerAnonymous: bool)
      ensures Valid() && log == [] && mailboxID == ""
      ensures this.peer == peer && this.peerNamespace == peerNamespace && this.peerAnonymous == peerAnonymous
    {
      this.peer, this.peerNamespace, this.peerAnonymous := peer, peerNamespace, peerAnonymous;
      mailboxID, fetched, log := "", map[], [];
    }

    /** Binds the session to the first valid mailbox it names; later ones must match it up to case. */
    method AuthorizeMailboxID(mailbox: string) returns (ok: bool)
      requires Valid()
      modifies this`mailboxID
      ensures Valid()
      ensures ok <==> ValidMailboxID(mailbox) && (old(mailboxID) == "" || EqualFold(old(mailboxID), Trim(mailbox)))
      ensures ok ==> DecodeHex(Trim(mailbox)).Some? && |DecodeHex(Trim(mailbox)).value| == 32
      ensures old(mailboxID) == "" && DecodeHex(Trim(mailbox)).Some? && |DecodeHex(Trim(mailbox)).value| == 32 ==> ok
      ensures mailboxID == if ok && old(mailboxID) == "" then Trim(mailbox) else old(mailboxID)
    {
      TokensDecode(Trim(mailbox));
      hide DecodeHex, IsToken;
      if !ValidMailboxID(mailbox) {
        return false;
      }
      var trimmed := Trim(mailbox);
      if mailboxID == "" {
        mailboxID := trimmed;
        return true;
      }
      return EqualFold(mailboxID, trimmed);
    }

    method RecordFetchedMessage(id: string, mailbox: string)
      requires Valid() && mailboxID != "" && EqualFold(mailbox, mailboxID)
      modifies this`fetched, this`log
      ensures Valid()
      ensures log == old(log) + [Offer(id, mailbox)]
    {
      LogGrows(log, Offer(id, mailbox));
      fetched := fetched[id := mailbox];
      log := log + [Offer(id, mailbox)];
    }

    /** A missing map entry reads as "", so an absent ID would match an empty mailbox; callers never pass one. */
    method ConsumeFetchedMessage(id: string, mailbox: string) returns (ok: bool)
      modifies this`fetched
      ensures ok <==> mailbox == if id in old(fetched) then old(fetched)[id] else ""
      ensures fetched == if ok then old(fetched) - {id} else old(fetched)
    {
      var stored := if id in fetched then fetched[id] else "";
      if stored != mailbox {
        return false;
      }
      fetched := fetched - {id};
      return true;
    }

    /** The session is free for the mailbox or bound to it, and the peer is its owner under a stable identity. */
    ghost predicate MayAct(registry: Registry.MailboxRegistry, mailbox: string)
      reads this, registry
    {
      MayActOn(peer, peerAnonymous, mailboxID, registry.owners, mailbox)
    }

    ghost function StandingAt(store: HoldStore.Store, registry: Registry.MailboxRegistry): Standing
      reads this, store, registry
    {
      Standing(peer, peerAnonymous, mailboxID, registry.owners, fetched, log, store.held)
    }

    /** Whether the authenticated peer may act on the mailbox; even a refusal can bind a free session. */
    method AuthorizeMailboxOwner(registry: Registry.MailboxRegistry, mailbox: string) returns (ok: bool)
      requires Valid()
      modifies this`mailboxID
      ensures Valid()
      ensures ok <==> old(MayAct(registry, mailbox))
      ensures mailboxID == if old(mailboxID) == "" && ValidMailboxID(mailbox) then Trim(mailbox) else old(mailboxID)
      ensures ok ==> mailboxID != "" && EqualFold(mailboxID, mailbox)
    {
      ok := AuthorizeMailboxID(mailbox);
      if !ok {
        return;
      }
      if |peer| != 32 || peerAnonymous {
        return false;
      }
      var owned := registry.MailboxOwnedBy(mailbox, peer);
      ok := owned == Some(true);
      if ok {
        TrimToken(mailbox);
      }
    }

    /**
     FETCH_MESSAGES: offers the owner those of a listing of its live envelopes that decode to an
     envelope of this mailbox, and remembers each offer. Nobody else is offered anything.
     */
    method HandleFetchMessages(store: HoldStore.Store, registry: Registry.MailboxRegistry, mailbox: string,
                               decode: Bytes -> Option<EnvelopeHead>, now: int)
      returns (offered: seq<string>, ghost listed: seq<string>)
      requires Valid() && store.Valid(now)
      modifies this`mailboxID, this`fetched, this`log
      ensures Valid()
      ensures old(MayAct(registry, mailbox)) ==>
                IsListing(listed, Live(store.held, mailbox, now), MAX_HELD_MESSAGE_BATCH) &&
                ShowsOldest(listed, store.held, mailbox, now, MAX_HELD_MESSAGE_BATCH) &&
                offered == Offerable(listed, store.held, mailbox, decode)
      ensures !old(MayAct(registry, mailbox)) ==> offered == []
      ensures old(MayAct(registry, mailbox)) ==> MayAct(registry, mailbox)
      ensures log == old(log) + OffersOf(offered, mailbox)
      ensures Deletions(log) == Deletions(old(log))
    {
      hide AcksMatchOffers, IsListing, OldestPrefix, ShowsOldest;
      offered, listed := [], [];
      if !ValidMailboxID(mailbox) {
        return;
      }
      var authorized := AuthorizeMailboxOwner(registry, mailbox);
      if !authorized {
        return;
      }
      var held := store.ListHeld(mailbox, MAX_HELD_MESSAGE_BATCH, now);
      listed := held.value;
      ListedAreHeld(listed, store.held, mailbox, now);
      offered := OfferEach(held.value, store.held, mailbox, decode);
    }

    method OfferEach(ids: seq<string>, held: map<string, HeldRow>, mailbox: string,
                     decode: Bytes -> Option<EnvelopeHead>)
      returns (offered: seq<string>)
      requires Valid() && mailboxID != "" && EqualFold(mailbox, mailboxID)
      requires forall id :: id in ids ==> id in held
      modifies this`fetched, this`log
      ensures Valid() && offered == Offerable(ids, held, mailbox, decode)
      ensures log == old(log) + OffersOf(offered, mailbox) && Deletions(log) == Deletions(old(log))
    {
      hide AcksMatchOffers, Lower, IsToken, Pending, OffersOf;
      assert OffersOf([], mailbox) == [];
      offered := [];
      for i := 0 to |ids|
        invariant Valid()
        invariant offered == Offerable(ids[..i], held, mailbox, decode)
        invariant log == old(log) + OffersOf(offered, mailbox) && Deletions(log) == Deletions(old(log))
      {
        assert ids[..i + 1][..i] == ids[..i];
        var envelope := decode(held[ids[i]].payload);
        if envelope.Some? && EqualFold(envelope.value.mailbox, mailbox) {
          DeletionsAppend(log, Offer(envelope.value.id, mailbox));
          OffersAppend(offered, envelope.value.id, mailbox);
          RecordFetchedMessage(envelope.value.id, mailbox);
          offered := offered + [envelope.value.id];
        }
      }
      assert ids[..|ids|] == ids;
    }

    /**
     DELIVERY_ACK: an acknowledgement is honoured once for each envelope this session offered, and
     only a delivered one deletes, and only that envelope of that mailbox.
     */
    method HandleDeliveryAck(store: HoldStore.Store, registry: Registry.MailboxRegistry, id: string, mailbox: string,
                             status: AckStatus, ghost now: int)
      returns (r: AckResult)
      requires Valid() && store.Valid(now)
      modifies this`mailboxID, this`fetched, this`log, store`held
      ensures Valid() && store.Valid(now)
      ensures r in {DeleteAcked, NoLongerHeld} ==>
                && id in old(fetched) && old(fetched)[id] == mailbox && fetched == old(fetched) - {id}
                && mailbox in registry.owners && registry.owners[mailbox] == peer && !peerAnonymous
                && log == old(log) + [Ack(id, mailbox, status == Delivered && r == DeleteAcked)]
      ensures r !in {DeleteAcked, NoLongerHeld} ==> log == old(log) && fetched == old(fetched)
      ensures r == AckAnswer(id, status, old(MayAct(registry, mailbox)),
                             id in old(fetched) && old(fetched)[id] == mailbox,
                             IsHeldFor(old(store.held), id, mailbox))
      ensures store.Contents() == if r in {DeleteAcked, NoLongerHeld} && status == Delivered
                                  then Deleted(old(store.Contents()), id, mailbox) else old(store.Contents())
      ensures status == Delivered && r == DeleteAcked ==> id in old(store.held) && id !in store.held
      ensures old(MayAct(registry, mailbox)) ==> MayAct(registry, mailbox)
      ensures |old(store.held)| - |store.held| == Deletions(log) - Deletions(old(log))
    {
      hide Good, AcksMatchOffers, Lower, IsToken, Deletions, Pending;
      if id == "" {
        return NoMessageID;
      }
      var authorized := AuthorizeMailboxOwner(registry, mailbox);
      if !authorized {
        return Unauthorized;
      }
      if status == Unknown {
        return UnknownStatus;
      }
      var consumed := ConsumeFetchedMessage(id, mailbox);
      if !consumed {
        return NotOffered;
      }
      r := SettleOffer(store, id, mailbox, status, now);
    }

    /** What an honoured acknowledgement does once its offer is consumed. */
    method SettleOffer(store: HoldStore.Store, id: string, mailbox: string, status: AckStatus, ghost now: int)
      returns (r: AckResult)
      requires store.Valid(now) && AcksMatchOffers(log)
      requires id in Pending(log) && Pending(log)[id] == mailbox
      modifies this`log, store`held
      ensures store.Valid(now) && AcksMatchOffers(log) && Pending(log) == Pending(old(log)) - {id}
      ensures r == if status == Delivered && !IsHeldFor(old(store.held), id, mailbox)
                   then NoLongerHeld else DeleteAcked
      ensures log == old(log) + [Ack(id, mailbox, status == Delivered && r == DeleteAcked)]
      ensures store.Contents() == if status == Delivered then Deleted(old(store.Contents()), id, mailbox)
                else old(store.Contents())
      ensures |old(store.held)| - |store.held| == Deletions(log) - Deletions(old(log))
    {
      r := DeleteAcked;
      if status == Delivered {
        var deleted := store.Delete(id, mailbox, now);
        if !deleted {
          r := NoLongerHeld;
        }
      }
      DeletionsAppend(log, Ack(id, mailbox, status == Delivered && r == DeleteAcked));
      LogGrows(log, Ack(id, mailbox, status == Delivered && r == DeleteAcked));
      log := log + [Ack(id, mailbox, status == Delivered && r == DeleteAcked)];
    }

    /** The session may name the mailbox, the peer has a key of its own, and the address has a host and a port. */
    ghost predicate MayRegister(r: Request)
      requires r.RegisterRoute?
      reads this
    {
      && ValidMailboxID(r.routeMailbox) && (mailboxID == "" || EqualFold(mailboxID, Trim(r.routeMailbox)))
      && |peer| == 32 && peerNamespace != "relay" && r.addressSplits
    }

    function ClaimOf(r: Request, now: int): Registry.Claim
      requires r.RegisterRoute?
    {
      Registry.Clamped(Registry.Claim(r.routeMailbox, r.address, r.expiresAt, peer), now)
    }

    /**
     REGISTER_ROUTE: the owner is the authenticated peer, never a key from the request, and the
     mailbox must be the one this session is bound to.
     */
    method HandleRegisterRoute(registry: Registry.MailboxRegistry, r: Request, now: int) returns (registered: bool)
      requires r.RegisterRoute? && Valid() && registry.Valid(now)
      modifies this`mailboxID, this`log, registry`owners, registry`routes
      ensures Valid() && registry.Valid(now) && fetched == old(fetched)
      ensures Deletions(log) == Deletions(old(log))
      ensures registered <==> (
                && old(MayRegister(r))
                && Registry.Decide(old(registry.Contents()), registry.limits, ClaimOf(r, now), now) ==
                   Registry.Registered)
      ensures registry.Contents() == if registered
                then Registry.Granted(old(registry.Contents()), registry.limits, ClaimOf(r, now), now)
                                     else old(registry.Contents())
      ensures log == if registered then old(log) + [Privileged(r.routeMailbox)] else old(log)
    {
      hide Registry.Decide, Registry.Good, Lower, IsToken, AcksMatchOffers, Pending;
      RegisteredIsLive(registry.Contents(), registry.limits, ClaimOf(r, now), now);
      var ok := AuthorizeMailboxID(r.routeMailbox);
      if !ok || |peer| != 32 || peerNamespace == "relay" || !r.addressSplits {
        return false;
      }
      var claim := Registry.Claim(r.routeMailbox, r.address, r.expiresAt, peer);
      if Registry.Clamped(claim, now).expiresAt <= now {
        return false;
      }
      var answer := registry.HandleRegisterRoute(claim, now);
      if answer != Registry.Registered {
        return false;
      }
      TrimToken(r.routeMailbox);
      DeletionsAppend(log, Privileged(r.routeMailbox));
      LogGrows(log, Privileged(r.routeMailbox));
      log := log + [Privileged(r.routeMailbox)];
      return true;
    }

    static lemma RegisteredIsLive(r: Registry.Registrations, limits: Limits, c: Registry.Claim, now: int)
      ensures Registry.Decide(r, limits, c, now) == Registry.Registered ==> c.expiresAt > now && IsToken(c.mailbox)
    {
    }

    /** What the store is asked for a submission of this session's peer. */
    function StoreRequest(e: Submission, now: int): HoldTables.Request {
      ForHolding(e.id, e.mailbox, e.payload, now, peer)
    }

    predicate MaySubmit(e: Submission) {
      e.rawSize <= MAX_OPAQUE_ENVELOPE_SIZE && |peer| == 32 && !peerAnonymous && e.valid
    }

    /** The requests that lead to an admission, whatever the store then decides. */
    predicate AsksStore(r: Request) {
      || (r.HoldMessage? && MaySubmit(r.submission))
      || (r.GhostForward? && MayForward(r.forwarded, r.hopsLeft) && r.keptHere)
    }

    predicate MayForward(e: Submission, hopsLeft: int) {
      e.valid && |peer| == 32 && !peerAnonymous && 0 <= hopsLeft <= MAX_GHOST_HOPS
    }

    /** HOLD_MESSAGE: whatever the store decides, the session goes on. */
    method HandleHoldMessage(store: HoldStore.Store, e: Submission, now: int) returns (verdict: Option<Verdict>)
      requires store.Valid(now)
      modifies store`held, store`replay
      ensures store.Valid(now)
      ensures verdict.Some? <==> e.rawSize <= 2097152 && |peer| == 32 && !peerAnonymous && e.valid
      ensures verdict.Some? ==>
                verdict.value == Decide(old(store.Contents()), store.limits, store.legacy,
                                        HoldTables.Request(e.id, e.mailbox, e.payload, now + 2592000, peer), now)
      ensures store.Contents() == if MaySubmit(e)
                                  then Admitted(old(store.Contents()), store.limits, store.legacy, StoreRequest(e, now),
                                                now)
                                  else old(store.Contents())
    {
      if e.rawSize > MAX_OPAQUE_ENVELOPE_SIZE || |peer| != 32 || peerAnonymous || !e.valid {
        return None;
      }
      var v := store.StoreForUser(StoreRequest(e, now), now);
      verdict := Some(v);
    }

    /** The store's part in a GHOST_FORWARD: it keeps the envelope when every hop failed. */
    method KeepForwarded(store: HoldStore.Store, e: Submission, hopsLeft: int, keptHere: bool, now: int)
      returns (asked: bool)
      requires store.Valid(now)
      modifies store`held, store`replay
      ensures store.Valid(now)
      ensures asked <==> keptHere && e.valid && |peer| == 32 && !peerAnonymous && 0 <= hopsLeft <= 5
      ensures StoreRequest(e, now) == HoldTables.Request(e.id, e.mailbox, e.payload, now + 2592000, peer)
      ensures store.Contents() == if asked
                                  then Admitted(old(store.Contents()), store.limits, store.legacy, StoreRequest(e, now),
                                                now)
                                  else old(store.Contents())
    {
      if !e.valid || |peer| != 32 || peerAnonymous || hopsLeft < 0 || hopsLeft > MAX_GHOST_HOPS || !keptHere {
        return false;
      }
      var _ := store.StoreForUser(StoreRequest(e, now), now);
      return true;
    }

    /**
     One request, of any kind; false is an error, which ends the session. Its change to the store is
     legal: an admission for the peer, or the removal of the one row that an owner acknowledges as
     delivered after it was offered and while it is held.
     */
    method Dispatch(store: HoldStore.Store, registry: Registry.MailboxRegistry, r: Request,
                    decode: Bytes -> Option<EnvelopeHead>, now: int)
      returns (ok: bool, ghost change: Change, ghost offered: seq<string>)
      requires Valid() && store.Valid(now) && registry.Valid(now)
      modifies this`mailboxID, this`fetched, this`log, store`held, store`replay, registry`owners, registry`routes
      ensures Valid() && store.Valid(now) && registry.Valid(now)
      ensures change.before == old(store.Contents()) && change.after == store.Contents() && change.now == now
      ensures change.cause != ByOthers && change.Legal(store.limits, store.legacy, peer)
      ensures change.cause.Admission? <==> AsksStore(r)
      ensures AsksStore(r) ==>
                change.cause.request == StoreRequest(if r.HoldMessage? then r.submission else r.forwarded, now)
      ensures change.cause.Removal? <==>
                r.DeliveryAck? && old(StandingAt(store, registry)).Removes(r.id, r.ackMailbox, r.status)
      ensures change.cause.Removal? ==> change.cause == Removal(r.id, r.ackMailbox)
      ensures registry.Contents() == if r.RegisterRoute? && old(MayRegister(r))
                                     then Registry.Granted(old(registry.Contents()), registry.limits, ClaimOf(r, now),
                                                           now)
                                     else old(registry.Contents())
      ensures Answers(r, old(StandingAt(store, registry)), StandingAt(store, registry), ok, offered, decode, now)
      ensures DeletedBy(log) == DeletedBy(old(log)) +
                                if change.cause.Removal? then [(change.cause.id, change.cause.mailbox)] else []
    {
      hide AcksMatchOffers, Good, Registry.Good, MayAct, MayRegister, Decide, Admitted, AnswersFetch, AnswersAck;
      hide Registry.Decide, MayActOn, DeletedBy;
      ok, offered := true, [];
      ghost var before := store.Contents();
      ghost var was := log;
      ghost var cause := Nothing;
      match r {
        case Incoming(wellFormed) => ok := wellFormed;
        case HoldMessage(e) =>
          var verdict := HandleHoldMessage(store, e, now);
          if verdict.Some? {
            cause := Admission(StoreRequest(e, now));
          }
        case Fetch(mailbox) =>
          offered := FetchAndNote(store, registry, mailbox, decode, now);
        case DeliveryAck(id, mailbox, status) =>
          cause, ok := AcknowledgeAndNote(store, registry, id, mailbox, status, now);
        case RegisterRoute(_, _, _, _) =>
          var registered := HandleRegisterRoute(registry, r, now);
          DeletedAppend(was, Privileged(r.routeMailbox));
        case LookupRoute(_) =>
        case RelayProbe(_) =>
        case GhostForward(e, hopsLeft, keptHere) =>
          var asked := KeepForwarded(store, e, hopsLeft, keptHere, now);
          if asked {
            cause := Admission(StoreRequest(e, now));
          }
        case Unsupported => ok := false;
      }
      change := Change(cause, before, store.Contents(), now);
    }

    method FetchAndNote(store: HoldStore.Store, registry: Registry.MailboxRegistry, mailbox: string,
                        decode: Bytes -> Option<EnvelopeHead>, now: int)
      returns (ghost offered: seq<string>)
      requires Valid() && store.Valid(now)
      modifies this`mailboxID, this`fetched, this`log
      ensures Valid()
      ensures AnswersFetch(old(StandingAt(store, registry)), StandingAt(store, registry), mailbox, offered, decode, now)
      ensures DeletedBy(log) == DeletedBy(old(log))
    {
      hide AcksMatchOffers, MayActOn, ShowsOldest, IsListing, Offerable, OffersOf, Pending, EqualFold;
      ghost var was := log;
      var answered, listed := HandleFetchMessages(store, registry, mailbox, decode, now);
      offered := answered;
      OffersDeleteNothing(was, offered, mailbox);
    }

    method AcknowledgeAndNote(store: HoldStore.Store, registry: Registry.MailboxRegistry, id: string, mailbox: string,
                              status: AckStatus, ghost now: int)
      returns (ghost cause: Cause, ok: bool)
      requires Valid() && store.Valid(now)
      modifies this`mailboxID, this`fetched, this`log, store`held
      ensures Valid() && store.Valid(now)
      ensures cause == if old(StandingAt(store, registry)).Removes(id, mailbox, status) then Removal(id, mailbox)
                       else Nothing
      ensures Change(cause, old(store.Contents()), store.Contents(), now).Legal(store.limits, store.legacy, peer)
      ensures AnswersAck(old(StandingAt(store, registry)), StandingAt(store, registry), id, mailbox, status, ok)
      ensures ok <==> !EndsSession(DeliveryAck(id, mailbox, status), old(StandingAt(store, registry)))
      ensures DeletedBy(log) == DeletedBy(old(log)) + if cause.Removal? then [(id, mailbox)] else []
    {
      hide AcksMatchOffers, MayActOn, Pending, Good, EqualFold, DeletedBy, Deletions, AnswersAck, EndsSession;
      hide AckAnswer, Standing.Removes;
      ghost var was, s := log, StandingAt(store, registry);
      var answer := HandleDeliveryAck(store, registry, id, mailbox, status, now);
      AnswersAreAcks(s, StandingAt(store, registry), id, mailbox, status, answer);
      RemovedRowWasHeld(s, id, mailbox, status);
      ok := answer == DeleteAcked;
      cause := if ok && status == Delivered then Removal(id, mailbox) else Nothing;
      DeletedAppend(was, Ack(id, mailbox, ok && status == Delivered));
    }

    /** What happens up to and with one request; a limiter may turn it away first. */
    method ServeOne(store: HoldStore.Store, registry: Registry.MailboxRegistry, r: Request, turnedAway: bool,
                    decode: Bytes -> Option<EnvelopeHead>, start: int, ghost first: Tables, ghost before: seq<Change>)
      returns (ok: bool, end: int, ghost changes: seq<Change>, ghost mid: Standing, ghost offered: seq<string>)
      requires Valid() && store.Valid(start) && registry.Valid(start)
      requires Chained(first, before, store.Contents()) && RemovedIn(before) == DeletedBy(log)
      requires forall k :: 0 <= k < |before| ==> before[k].Legal(store.limits, store.legacy, peer)
      modifies this`mailboxID, this`fetched, this`log, store`held, store`replay, registry`owners, registry`routes
      ensures Valid() && store.Valid(end) && registry.Valid(end) && start <= end && before <= changes
      ensures Chained(first, changes, store.Contents()) && RemovedIn(changes) == DeletedBy(log)
      ensures forall k :: 0 <= k < |changes| ==> changes[k].Legal(store.limits, store.legacy, peer)
      ensures |changes| > |before| && changes[|before|] == Change(ByOthers, old(store.Contents()),
                                                                  changes[|before|].after, end)
      ensures mid == old(StandingAt(store, registry)).(held := changes[|before|].after.held, owners := mid.owners)
      ensures OwnersStay(old(registry.owners), mid.owners)
      ensures turnedAway ==> !ok
      ensures !turnedAway ==> Answers(r, mid, StandingAt(store, registry), ok, offered, decode, end)
    {
      hide Good, Registry.Good, AcksMatchOffers, Chained, RemovedIn, DeletedBy, Answers, Pending, MayActOn;
      ghost var t := store.Contents();
      end := OthersAct(store, registry, (r: HoldTables.Request) => true, start);
      ghost var others := Change(ByOthers, t, store.Contents(), end);
      ChangeAppends(first, before, others);
      changes, mid, offered := before + [others], StandingAt(store, registry), [];
      ok := false;
      if !turnedAway {
        ghost var change;
        ok, change, offered := Dispatch(store, registry, r, decode, end);
        ChangeAppends(first, changes, change);
        changes := changes + [change];
      }
    }

    /**
     Serves requests of any kinds in order, up to the exchanges one session may carry, and stops at the
     first that is turned away or answered with an error. Time passes and other parties use the store
     and the registry in between. The changes account for all that happens to the store: those of this
     session are admissions for its peer and removals of single rows, the removals are exactly the
     deletions of its log, these are at most its offers, and all of it was for one mailbox up to case.

     When an owner fetches and then acknowledges as delivered all that it was offered, and nobody
     disturbs the session, every request is answered and exactly what was offered has gone: the oldest of
     what was due.
     */
    method Serve(store: HoldStore.Store, registry: Registry.MailboxRegistry, requests: seq<Request>,
                 decode: Bytes -> Option<EnvelopeHead>, start: int)
      returns (served: nat, end: int, ok: bool, turnedAway: bool, ghost offered: seq<string>,
               ghost changes: seq<Change>)
      requires Valid() && store.Valid(start) && registry.Valid(start) && log == []
      modifies this`mailboxID, this`fetched, this`log, store`held, store`replay, registry`owners, registry`routes
      ensures Valid() && store.Valid(end) && registry.Valid(end) && start <= end
      ensures served <= |requests| && served <= 272 && (ok && !turnedAway && served < |requests| ==> served == 272)
      ensures Chained(old(store.Contents()), changes, store.Contents())
      ensures forall k :: 0 <= k < |changes| ==> changes[k].Legal(store.limits, store.legacy, peer)
      ensures RemovedIn(changes) == DeletedBy(log) && |DeletedBy(log)| == Deletions(log) <= Offers(log)
      ensures forall k :: 0 <= k < |log| ==> EqualFold(log[k].mailbox, mailboxID)
      ensures FetchesAndAcks(requests, old(StandingAt(store, registry)), offered, decode) &&
              Undisturbed(changes) && !turnedAway ==>
                && ok && served == |requests| && changes != []
                && ShowsOldest(offered, old(store.held), FirstMailbox(requests), changes[0].now, 256)
                && store.held == Without(old(store.held), offered)
    {
      hide Good, Registry.Good, AcksMatchOffers, Chained, RemovedIn, DeletedBy, Answers, Pending, OnCourse, Readable;
      hide FetchesAndAcks, ShowsOldest, Undisturbed, MayActOn;
      served, end, ok, turnedAway, offered, changes := 0, start, true, false, [], [];
      ghost var s := StandingAt(store, registry);
      NothingServed(store.Contents());
      while ok && served < |requests| && served < MAX_SESSION_REQUESTS
        invariant served <= |requests| && served <= MAX_SESSION_REQUESTS && !turnedAway
        invariant Valid() && store.Valid(end) && registry.Valid(end) && start <= end
        invariant Chained(s.Tables(old(store.replay)), changes, store.Contents())
        invariant forall k :: 0 <= k < |changes| ==> changes[k].Legal(store.limits, store.legacy, peer)
        invariant RemovedIn(changes) == DeletedBy(log)
        invariant served == 0 ==> ok && StandingAt(store, registry) == s && changes == []
        invariant served > 0 && FetchesAndAcks(requests, s, offered, decode) && Undisturbed(changes) ==>
                    && ok && changes != [] && ShowsOldest(offered, s.held, FirstMailbox(requests), changes[0].now, 256)
                    && served - 1 <= |offered|
                    && OnCourse(StandingAt(store, registry), s.held, offered, served - 1, FirstMailbox(requests))
        decreases |requests| - served
      {
        turnedAway := *;
        ghost var before, was, more, mid := changes, StandingAt(store, registry), [], s;
        ok, end, changes, mid, more := ServeOne(store, registry, requests[served], turnedAway, decode, end,
                                                s.Tables(old(store.replay)), changes);
        if turnedAway {
          break;
        }
        if served == 0 {
          offered := more;
        }
        CourseStep(requests, s, was, mid, StandingAt(store, registry), served, offered, more, before, changes, ok,
                   decode, end);
        served := served + 1;
      }
      if FetchesAndAcks(requests, s, offered, decode) && changes != [] {
        CourseEnds(requests, s, StandingAt(store, registry), offered, decode, changes[0].now);
      }
      NotEmpty(requests, s, offered, decode);
      DeletionsAtMostOffers(log);
      DeletionsAreDeleted(log);
    }
  }

  // ---- what others do meanwhile ----

  /** Every row was there before or comes from a submission that others may make. */
  ghost predicate ComeFrom(before: map<string, HeldRow>, after: map<string, HeldRow>,
                           may: HoldTables.Request -> bool)
  {
    forall id :: id in after ==>
      || (id in before && after[id] == before[id])
      || exists r :: may(r) && r.id == id && r.mailbox == after[id].mailbox && r.payload == after[id].payload
  }

  /** A mailbox keeps its owner. */
  ghost predicate OwnersStay(before: map<string, Bytes>, after: map<string, Bytes>) {
    forall mailbox :: mailbox in before ==> mailbox in after && after[mailbox] == before[mailbox]
  }

  /** Other sessions, background forwards, cleanups and time, before the next request of this session. */
  method OthersAct(store: HoldStore.Store, registry: Registry.MailboxRegistry, may: HoldTables.Request -> bool,
                   start: int)
    returns (end: int)
    requires store.Valid(start) && registry.Valid(start)
    modifies store`held, store`replay, registry`owners, registry`routes
    ensures start <= end && store.Valid(end) && registry.Valid(end)
    ensures ComeFrom(old(store.held), store.held, may) && OwnersStay(old(registry.owners), registry.owners)
  {
    hide Good, Registry.Good, ComeFrom;
    end := start;
    NothingCameYet(store.held, may);
    var rounds: nat := *;
    while rounds > 0
      invariant start <= end && store.Valid(end) && registry.Valid(end)
      invariant ComeFrom(old(store.held), store.held, may) && OwnersStay(old(registry.owners), registry.owners)
    {
      ghost var held := store.held;
      var later :| later >= end;
      LaterIsGood(store.Contents(), store.limits, store.legacy, end, later);
      Registry.RoutesThinOut(registry.Contents(), registry.Contents(), registry.limits, end, later);
      end := later;
      OneActsOnStore(store, may, end);
      OneActsOnRegistry(registry, end);
      TheyComeFrom(old(store.held), held, store.held, may);
      rounds := rounds - 1;
    }
  }

  method OneActsOnStore(store: HoldStore.Store, may: HoldTables.Request -> bool, now: int)
    requires store.Valid(now)
    modifies store`held, store`replay
    ensures store.Valid(now) && ComeFrom(old(store.held), store.held, may)
  {
    hide Good, Decide;
    var op: Op := *;
    match op {
      case Admit(r) =>
        if may(r) {
          var _ := store.StoreForUser(r, now);
        }
      case Delete(id, mailbox) => var _ := store.Delete(id, mailbox, now);
      case Expire => var _ := store.ExpireHeld(now);
    }
  }

  method OneActsOnRegistry(registry: Registry.MailboxRegistry, now: int)
    requires registry.Valid(now)
    modifies registry`owners, registry`routes
    ensures registry.Valid(now) && OwnersStay(old(registry.owners), registry.owners)
  {
    hide Registry.Good;
    var claim: Registry.Claim := *;
    var sweep: bool := *;
    if sweep {
      registry.DeleteExpiredRoutes(now);
    } else {
      var _ := registry.HandleRegisterRoute(claim, now);
    }
  }

  lemma NothingCameYet(held: map<string, HeldRow>, may: HoldTables.Request -> bool)
    ensures ComeFrom(held, held, may)
  {
  }

  lemma TheyComeFrom(first: map<string, HeldRow>, held: map<string, HeldRow>, last: map<string, HeldRow>,
                     may: HoldTables.Request -> bool)
    requires ComeFrom(first, held, may) && ComeFrom(held, last, may)
    ensures ComeFrom(first, last, may)
  {
  }

  lemma TrimToken(s: string)
    requires IsToken(s)
    ensures Trim(s) == s
  {
    assert IsHexDigit(s[0]) && IsHexDigit(s[|s| - 1]);
  }

  lemma DeletionsAppend(log: seq<Entry>, e: Entry)
    ensures Deletions(log + [e]) == Deletions(log) + if e.Ack? && e.deleted then 1 else 0
  {
    assert (log + [e])[..|log|] == log;
  }
}
