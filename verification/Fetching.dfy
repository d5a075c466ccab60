/** A mailbox owner polling a Daddy: one fetch with its acknowledgements, and polling until nothing is left. */
module Fetching {
  import opened Wrappers
  import opened ByteStrings
  import opened Resource
  import opened Ages
  import opened Tokens
  import opened HoldTables
  import opened Listings
  import opened Sessions
  import HoldStore
  import Registry

  /** The rows left when the listed ones that the owner accepted have been acknowledged. */
  function AfterAcks(held: map<string, HeldRow>, ids: seq<string>, accepts: string -> bool): map<string, HeldRow> {
    map id | id in held && !(id in ids && accepts(id)) :: held[id]
  }

  /** What the handlers pass on to a store: valid envelopes in the form they decode from. */
  predicate Encodes(r: HoldTables.Request, decode: Bytes -> Option<EnvelopeHead>) {
    r.id != "" && decode(r.payload) == Some(EnvelopeHead(r.id, r.mailbox))
  }

  lemma ArrivalsAreReadable(before: map<string, HeldRow>, after: map<string, HeldRow>,
                            may: HoldTables.Request -> bool, decode: Bytes -> Option<EnvelopeHead>)
    requires Readable(before, decode) && ComeFrom(before, after, may)
    requires forall r :: may(r) ==> Encodes(r, decode)
    ensures Readable(after, decode)
  {
  }

  // ---- what becomes of the store while it is polled ----

  /** A poll removes single rows; all else is done by others. */
  ghost predicate IsPollChange(c: Change) {
    c.cause.ByOthers? || (c.cause.Removal? && c.RemovesOnly(c.cause.id, c.cause.mailbox))
  }

  ghost predicate PollLog(first: Tables, changes: seq<Change>, last: Tables) {
    Chained(first, changes, last) && forall k :: 0 <= k < |changes| ==> IsPollChange(changes[k])
  }

  lemma PollLogGrows(first: Tables, changes: seq<Change>, c: Change)
    requires PollLog(first, changes, c.before) && IsPollChange(c)
    ensures PollLog(first, changes + [c], c.after)
    ensures RemovedIn(changes + [c]) ==
            RemovedIn(changes) + if c.cause.Removal? then [(c.cause.id, c.cause.mailbox)] else []
  {
    ChangeAppends(first, changes, c);
  }

  lemma {:induction false} PollLogsJoin(first: Tables, a: seq<Change>, mid: Tables, b: seq<Change>, last: Tables)
    requires PollLog(first, a, mid) && PollLog(mid, b, last)
    ensures PollLog(first, a + b, last) && RemovedIn(a + b) == RemovedIn(a) + RemovedIn(b)
  {
    if b == [] {
      assert a + b == a;
    } else {
      var front, c := b[..|b| - 1], b[|b| - 1];
      PollLogsJoin(first, a, mid, front, c.before);
      PollLogGrows(first, a + front, c);
      assert a + b == a + front + [c];
    }
  }

  function InMailbox(ids: seq<string>, mailbox: string): (pairs: seq<(string, string)>)
    ensures |pairs| == |ids|
  {
    seq(|ids|, i requires 0 <= i < |ids| => (ids[i], mailbox))
  }

  /** Whether others changed, removed or brought the row of that ID. */
  ghost predicate TouchedBy(changes: seq<Change>, id: string) {
    exists k :: 0 <= k < |changes| && changes[k].cause.ByOthers? &&
      Lookup(changes[k].before.held, id) != Lookup(changes[k].after.held, id)
  }

  /** A row that others left alone is gone if and only if it was removed, and is otherwise unchanged. */
  lemma {:induction false} UntouchedRows(first: Tables, changes: seq<Change>, last: Tables, ids: seq<string>,
                                         mailbox: string, id: string)
    requires PollLog(first, changes, last) && RemovedIn(changes) == InMailbox(ids, mailbox)
    requires !TouchedBy(changes, id)
    ensures Lookup(last.held, id) == if id in ids then None else Lookup(first.held, id)
  {
    if changes != [] {
      var front, c := changes[..|changes| - 1], changes[|changes| - 1];
      assert forall k :: 0 <= k < |front| ==> front[k] == changes[k];
      assert IsPollChange(c);
      if c.cause.Removal? {
        var before := ids[..|ids| - 1];
        RemovedBefore(front, c, ids, mailbox);
        UntouchedRows(first, front, c.before, before, mailbox, id);
        assert ids == before + [c.cause.id];
      } else {
        UntouchedRows(first, front, c.before, ids, mailbox, id);
        assert Lookup(c.before.held, id) == Lookup(c.after.held, id);
      }
    }
  }

  lemma RemovedBefore(front: seq<Change>, c: Change, ids: seq<string>, mailbox: string)
    requires c.cause.Removal?
    requires RemovedIn(front) + [(c.cause.id, c.cause.mailbox)] == InMailbox(ids, mailbox)
    ensures ids != [] && ids[|ids| - 1] == c.cause.id && c.cause.mailbox == mailbox
    ensures RemovedIn(front) == InMailbox(ids[..|ids| - 1], mailbox)
  {
    var pairs := RemovedIn(front) + [(c.cause.id, c.cause.mailbox)];
    assert |pairs| == |RemovedIn(front)| + 1 == |ids|;
    assert pairs[|ids| - 1] == InMailbox(ids, mailbox)[|ids| - 1];
    assert forall k :: 0 <= k < |ids| - 1 ==> RemovedIn(front)[k] == pairs[k];
  }

  /** Nothing new comes for the mailbox. */
  ghost predicate BringsNothing(c: Change, mailbox: string) {
    OnlyLeave(c.before.held, c.after.held, mailbox)
  }

  ghost predicate OnlyLeave(before: map<string, HeldRow>, after: map<string, HeldRow>, mailbox: string) {
    forall id :: IsHeldFor(after, id, mailbox) ==> id in before && after[id] == before[id]
  }

  ghost predicate Quiet(changes: seq<Change>, mailbox: string) {
    forall k :: 0 <= k < |changes| ==> BringsNothing(changes[k], mailbox)
  }

  /** When nothing new comes for the mailbox, what was removed stays away. */
  lemma {:induction false} RemovedStayAway(first: Tables, changes: seq<Change>, last: Tables, ids: seq<string>,
                                           mailbox: string)
    requires PollLog(first, changes, last) && RemovedIn(changes) == InMailbox(ids, mailbox) && Quiet(changes, mailbox)
    ensures OnlyLeave(first.held, last.held, mailbox)
    ensures forall id :: id in ids ==> !IsHeldFor(last.held, id, mailbox)
  {
    if changes != [] {
      var front, c := changes[..|changes| - 1], changes[|changes| - 1];
      assert forall k :: 0 <= k < |front| ==> front[k] == changes[k];
      assert IsPollChange(c) && BringsNothing(c, mailbox);
      if c.cause.Removal? {
        RemovedBefore(front, c, ids, mailbox);
        RemovedStayAway(first, front, c.before, ids[..|ids| - 1], mailbox);
        assert ids == ids[..|ids| - 1] + [c.cause.id];
      } else {
        RemovedStayAway(first, front, c.before, ids, mailbox);
      }
    } else {
      assert ids == [];
    }
  }

  // ---- one poll ----

  /** Others act and time passes, before the daemon comes to the next acknowledgement. */
  method Elapse(session: Session, store: HoldStore.Store, registry: Registry.MailboxRegistry, mailbox: string,
                decode: Bytes -> Option<EnvelopeHead>, start: int, ghost first: Tables, ghost before: seq<Change>)
    returns (end: int, ghost changes: seq<Change>)
    requires store.Valid(start) && registry.Valid(start) && session.MayAct(registry, mailbox)
    requires Readable(store.held, decode) && PollLog(first, before, store.Contents())
    modifies store`held, store`replay, registry`owners, registry`routes
    ensures start <= end && store.Valid(end) && registry.Valid(end) && session.MayAct(registry, mailbox)
    ensures Readable(store.held, decode) && PollLog(first, changes, store.Contents())
    ensures RemovedIn(changes) == RemovedIn(before)
    ensures changes == before + [Change(ByOthers, old(store.Contents()), store.Contents(), end)]
  {
    hide Good, Registry.Good, Readable, PollLog, ComeFrom, Chained, RemovedIn;
    ghost var t := store.Contents();
    var may := (r: HoldTables.Request) => Encodes(r, decode);
    end := OthersAct(store, registry, may, start);
    ArrivalsAreReadable(t.held, store.held, may, decode);
    ghost var c := Change(ByOthers, t, store.Contents(), end);
    PollLogGrows(first, before, c);
    changes := before + [c];
  }

  /** One acknowledgement of an offered envelope; it is honoured unless the envelope was accepted and is gone. */
  method Acknowledge(session: Session, store: HoldStore.Store, registry: Registry.MailboxRegistry, id: string,
                     mailbox: string, status: AckStatus, ghost now: int, ghost first: Tables, ghost before: seq<Change>)
    returns (acked: bool, ghost changes: seq<Change>)
    requires session.Valid() && store.Valid(now) && session.MayAct(registry, mailbox) && status != Unknown
    requires id != "" && id in session.fetched && session.fetched[id] == mailbox
    requires PollLog(first, before, store.Contents())
    modifies session`mailboxID, session`fetched, session`log, store`held
    ensures session.Valid() && store.Valid(now) && session.MayAct(registry, mailbox)
    ensures acked <==> status == Rejected || IsHeldFor(old(store.held), id, mailbox)
    ensures session.fetched == old(session.fetched) - {id}
    ensures store.held == if acked && status == Delivered then old(store.held) - {id} else old(store.held)
    ensures PollLog(first, changes, store.Contents())
    ensures RemovedIn(changes) == RemovedIn(before) + if acked && status == Delivered then [(id, mailbox)] else []
  {
    hide PollLog, RemovedIn, Chained, Good, AcksMatchOffers, Pending;
    ghost var t := store.Contents();
    var answer := session.HandleDeliveryAck(store, registry, id, mailbox, status, now);
    acked := answer == DeleteAcked;
    changes := before;
    if acked && status == Delivered {
      ghost var c := Change(Removal(id, mailbox), t, store.Contents(), now);
      PollLogGrows(first, before, c);
      changes := before + [c];
    }
  }

  /**
   Where the connection of a poll breaks, if it does: on the answer to the fetch, or in the exchange
   of one acknowledgement, which either does not arrive or is not answered.
   */
  datatype Break = Unbroken | FetchLost | AckLost(index: nat) | AnswerLost(index: nat)

  /**
   What a poll came to: counts of listed envelopes that were reported, acknowledged at the store and
   received, in listing order; and whether it was cut short because the next one was no longer held.
   */
  datatype Progress = Progress(reported: nat, removed: nat, received: nat, gone: bool)
  {
    /** The owner is ahead of the store, and the store of the report, by one envelope at most in all. */
    predicate Within(n: nat, plan: Break) {
      && reported <= removed <= received <= reported + 1 && received <= n
      && (gone ==> removed == reported && received == reported + 1)
      && (reported < n && !gone ==> plan != Unbroken)
      && (plan.AckLost? && reported < n && !gone ==>
            removed == reported == plan.index && received == reported + 1)
      && (plan.AnswerLost? && reported < n && !gone ==>
            removed == received == reported + 1 && reported == plan.index)
      && (plan == FetchLost ==> received == 0)
    }
  }

  function ReachOf(p: Progress, listed: nat): Reach {
    if p.removed == listed then Complete else if p.gone || p.removed > 0 then CutShort else Lost
  }

  function Accepted(ids: seq<string>, accepts: string -> bool): seq<string> {
    if ids == [] then []
    else Accepted(ids[..|ids| - 1], accepts) + if accepts(ids[|ids| - 1]) then [ids[|ids| - 1]] else []
  }

  lemma AcceptedOneMore(ids: seq<string>, i: nat, accepts: string -> bool, mailbox: string)
    requires i < |ids|
    ensures Accepted(ids[..i + 1], accepts) ==
            if accepts(ids[i]) then Accepted(ids[..i], accepts) + [ids[i]] else Accepted(ids[..i], accepts)
    ensures accepts(ids[i]) ==>
              InMailbox(Accepted(ids[..i + 1], accepts), mailbox) ==
              InMailbox(Accepted(ids[..i], accepts), mailbox) + [(ids[i], mailbox)]
  {
    assert ids[..i + 1][..i] == ids[..i];
  }

  lemma {:induction false} AcceptedAre(ids: seq<string>, accepts: string -> bool)
    ensures forall id :: id in Accepted(ids, accepts) <==> id in ids && accepts(id)
  {
    if ids != [] {
      AcceptedAre(ids[..|ids| - 1], accepts);
      assert ids == ids[..|ids| - 1] + [ids[|ids| - 1]];
    }
  }

  /**
   One poll: fetch, receive each envelope, acknowledge it and read the answer, until the connection
   breaks or an accepted envelope turns out to be gone. Others use the store and time passes before every
   acknowledgement. The poll has removed exactly the accepted ones among the listed envelopes whose
   acknowledgement was honoured; it reports those accepted whose answer came back; and the two counts and
   that of the envelopes received differ by one at most. A row that others left alone is gone exactly if
   the poll removed it, and only what others removed cuts a poll short.
   */
  method FetchHeldMessages(session: Session, store: HoldStore.Store, registry: Registry.MailboxRegistry,
                           mailbox: string, decode: Bytes -> Option<EnvelopeHead>, accepts: string -> bool,
                           plan: Break, now: int)
    returns (delivered: nat, accepted: seq<string>, end: int, ghost listed: seq<string>, ghost p: Progress,
             ghost changes: seq<Change>)
    requires session.Valid() && store.Valid(now) && registry.Valid(now) && session.MayAct(registry, mailbox)
    requires Readable(store.held, decode)
    modifies session`mailboxID, session`fetched, session`log
    modifies store`held, store`replay, registry`owners, registry`routes
    ensures session.Valid() && now <= end && store.Valid(end) && registry.Valid(end) && Readable(store.held, decode)
    ensures session.MayAct(registry, mailbox)
    ensures IsListing(listed, Live(old(store.held), mailbox, now), MAX_HELD_MESSAGE_BATCH)
    ensures ShowsOldest(listed, old(store.held), mailbox, now, 256)
    ensures p.Within(|listed|, plan)
    ensures delivered == |Accepted(listed[..p.reported], accepts)|
    ensures accepted == Accepted(listed[..p.received], accepts)
    ensures PollLog(old(store.Contents()), changes, store.Contents())
    ensures RemovedIn(changes) == InMailbox(Accepted(listed[..p.removed], accepts), mailbox)
    ensures forall id :: !TouchedBy(changes, id) ==>
              Lookup(store.held, id) == Lookup(AfterAcks(old(store.held), listed[..p.removed], accepts), id)
    ensures p.gone ==> accepts(listed[p.reported]) && !IsHeldFor(store.held, listed[p.reported], mailbox)
    ensures p.gone ==> TouchedBy(changes, listed[p.reported])
  {
    hide IsListing, ShowsOldest, Live, Offerable, OffersOf, Pending, AfterAcks, Accepted, PollLog, RemovedIn;
    hide TouchedBy, Good, Registry.Good, AcksMatchOffers;
    ghost var t := store.Contents();
    var offered;
    offered, listed := session.HandleFetchMessages(store, registry, mailbox, decode, now);
    ListedBelong(listed, store.held, mailbox, now);
    ReadableIsOffered(listed, store.held, mailbox, decode);
    OffersArePending(old(session.log), offered, mailbox);
    if plan == FetchLost {
      NothingPolled(t, listed, accepts, mailbox);
      delivered, accepted, end, p, changes := 0, [], now, Progress(0, 0, 0, false), [];
    } else {
      delivered, accepted, end, p, changes :=
        AcknowledgeEach(session, store, registry, offered, mailbox, decode, accepts, plan, now);
    }
    RowsLeft(t, changes, store.Contents(), listed, p, mailbox, accepts);
  }

  method AcknowledgeEach(session: Session, store: HoldStore.Store, registry: Registry.MailboxRegistry,
                         offered: seq<string>, mailbox: string, decode: Bytes -> Option<EnvelopeHead>,
                         accepts: string -> bool, plan: Break, now: int)
    returns (delivered: nat, accepted: seq<string>, end: int, ghost p: Progress, ghost changes: seq<Change>)
    requires session.Valid() && store.Valid(now) && registry.Valid(now) && session.MayAct(registry, mailbox)
    requires Readable(store.held, decode) && Distinct(offered) && plan != FetchLost
    requires forall id :: id in offered ==>
               id != "" && id in session.fetched && session.fetched[id] == mailbox
    modifies session`mailboxID, session`fetched, session`log
    modifies store`held, store`replay, registry`owners, registry`routes
    ensures session.Valid() && now <= end && store.Valid(end) && registry.Valid(end) && Readable(store.held, decode)
    ensures session.MayAct(registry, mailbox)
    ensures p.Within(|offered|, plan)
    ensures delivered == |Accepted(offered[..p.reported], accepts)|
    ensures accepted == Accepted(offered[..p.received], accepts)
    ensures PollLog(old(store.Contents()), changes, store.Contents())
    ensures RemovedIn(changes) == InMailbox(Accepted(offered[..p.removed], accepts), mailbox)
    ensures p.gone ==> accepts(offered[p.reported]) && !IsHeldFor(store.held, offered[p.reported], mailbox)
  {
    hide Session.Valid, Session.MayAct, Good, Registry.Good, Accepted, PollLog, RemovedIn, InMailbox, Readable;
    ghost var t := store.Contents();
    NothingPolled(t, offered, accepts, mailbox);
    delivered, accepted, end, p, changes := 0, [], now, Progress(0, 0, 0, false), [];
    var i := 0;
    while i < |offered|
      invariant i <= |offered| && p == Progress(i, i, i, false) && (plan != Unbroken ==> i <= plan.index)
      invariant session.Valid() && session.MayAct(registry, mailbox)
      invariant now <= end && store.Valid(end) && registry.Valid(end) && Readable(store.held, decode)
      invariant PollLog(t, changes, store.Contents())
      invariant RemovedIn(changes) == InMailbox(accepted, mailbox)
      invariant delivered == |accepted| && accepted == Accepted(offered[..i], accepts)
      invariant forall k :: i <= k < |offered| ==>
                offered[k] in session.fetched && session.fetched[offered[k]] == mailbox
    {
      AcceptedOneMore(offered, i, accepts, mailbox);
      var status := if accepts(offered[i]) then Delivered else Rejected;
      if status == Delivered {
        accepted := accepted + [offered[i]];
      }
      p := p.(received := i + 1);
      end, changes := Elapse(session, store, registry, mailbox, decode, end, t, changes);
      if plan == AckLost(i) {
        return;
      }
      var acked;
      ghost var held := store.held;
      acked, changes := Acknowledge(session, store, registry, offered[i], mailbox, status, end, t, changes);
      FewerStayReadable(held, store.held, decode);
      if !acked {
        p := p.(gone := true);
        return;
      }
      p := p.(removed := i + 1);
      if plan == AnswerLost(i) {
        return;
      }
      if status == Delivered {
        delivered := delivered + 1;
      }
      i := i + 1;
      p := p.(reported := i);
    }
  }

  lemma NothingPolled(t: Tables, ids: seq<string>, accepts: string -> bool, mailbox: string)
    ensures ids[..0] == [] && Accepted([], accepts) == [] && InMailbox([], mailbox) == []
    ensures PollLog(t, [], t) && RemovedIn([]) == []
  {
  }

  lemma RowsLeft(first: Tables, changes: seq<Change>, last: Tables, listed: seq<string>, p: Progress, mailbox: string,
                 accepts: string -> bool)
    requires PollLog(first, changes, last) && p.removed <= |listed| && Distinct(listed)
    requires RemovedIn(changes) == InMailbox(Accepted(listed[..p.removed], accepts), mailbox)
    requires p.gone ==> p.removed < |listed| && IsHeldFor(first.held, listed[p.removed], mailbox)
    requires p.gone ==> !IsHeldFor(last.held, listed[p.removed], mailbox)
    ensures forall id :: !TouchedBy(changes, id) ==>
              Lookup(last.held, id) == Lookup(AfterAcks(first.held, listed[..p.removed], accepts), id)
    ensures p.gone ==> TouchedBy(changes, listed[p.removed])
  {
    hide PollLog, RemovedIn, InMailbox, TouchedBy;
    var ids := listed[..p.removed];
    AcceptedAre(ids, accepts);
    forall id | !TouchedBy(changes, id)
      ensures Lookup(last.held, id) == Lookup(AfterAcks(first.held, ids, accepts), id)
      ensures p.gone ==> id != listed[p.removed]
    {
      UntouchedRows(first, changes, last, Accepted(ids, accepts), mailbox, id);
      assert p.gone ==> listed[p.removed] !in ids;
    }
  }

  lemma ListedBelong(ids: seq<string>, held: map<string, HeldRow>, mailbox: string, now: int)
    requires IsListing(ids, Live(held, mailbox, now), MAX_HELD_MESSAGE_BATCH)
    ensures |ids| <= MAX_HELD_MESSAGE_BATCH && Distinct(ids) && forall id :: id in ids ==>
              id in held && held[id].mailbox == mailbox
  {
  }

  ghost predicate OthersOnlyRemove(changes: seq<Change>) {
    forall k :: 0 <= k < |changes| && changes[k].cause.ByOthers? ==>
      IsPartOf(changes[k].after.held, changes[k].before.held)
  }

  /** When others only remove, the rows left are those the poll left, less what others removed. */
  lemma OthersOnlyTakeAway(first: Tables, changes: seq<Change>, last: Tables, left: map<string, HeldRow>)
    requires PollLog(first, changes, last) && OthersOnlyRemove(changes)
    requires forall id :: !TouchedBy(changes, id) ==> Lookup(last.held, id) == Lookup(left, id)
    ensures forall id :: TouchedBy(changes, id) ==> id !in last.held
    ensures last.held == map id | id in left && !TouchedBy(changes, id) :: left[id]
  {
    hide PollLog, OthersOnlyRemove, TouchedBy;
    forall id | TouchedBy(changes, id) ensures id !in last.held {
      TouchedAreGone(first, changes, last, id);
    }
    forall id | !TouchedBy(changes, id) ensures id in last.held <==> id in left {
      assert Lookup(last.held, id) == Lookup(left, id);
    }
  }

  lemma {:induction false} TouchedAreGone(first: Tables, changes: seq<Change>, last: Tables, id: string)
    requires PollLog(first, changes, last) && OthersOnlyRemove(changes) && TouchedBy(changes, id)
    ensures id !in last.held
  {
    var front, c := changes[..|changes| - 1], changes[|changes| - 1];
    assert forall k :: 0 <= k < |front| ==> front[k] == changes[k];
    assert IsPollChange(c);
    if TouchedBy(front, id) {
      TouchedAreGone(first, front, c.before, id);
    } else {
      assert c.cause.ByOthers? && Lookup(c.before.held, id) != Lookup(c.after.held, id);
    }
  }

  // ---- polling until nothing is left ----

  /** A poll that accepts everything is a round: unless it was lost, the first of what it listed has gone. */
  lemma PollIsDrainRound(before: map<string, HeldRow>, after: map<string, HeldRow>, ids: seq<string>, p: Progress,
                         plan: Break, mailbox: string, now: int, later: int)
    requires IsListing(ids, Live(before, mailbox, now), MAX_HELD_MESSAGE_BATCH) && p.Within(|ids|, plan)
    requires OnlyLeave(before, after, mailbox) && now <= later
    requires forall id :: id in ids[..p.removed] ==> !IsHeldFor(after, id, mailbox)
    requires p.gone ==> !IsHeldFor(after, ids[p.removed], mailbox)
    ensures DrainRound(before, after, Round(ids, ReachOf(p, |ids|)), now, later, mailbox)
  {
    hide IsListing;
    assert forall id :: id in Live(after, mailbox, later) ==> IsHeldFor(after, id, mailbox);
    if p.removed == |ids| {
      assert ids[..p.removed] == ids;
    } else if p.removed > 0 {
      assert ids[..p.removed][0] == ids[0];
    } else if p.gone {
      assert !IsHeldFor(after, ids[0], mailbox);
    }
  }

  lemma FewerStayReadable(held: map<string, HeldRow>, after: map<string, HeldRow>,
                          decode: Bytes -> Option<EnvelopeHead>)
    requires Readable(held, decode) && forall id :: id in after ==> id in held && after[id] == held[id]
    ensures Readable(after, decode)
  {
  }

  lemma DrainRunGrows(helds: seq<map<string, HeldRow>>, rounds: seq<Round>, nows: seq<int>, mailbox: string,
                      after: map<string, HeldRow>, r: Round, later: int)
    requires DrainRun(helds, rounds, nows, mailbox)
    requires DrainRound(helds[|rounds|], after, r, nows[|rounds|], later, mailbox)
    ensures DrainRun(helds + [after], rounds + [r], nows + [later], mailbox)
  {
    hide DrainRound;
  }

  lemma {:induction false} AllAccepted(ids: seq<string>, accepts: string -> bool)
    requires forall id :: accepts(id)
    ensures Accepted(ids, accepts) == ids
  {
    if ids != [] {
      AllAccepted(ids[..|ids| - 1], accepts);
    }
  }

  ghost predicate OwnsMailbox(registry: Registry.MailboxRegistry, mailbox: string, owner: Bytes)
    reads registry
  {
    IsToken(mailbox) && |owner| == 32 && mailbox in registry.owners && registry.owners[mailbox] == owner
  }

  /**
   One poll of an owner that accepts everything, in a session of its own, with others at the store during
   and after it and a connection that may break. Unless something new comes for the mailbox, it is a round
   of draining; on an unbroken connection it is not lost, and complete unless an envelope was gone.
   */
  method DrainRoundByPolling(store: HoldStore.Store, registry: Registry.MailboxRegistry, mailbox: string, owner: Bytes,
                             decode: Bytes -> Option<EnvelopeHead>, plan: Break, now: int)
    returns (delivered: nat, end: int, ghost round: Round, ghost changes: seq<Change>)
    requires store.Valid(now) && registry.Valid(now) && Readable(store.held, decode)
    requires OwnsMailbox(registry, mailbox, owner)
    modifies store`held, store`replay, registry`owners, registry`routes
    ensures now <= end && store.Valid(end) && registry.Valid(end) && Readable(store.held, decode)
    ensures OwnsMailbox(registry, mailbox, owner)
    ensures PollLog(old(store.Contents()), changes, store.Contents())
    ensures delivered <= |RemovedIn(changes)| <= delivered + 1
    ensures plan == Unbroken ==> delivered == |RemovedIn(changes)| && round.reach != Lost
    ensures round.reach == Complete ==> |RemovedIn(changes)| == |round.ids|
    ensures Quiet(changes, mailbox) ==> DrainRound(old(store.held), store.held, round, now, end, mailbox)
  {
    hide IsListing, Live, DrainRound, Good, Registry.Good, PollLog, RemovedIn, Readable, InMailbox, TouchedBy;
    var accepts := (id: string) => true;
    TrimToken(mailbox);
    ghost var t := store.Contents();
    var session := new Session(owner, "", false);
    var accepted;
    ghost var ids;
    ghost var p;
    ghost var during;
    delivered, accepted, end, ids, p, during :=
      FetchHeldMessages(session, store, registry, mailbox, decode, accepts, plan, now);
    AllAccepted(ids[..p.removed], accepts);
    AllAccepted(ids[..p.reported], accepts);
    end, changes := Elapse(session, store, registry, mailbox, decode, end, t, during);
    round := Round(ids, ReachOf(p, |ids|));
    if Quiet(changes, mailbox) {
      assert BringsNothing(changes[|during|], mailbox);
      RemovedStayAway(t, changes, store.Contents(), ids[..p.removed], mailbox);
      PollIsDrainRound(t.held, store.held, ids, p, plan, mailbox, now, end);
    }
  }

  /**
   An owner that accepts everything empties its mailbox by polling, each poll a session of its own, with
   others at the store all the time and connections that break as they like, as long as nothing new comes
   for this mailbox: as many polls that are not lost as it has live envelopes are enough even if each is
   cut short, and so are 544 complete ones under any valid configuration.
   */
  method DrainMailbox(store: HoldStore.Store, registry: Registry.MailboxRegistry, mailbox: string, owner: Bytes,
                      decode: Bytes -> Option<EnvelopeHead>, plans: seq<Break>, start: int)
    returns (delivered: nat, end: int, ghost rounds: seq<Round>, ghost changes: seq<Change>)
    requires store.Valid(start) && registry.Valid(start) && store.limits.Valid() && Readable(store.held, decode)
    requires OwnsMailbox(registry, mailbox, owner)
    modifies store`held, store`replay, registry`owners, registry`routes
    ensures start <= end && store.Valid(end) && registry.Valid(end) && |rounds| == |plans|
    ensures PollLog(old(store.Contents()), changes, store.Contents())
    ensures delivered <= |RemovedIn(changes)| <= delivered + |plans|
    ensures forall k :: 0 <= k < |plans| && plans[k] == Unbroken ==> rounds[k].reach != Lost
    ensures Quiet(changes, mailbox) &&
            (NotLost(rounds) >= |Due(old(store.held), mailbox, start)| || Completed(rounds) >= 544) ==>
              forall id :: id in store.held && store.held[id].mailbox == mailbox ==> store.held[id].expiresAt <= end
  {
    hide IsListing, Live, DrainRound, DrainRun, Good, Registry.Good, PollLog, RemovedIn, Readable, Completed, NotLost,
         Quiet, OwnsMailbox, Limits.Valid;
    ghost var t := store.Contents();
    delivered, end, rounds, changes := 0, start, [], [];
    ghost var helds, nows: seq<int> := [store.held], [start];
    NoRounds(t, mailbox, start);
    for i := 0 to |plans|
      invariant start <= end && store.Valid(end) && registry.Valid(end) && Readable(store.held, decode)
      invariant OwnsMailbox(registry, mailbox, owner)
      invariant PollLog(t, changes, store.Contents())
      invariant delivered <= |RemovedIn(changes)| <= delivered + i
      invariant |rounds| == i && |helds| == |nows| == i + 1 && helds[0] == t.held && nows[0] == start
      invariant forall k :: 0 <= k < i && plans[k] == Unbroken ==> rounds[k].reach != Lost
      invariant nows[i] == end && helds[i] == store.held
      invariant Quiet(changes, mailbox) ==> DrainRun(helds, rounds, nows, mailbox)
    {
      ghost var before, more, round := store.Contents(), [], Round([], Complete);
      var count;
      count, end, round, more := DrainRoundByPolling(store, registry, mailbox, owner, decode, plans[i], end);
      PollLogsJoin(t, changes, before, more, store.Contents());
      if Quiet(changes + more, mailbox) {
        QuietParts(changes, more, mailbox);
        DrainRunGrows(helds, rounds, nows, mailbox, store.held, round, end);
      }
      helds, rounds, nows, changes := helds + [store.held], rounds + [round], nows + [end], changes + more;
      delivered := delivered + count;
    }
    if Quiet(changes, mailbox) && (NotLost(rounds) >= |Due(t.held, mailbox, start)| || Completed(rounds) >= 544) {
      assert rounds[..|plans|] == rounds;
      MailboxDrains(t, store.limits, store.legacy, helds, rounds, nows, mailbox, |plans|);
    }
  }

  lemma QuietParts(a: seq<Change>, b: seq<Change>, mailbox: string)
    requires Quiet(a + b, mailbox)
    ensures Quiet(a, mailbox) && Quiet(b, mailbox)
  {
    assert forall k :: 0 <= k < |a| ==> (a + b)[k] == a[k];
    forall k | 0 <= k < |b| ensures BringsNothing(b[k], mailbox) {
      assert (a + b)[|a| + k] == b[k];
    }
  }

  lemma NoRounds(t: Tables, mailbox: string, now: int)
    ensures DrainRun([t.held], [], [now], mailbox) && PollLog(t, [], t) && RemovedIn([]) == []
  {
  }
}
