/** What single steps of the delivery protocol do to what one can observe, and what that means for whole runs. */
module DeliverySteps {
  import opened Wrappers
  import opened Tokens
  import opened Messages
  import opened Delivery
  import opened DeliveryRuns
  import HT = HoldTables
  import HoldQuotas

  function RowAt(s: System, n: NodeId, id: string): Option<Row> {
    Lookup(RowsOf(s.rows, n), id)
  }

  predicate Carries(s: System, envelopeId: string, id: string) {
    && envelopeId in s.envelopes && s.envelopes[envelopeId].content.Letter?
    && s.envelopes[envelopeId].content.mail.id == id
  }

  // ---- a message in its sender's table ----

  /** A promotion, a receipt or a reception of the message at n: what may take its row there out of the queue. */
  predicate Settles(s: System, a: Action, n: NodeId, id: string) {
    match a
    case NoteDelivered(m, e) => m == n && Carries(s, e, id)
    case NoteHeld(m, _, e) => m == n && Carries(s, e, id)
    case Receive(_, m, _, e, _, _) =>
      m == n && (Carries(s, e, id) ||
        (e in s.envelopes && s.envelopes[e].content.Receipt? && s.envelopes[e].content.mailId == id))
    case _ => false
  }

  /** A row changes only by composing, settling or deleting that very message at that very node. */
  lemma OthersLeaveRow(w: World, s: System, a: Action, n: NodeId, id: string)
    requires Enabled(w, s, a) && !Settles(s, a, n, id) && a != DeleteRow(n, id)
    requires a.Compose? ==> a.mail.sender != n || a.mail.id != id
    ensures RowAt(Apply(w, s, a), n, id) == RowAt(s, n, id)
  {
    hide HT.Admitted, HT.Decide, Offers, AfterReceive, HT.Expired, HT.Deleted;
    if a.Receive? {
      ReceivedRow(w, s, a, n, id);
    }
  }

  lemma ReceivedRow(w: World, s: System, a: Action, n: NodeId, id: string)
    requires Enabled(w, s, a) && a.Receive? && !Settles(s, a, n, id)
    ensures RowAt(Apply(w, s, a), n, id) == RowAt(s, n, id)
  {
    hide LetterStored, ReceiptQueued, ReceiptApplied;
    var Receive(_, m, _, e, fault, receiptId) := a;
    match s.envelopes[e].content {
      case Letter(mail) =>
        LetterRow(w, s, m, mail, receiptId, n, id);
      case Receipt(mailId, from, _) =>
        ReceiptRow(s, m, mailId, from, n, id);
    }
  }

  lemma LetterRow(w: World, s: System, m: NodeId, mail: Mail, receiptId: string, n: NodeId, id: string)
    ensures m != n || mail.id != id ==> RowAt(LetterStored(s, m, mail), n, id) == RowAt(s, n, id)
    ensures ReceiptQueued(w, LetterStored(s, m, mail), m, mail, receiptId).rows == LetterStored(s, m, mail).rows
  {
  }

  lemma ReceiptRow(s: System, m: NodeId, mailId: string, from: NodeId, n: NodeId, id: string)
    ensures m != n || mailId != id ==> RowAt(ReceiptApplied(s, m, mailId, from), n, id) == RowAt(s, n, id)
  {
  }

  /** Composing writes the sender's row at once: queued, with the status queued, if it had none. */
  lemma ComposeWrites(w: World, s: System, mail: Mail)
    requires Enabled(w, s, Compose(mail))
    ensures var s' := Apply(w, s, Compose(mail));
            && mail.id in s'.mails && s'.mails[mail.id] == mail
            && RowAt(s', mail.sender, mail.id).Some?
            && (RowAt(s, mail.sender, mail.id).None? ==>
                  RowAt(s', mail.sender, mail.id) == Some(Row(mail, DirectionQueued, StatusQueued)))
  {
  }

  /** Composing a message again leaves the row of one that still waits. */
  lemma ComposeLeavesWaiting(w: World, s: System, mail: Mail)
    requires Enabled(w, s, Compose(mail))
    requires RowAt(s, mail.sender, mail.id) == Some(Row(mail, DirectionQueued, StatusQueued))
    ensures RowAt(Apply(w, s, Compose(mail)), mail.sender, mail.id) == RowAt(s, mail.sender, mail.id)
  {
  }

  /** A composed message is in its sender's table for as long as its user does not delete it. */
  lemma ComposedStays(w: World, r: Run, j: nat, i: nat, mail: Mail)
    requires IsRun(w, r) && j < i <= |r.steps| && r.steps[j] == Compose(mail)
    requires !Erased(r, j + 1, i, mail.sender, mail.id)
    ensures RowAt(r.systems[i], mail.sender, mail.id).Some?
    ensures RowAt(r.systems[i], mail.sender, mail.id).value.mail == mail
  {
    hide Inv, Enabled, Apply;
    assert IsStep(w, r.systems[j], r.steps[j], r.systems[j + 1]);
    ComposeWrites(w, r.systems[j], mail);
    RowMailIsComposed(w, r, j + 1, mail.sender, mail.id);
    RowsLast(w, r, j + 1, i, mail.sender, mail.id);
  }

  /** Between the two points of the run, some step settled the message at n. */
  ghost predicate SettledBetween(r: Run, j: nat, i: nat, n: NodeId, id: string)
    requires j <= i <= |r.steps| == |r.systems| - 1
  {
    exists k :: j <= k < i && Settles(r.systems[k], r.steps[k], n, id)
  }

  /**
   A message composed for the first time waits in its sender's queue, for every retry to find, until a
   promotion, a receipt or its own reception settles it or its user deletes it.
   */
  lemma {:induction false} ComposedWaits(w: World, r: Run, j: nat, i: nat, mail: Mail)
    requires IsRun(w, r) && j < i <= |r.steps| && r.steps[j] == Compose(mail)
    requires RowAt(r.systems[j], mail.sender, mail.id).None?
    requires !Erased(r, j + 1, i, mail.sender, mail.id) && !SettledBetween(r, j + 1, i, mail.sender, mail.id)
    ensures RowAt(r.systems[i], mail.sender, mail.id) == Some(Row(mail, DirectionQueued, StatusQueued))
    ensures Waiting(RowAt(r.systems[i], mail.sender, mail.id).value)
    decreases i
  {
    hide Inv, Enabled, Apply, RowAt;
    var n := mail.sender;
    var before, a := r.systems[i - 1], r.steps[i - 1];
    assert IsStep(w, before, a, r.systems[i]);
    if i == j + 1 {
      ComposeWrites(w, before, mail);
    } else {
      ComposedWaits(w, r, j, i - 1, mail);
      if a.Compose? && a.mail.sender == n && a.mail.id == mail.id {
        MailsAgree(w, r, j, i - 1, mail, a.mail);
        ComposeLeavesWaiting(w, before, mail);
      } else {
        OthersLeaveRow(w, before, a, n, mail.id);
      }
    }
  }

  /** One ID, one message: what is composed later under the ID is the message itself. */
  lemma MailsAgree(w: World, r: Run, j: nat, k: nat, mail: Mail, again: Mail)
    requires IsRun(w, r) && j < k < |r.steps| && r.steps[j] == Compose(mail) && r.steps[k] == Compose(again)
    requires again.id == mail.id && RowAt(r.systems[k], mail.sender, mail.id).Some?
    requires RowAt(r.systems[k], mail.sender, mail.id).value.mail == mail
    ensures again == mail
  {
    RowMailIsComposed(w, r, k, mail.sender, mail.id);
    assert IsStep(w, r.systems[k], r.steps[k], r.systems[k + 1]);
  }

  /** A promotion of a waiting row: out of the queue, pending on a relay's answer, delivered on the recipient's. */
  lemma PromotionsWrite(w: World, s: System, a: Action, n: NodeId, id: string)
    requires Enabled(w, s, a) && Settles(s, a, n, id) && (a.NoteHeld? || a.NoteDelivered?)
    requires RowAt(s, n, id).Some? && Waiting(RowAt(s, n, id).value)
    ensures RowAt(Apply(w, s, a), n, id) ==
            Some(Row(RowAt(s, n, id).value.mail, DirectionSent, if a.NoteHeld? then StatusPending else StatusDelivered))
  {
  }

  /** A promotion is possible once the answer it rests on is there. */
  lemma PromotionsPossible(w: World, s: System, n: NodeId, d: NodeId, id: string)
    requires id in s.envelopes && s.envelopes[id].content.Letter? && s.envelopes[id].content.mail.sender == n
    ensures Reply(Hold, d, n, id, true) in s.wire ==> Enabled(w, s, NoteHeld(n, d, id))
    ensures Reply(Direct, s.envelopes[id].content.mail.recipient, n, id, true) in s.wire ==>
              Enabled(w, s, NoteDelivered(n, id))
  {
  }

  // ---- what goes away ----

  /** A user may delete any row of its own, which goes, and nothing else changes. */
  lemma EraseTakes(w: World, s: System, n: NodeId, id: string)
    requires RowAt(s, n, id).Some?
    ensures Enabled(w, s, DeleteRow(n, id))
    ensures var s' := Apply(w, s, DeleteRow(n, id));
            && RowAt(s', n, id).None?
            && (forall m: NodeId, k: string :: (m, k) != (n, id) ==> RowAt(s', m, k) == RowAt(s, m, k))
            && s'.(rows := s.rows) == s
  {
  }

  /** A store may clean up at any time: exactly what has expired goes, held rows and records alike. */
  lemma ExpireTakes(w: World, s: System, d: NodeId)
    ensures Enabled(w, s, ExpireHeld(d))
    ensures var s' := Apply(w, s, ExpireHeld(d));
            var t, u := TablesOf(s.tables, d), TablesOf(s'.tables, d);
            && (forall id :: id in u.held <==> id in t.held && t.held[id].expiresAt > ClockOf(s.clock, d))
            && (forall id :: id in u.replay <==> id in t.replay && t.replay[id].expiresAt > ClockOf(s.clock, d))
            && (forall id :: id in u.held ==> u.held[id] == t.held[id])
            && (forall id :: id in u.replay ==> u.replay[id] == t.replay[id])
            && (forall c: NodeId :: c != d ==> TablesOf(s'.tables, c) == TablesOf(s.tables, c))
            && s'.(tables := s.tables) == s
  {
  }

  /** A clock may move to any later time. */
  lemma TickMoves(w: World, s: System, n: NodeId, time: int)
    requires time >= ClockOf(s.clock, n)
    ensures Enabled(w, s, Tick(n, time))
    ensures var s' := Apply(w, s, Tick(n, time));
            && ClockOf(s'.clock, n) == time
            && (forall m: NodeId :: m != n ==> ClockOf(s'.clock, m) == ClockOf(s.clock, m))
            && s'.(clock := s.clock) == s
  {
  }

  /** A receipt may leave the outbox once each of a nonempty list of relays has answered held, and then is gone. */
  lemma DropTakes(w: World, s: System, n: NodeId, id: string)
    requires (n, id) in s.outbox
    ensures Enabled(w, s, DropFromOutbox(n, id)) <==>
            (exists d :: d in w.relaysOf(n)) && forall d :: d in w.relaysOf(n) ==> Reply(Hold, d, n, id, true) in s.wire
    ensures Enabled(w, s, DropFromOutbox(n, id)) ==>
              var s' := Apply(w, s, DropFromOutbox(n, id));
              && (forall m: NodeId, k: string :: (m, k) in s'.outbox <==> (m, k) in s.outbox && (m, k) != (n, id))
              && s'.(outbox := s.outbox) == s
  {
    hide AfterReceive, AfterHold, Stored, Offers, HT.Expired, HT.Deleted;
  }

  /** What a store that admits a hold request writes: the envelope, for 30 days, under the key of its submitter. */
  lemma HoldWrites(w: World, s: System, d: NodeId, n: NodeId, id: string)
    requires Enabled(w, s, HandleHold(d, n, id)) && HoldVerdict(w, s, d, n, id) == HT.Stored
    requires s.envelopes[id].id == id
    ensures var s' := Apply(w, s, HandleHold(d, n, id));
            var e, now := s.envelopes[id], ClockOf(s.clock, d);
            && id in TablesOf(s'.tables, d).held
            && TablesOf(s'.tables, d).held[id] ==
               HT.HeldRow(e.mailbox, w.encode(e), now + 2592000, now, Some(w.keyOf(n)))
            && Reply(Hold, d, n, id, true) in s'.wire
            && (forall c: NodeId :: c != d ==> TablesOf(s'.tables, c) == TablesOf(s.tables, c))
  {
    hide HT.Decide, HT.Admitted;
    AdmittedRows(TablesOf(s.tables, d), w.limits(d), w.legacy(d), HoldRequest(w, s, d, n, id), ClockOf(s.clock, d));
  }

  /** Over every run, every store is within its own configured limits, figure by figure. */
  lemma StoresStayWithinLimits(w: World, r: Run, i: nat, d: NodeId)
    requires Sensible(w) && IsRun(w, r) && i <= |r.steps|
    ensures HoldQuotas.WithinLimits(TablesOf(r.systems[i].tables, d), w.limits(d), w.legacy(d))
  {
    hide HoldQuotas.WithinLimits;
    RunsKeepStores(w, r, i);
    GoodAt(w, r.systems[i], d);
    HoldQuotas.QuotasAreLimits(TablesOf(r.systems[i].tables, d), w.limits(d), w.legacy(d));
  }

  // ---- who is handed what ----

  ghost predicate OffersForOwners(w: World, wire: set<Wire>, envelopes: Envelopes) {
    forall m :: m in wire && m.Carried? ==>
      && m.envelopeId in envelopes
      && (m.kind == Offer ==> w.mailboxOf(m.to) == envelopes[m.envelopeId].mailbox)
      && (m.kind == Hold ==> Origin(envelopes[m.envelopeId].content) == m.from)
  }

  lemma StepKeepsOffers(w: World, s: System, a: Action)
    requires Inv(w, s) && Enabled(w, s, a) && OffersForOwners(w, s.wire, s.envelopes)
    ensures OffersForOwners(w, Apply(w, s, a).wire, Apply(w, s, a).envelopes)
  {
    hide AfterReceive, AfterHold, Stored;
    var s' := Apply(w, s, a);
    match a {
      case Send(kind, n, target, id) =>
        if kind == Offer {
          assert HeldRowFiled(w, s.tables[n].held[id], n, id, s.envelopes, s.recorded);
        }
      case Receive(kind, n, asker, id, fault, receiptId) =>
        ReceivedWire(w, s, a);
        assert forall m :: m in s'.wire && m.Carried? ==> m in s.wire;
      case HandleHold(d, n, id) =>
        HeldWire(w, s, a);
      case _ =>
    }
  }

  lemma ReceivedWire(w: World, s: System, a: Action)
    requires Enabled(w, s, a) && a.Receive?
    ensures var s' := Apply(w, s, a);
            && (forall m :: m in s'.wire && m.Carried? ==> m in s.wire)
            && forall id :: id in s.envelopes ==> id in s'.envelopes && s'.envelopes[id] == s.envelopes[id]
  {
    hide BeforeAnswer, OutcomeAt;
    ReceivedRows(w, s, a.receiver, a.receivedId, a.fault, a.receiptId);
    forall id | id in s.envelopes
      ensures id in Apply(w, s, a).envelopes && Apply(w, s, a).envelopes[id] == s.envelopes[id]
    {
      ReceiveKeepsEnvelopes(w, s, a.receiver, a.receivedId, a.fault, a.receiptId, id);
    }
  }

  lemma HeldWire(w: World, s: System, a: Action)
    requires Enabled(w, s, a) && a.HandleHold?
    ensures var s' := Apply(w, s, a);
            (forall m :: m in s'.wire && m.Carried? ==> m in s.wire) && s'.envelopes == s.envelopes
  {
    hide HT.Admitted, HT.Decide;
  }

  /**
   Over every run, whatever is offered is offered to the node whose mailbox it is for, and only a
   message's sender or a receipt's maker asks a store to hold it.
   */
  lemma {:induction false} OffersReachOwners(w: World, r: Run, i: nat)
    requires IsRun(w, r) && i <= |r.steps|
    ensures OffersForOwners(w, r.systems[i].wire, r.systems[i].envelopes)
  {
    hide Inv, Enabled, Apply;
    if i > 0 {
      hide OffersForOwners;
      OffersReachOwners(w, r, i - 1);
      RunsKeepInv(w, r, i - 1);
      assert IsStep(w, r.systems[i - 1], r.steps[i - 1], r.systems[i]);
      StepKeepsOffers(w, r.systems[i - 1], r.steps[i - 1]);
    }
  }
}
