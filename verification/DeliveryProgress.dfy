/** Mail gets through: directly, or by way of a store and back to the sender as a receipt. */
module DeliveryProgress {
  import opened ByteStrings
  import opened Messages
  import opened Delivery
  import opened DeliveryRuns
  import HT = HoldTables

  /** The steps are possible one after the other and lead from s to s'. */
  ghost predicate Leads(w: World, s: System, steps: seq<Action>, s': System)
    decreases |steps|
  {
    if steps == [] then s' == s
    else Enabled(w, s, steps[0]) && Leads(w, Apply(w, s, steps[0]), steps[1..], s')
  }

  lemma LeadsOne(w: World, s: System, a: Action, s': System)
    requires IsStep(w, s, a, s')
    ensures Leads(w, s, [a], s')
  {
    hide Enabled, Apply;
    assert [a][1..] == [];
    assert Leads(w, s', [], s');
  }

  /** Steps leave no choice: they lead to one system at most. */
  lemma {:induction false} LeadsToOne(w: World, s: System, steps: seq<Action>, t: System, u: System)
    requires Leads(w, s, steps, t) && Leads(w, s, steps, u)
    ensures t == u
    decreases |steps|
  {
    hide Enabled, Apply;
    if steps != [] {
      LeadsToOne(w, Apply(w, s, steps[0]), steps[1..], t, u);
    }
  }

  lemma {:induction false} LeadsOn(w: World, s: System, steps: seq<Action>, m: System, more: seq<Action>, s': System)
    requires Leads(w, s, steps, m) && Leads(w, m, more, s')
    ensures Leads(w, s, steps + more, s')
    decreases |steps|
  {
    hide Enabled, Apply;
    if steps == [] {
      assert steps + more == more;
    } else {
      LeadsOn(w, Apply(w, s, steps[0]), steps[1..], m, more, s');
      assert (steps + more)[1..] == steps[1..] + more;
    }
  }

  lemma {:induction false} LeadsKeepsRow(w: World, s: System, steps: seq<Action>, s': System, n: NodeId, id: string)
    requires Inv(w, s) && Leads(w, s, steps, s') && forall a :: a in steps ==> a != DeleteRow(n, id)
    ensures Inv(w, s') && RowAdvances(RowsOf(s.rows, n), RowsOf(s'.rows, n), id)
    decreases |steps|
  {
    hide Enabled, Apply, Inv;
    if steps != [] {
      assert steps[0] in steps && forall a :: a in steps[1..] ==> a in steps;
      StepKeepsInv(w, s, steps[0]);
      StepAdvancesRow(w, s, steps[0], n, id);
      LeadsKeepsRow(w, Apply(w, s, steps[0]), steps[1..], s', n, id);
    }
  }

  // ---- the parts of an exchange ----

  /** A letter that reaches its recipient without a fault is accepted, and a receipt waits in the outbox. */
  lemma LetterGetsThrough(w: World, s: System, kind: Kind, n: NodeId, asker: NodeId, id: string, receiptId: string)
    requires id in s.envelopes && s.envelopes[id].content.Letter?
    requires s.envelopes[id].mailbox == w.mailboxOf(n) && s.envelopes[id].content.mail.recipient == n
    ensures var s' := AfterReceive(w, s, kind, n, asker, id, NoFault, receiptId);
            var mail := s.envelopes[id].content.mail;
            && Reply(kind, n, asker, id, true) in s'.wire
            && (n, mail.id) in s'.received && (n, receiptId) in s'.outbox
            && s'.envelopes == s.envelopes[receiptId :=
                 Envelope(receiptId, w.mailboxOf(mail.sender), Receipt(mail.id, n, mail.sender))]
            && s'.tables == s.tables && s'.owners == s.owners && s'.clock == s.clock
  {
    hide Stored;
  }

  /** A receipt that reaches the sender of its message without a fault marks the sender's row delivered. */
  lemma ReceiptGetsThrough(w: World, s: System, kind: Kind, n: NodeId, asker: NodeId, id: string, receiptId: string)
    requires id in s.envelopes && s.envelopes[id].content.Receipt?
    requires s.envelopes[id].mailbox == w.mailboxOf(n) && s.envelopes[id].content.to == n
    requires ReceiptMatches(RowsOf(s.rows, n), s.envelopes[id].content.mailId, n, s.envelopes[id].content.from)
    ensures var s' := AfterReceive(w, s, kind, n, asker, id, NoFault, receiptId);
            Reply(kind, n, asker, id, true) in s'.wire && HasDelivered(s', n, s.envelopes[id].content.mailId)
  {
    hide ReceiptMatches;
    ReceivedRows(w, s, n, id, NoFault, receiptId);
  }

  lemma StoredIsThere(rows: Rows, mail: Mail, direction: Direction, status: Status)
    ensures mail.id in Stored(rows, mail, direction, status)
    ensures var row := Stored(rows, mail, direction, status)[mail.id];
            && (status == StatusDelivered ==> row.status == StatusDelivered)
            && row.mail == (if mail.id in rows then rows[mail.id].mail else mail)
            && row.direction == if mail.id in rows && rows[mail.id].direction != DirectionQueued
              then rows[mail.id].direction
                                else direction
  {
  }

  function DirectSend(w: World, mail: Mail, wrapId: string, receiptId: string): seq<Action> {
    [Wrap(mail.id, wrapId, w.mailboxOf(mail.recipient))] +
    [Send(Direct, mail.sender, mail.recipient, wrapId)] +
    [Receive(Direct, mail.recipient, mail.sender, wrapId, NoFault, receiptId)] +
    [NoteDelivered(mail.sender, wrapId)]
  }

  /** From any system, a fresh wrap sent straight to its recipient ends with the sender's row delivered. */
  lemma DirectSendDelivers(w: World, s: System, mail: Mail, wrapId: string, receiptId: string) returns (s': System)
    requires mail.id in s.mails && s.mails[mail.id] == mail
    requires wrapId !in s.envelopes && receiptId !in s.envelopes && receiptId != wrapId
    ensures Leads(w, s, DirectSend(w, mail, wrapId, receiptId), s') && HasDelivered(s', mail.sender, mail.id)
  {
    hide Stored, BeforeAnswer, OutcomeAt, AfterReceive, Leads;
    var a1, a2 := Wrap(mail.id, wrapId, w.mailboxOf(mail.recipient)), Send(Direct, mail.sender, mail.recipient, wrapId);
    var a3 := Receive(Direct, mail.recipient, mail.sender, wrapId, NoFault, receiptId);
    var a4 := NoteDelivered(mail.sender, wrapId);
    var s1 := Apply(w, s, a1);
    var s2 := Apply(w, s1, a2);
    var s3 := Apply(w, s2, a3);
    LetterGetsThrough(w, s2, Direct, mail.recipient, mail.sender, wrapId, receiptId);
    s' := Apply(w, s3, a4);
    StoredIsThere(RowsOf(s3.rows, mail.sender), mail, DirectionSent, StatusDelivered);
    LeadsFour(w, s, a1, s1, a2, s2, a3, s3, a4, s');
  }

  lemma LeadsFour(w: World, s: System, a1: Action, s1: System, a2: Action, s2: System, a3: Action, s3: System,
                  a4: Action, s4: System)
    requires IsStep(w, s, a1, s1) && IsStep(w, s1, a2, s2) && IsStep(w, s2, a3, s3) && IsStep(w, s3, a4, s4)
    ensures Leads(w, s, [a1] + [a2] + [a3] + [a4], s4)
  {
    hide Enabled, Apply, Leads;
    LeadsOne(w, s, a1, s1);
    LeadsOne(w, s1, a2, s2);
    LeadsOne(w, s2, a3, s3);
    LeadsOne(w, s3, a4, s4);
    LeadsOn(w, s, [a1], s1, [a2], s2);
    LeadsOn(w, s, [a1] + [a2], s2, [a3], s3);
    LeadsOn(w, s, [a1] + [a2] + [a3], s3, [a4], s4);
  }

  // ---- by way of a store ----

  /** The store would admit the envelope now. */
  ghost predicate Admits(w: World, s: System, d: NodeId, n: NodeId, id: string) {
    id in s.envelopes && HoldVerdict(w, s, d, n, id) == HT.Stored
  }

  /** Nobody but n owns n's mailbox at the store. */
  predicate FreeFor(w: World, s: System, d: NodeId, n: NodeId) {
    (d, w.mailboxOf(n)) in s.owners ==> s.owners[(d, w.mailboxOf(n))] == n
  }

  /** The store holds the envelope live, for the mailbox it is addressed to. */
  predicate HoldsLive(s: System, d: NodeId, id: string) {
    && id in s.envelopes && id in TablesOf(s.tables, d).held
    && TablesOf(s.tables, d).held[id].expiresAt > ClockOf(s.clock, d)
    && TablesOf(s.tables, d).held[id].mailbox == s.envelopes[id].mailbox
  }

  predicate SameMail(s: System, s': System) {
    s'.mails == s.mails && s'.envelopes == s.envelopes && s'.rows == s.rows && s'.received == s.received &&
      s'.outbox == s.outbox
  }

  function HoldSteps(d: NodeId, n: NodeId, id: string): seq<Action> {
    [Send(Hold, n, d, id)] + [HandleHold(d, n, id)]
  }

  lemma HoldIsRecorded(w: World, s: System, d: NodeId, n: NodeId, id: string) returns (s': System)
    requires Admits(w, s, d, n, id) && Origin(s.envelopes[id].content) == n && s.envelopes[id].id == id
    ensures Leads(w, s, HoldSteps(d, n, id), s')
    ensures SameMail(s, s') && s'.owners == s.owners && HoldsLive(s', d, id) && Reply(Hold, d, n, id, true) in s'.wire
  {
    hide HT.Admitted, HT.Decide, Leads;
    var a1, a2 := Send(Hold, n, d, id), HandleHold(d, n, id);
    var s1 := Apply(w, s, a1);
    s' := Apply(w, s1, a2);
    AdmittedRows(TablesOf(s.tables, d), w.limits(d), w.legacy(d), HoldRequest(w, s, d, n, id), ClockOf(s.clock, d));
    LeadsOne(w, s, a1, s1);
    LeadsOne(w, s1, a2, s');
    LeadsOn(w, s, [a1], s1, [a2], s');
  }

  function OfferSteps(d: NodeId, n: NodeId, id: string): seq<Action> {
    [RegisterOwner(d, n)] + [Send(Offer, d, n, id)]
  }

  lemma HeldIsOffered(w: World, s: System, d: NodeId, n: NodeId, id: string) returns (s': System)
    requires HoldsLive(s, d, id) && s.envelopes[id].mailbox == w.mailboxOf(n) && FreeFor(w, s, d, n)
    ensures Leads(w, s, OfferSteps(d, n, id), s')
    ensures SameMail(s, s') && s'.tables == s.tables && s'.clock == s.clock && Carried(Offer, d, n, id) in s'.wire
    ensures s'.owners == s.owners[(d, w.mailboxOf(n)) := n]
  {
    hide Leads;
    var a1, a2 := RegisterOwner(d, n), Send(Offer, d, n, id);
    var s1 := Apply(w, s, a1);
    s' := Apply(w, s1, a2);
    assert s1.owners == s.owners[(d, w.mailboxOf(n)) := n];
    LeadsOne(w, s, a1, s1);
    LeadsOne(w, s1, a2, s');
    LeadsOn(w, s, [a1], s1, [a2], s');
  }

  function TakeSteps(d: NodeId, n: NodeId, id: string, receiptId: string): seq<Action> {
    [Receive(Offer, n, d, id, NoFault, receiptId)] + [DeleteDelivered(Offer, d, n, id)]
  }

  lemma OfferedLetterIsTaken(w: World, s: System, d: NodeId, n: NodeId, id: string, receiptId: string)
    returns (s': System)
    requires Carried(Offer, d, n, id) in s.wire && HoldsLive(s, d, id) && receiptId !in s.envelopes
    requires s.envelopes[id].mailbox == w.mailboxOf(n)
    requires (d, w.mailboxOf(n)) in s.owners && s.owners[(d, w.mailboxOf(n))] == n
    requires s.envelopes[id].content.Letter? && s.envelopes[id].content.mail.recipient == n
    ensures Leads(w, s, TakeSteps(d, n, id, receiptId), s')
    ensures var mail := s.envelopes[id].content.mail;
            && (n, mail.id) in s'.received && (n, receiptId) in s'.outbox && id !in TablesOf(s'.tables, d).held
            && s'.owners == s.owners
            && s'.envelopes == s.envelopes[receiptId :=
                 Envelope(receiptId, w.mailboxOf(mail.sender), Receipt(mail.id, n, mail.sender))]
  {
    hide Stored, BeforeAnswer, OutcomeAt, AfterReceive, HT.Deleted, Leads;
    var a1, a2 := Receive(Offer, n, d, id, NoFault, receiptId), DeleteDelivered(Offer, d, n, id);
    var s1 := Apply(w, s, a1);
    LetterGetsThrough(w, s, Offer, n, d, id, receiptId);
    s' := Apply(w, s1, a2);
    DeletedIsGone(TablesOf(s1.tables, d), id);
    LeadsOne(w, s, a1, s1);
    LeadsOne(w, s1, a2, s');
    LeadsOn(w, s, [a1], s1, [a2], s');
  }

  lemma DeletedIsGone(t: HT.Tables, id: string)
    requires id in t.held
    ensures id !in HT.Deleted(t, id, t.held[id].mailbox).held
  {
  }

  /**
   From any system, a node that registers its mailbox and fetches gets a live held letter through: it
   has the message, a receipt waits in its outbox, and the store holds the letter no more.
   */
  lemma FetchDelivers(w: World, s: System, d: NodeId, n: NodeId, id: string, receiptId: string) returns (s': System)
    requires HoldsLive(s, d, id) && s.envelopes[id].mailbox == w.mailboxOf(n) && FreeFor(w, s, d, n)
    requires s.envelopes[id].content.Letter? && s.envelopes[id].content.mail.recipient == n
    requires receiptId !in s.envelopes
    ensures Leads(w, s, OfferSteps(d, n, id) + TakeSteps(d, n, id, receiptId), s')
    ensures var mail := s.envelopes[id].content.mail;
            && (n, mail.id) in s'.received && (n, receiptId) in s'.outbox && id !in TablesOf(s'.tables, d).held
            && s'.owners == s.owners[(d, w.mailboxOf(n)) := n]
            && s'.envelopes == s.envelopes[receiptId :=
                 Envelope(receiptId, w.mailboxOf(mail.sender), Receipt(mail.id, n, mail.sender))]
  {
    hide Leads, OfferSteps, TakeSteps;
    var s1 := HeldIsOffered(w, s, d, n, id);
    s' := OfferedLetterIsTaken(w, s1, d, n, id, receiptId);
    LeadsOn(w, s, OfferSteps(d, n, id), s1, TakeSteps(d, n, id, receiptId), s');
  }

  // ---- the whole way ----

  /** The letter: wrapped, held, promoted, fetched and acknowledged. */
  function LetterLeg(w: World, mail: Mail, d: NodeId, wrapId: string, receiptId: string): seq<Action> {
    [Wrap(mail.id, wrapId, w.mailboxOf(mail.recipient))] + HoldSteps(d, mail.sender, wrapId) +
      [NoteHeld(mail.sender, d, wrapId)] +
    (OfferSteps(d, mail.recipient, wrapId) + TakeSteps(d, mail.recipient, wrapId, receiptId))
  }

  /** The receipt: held, fetched and applied. */
  function ReceiptLeg(mail: Mail, d: NodeId, receiptId: string, spareId: string): seq<Action> {
    HoldSteps(d, mail.recipient, receiptId) + OfferSteps(d, mail.sender, receiptId) +
    [Receive(Offer, mail.sender, d, receiptId, NoFault, spareId)]
  }

  /** The sender's own row, out of the queue. */
  predicate HasSent(s: System, mail: Mail) {
    && mail.id in RowsOf(s.rows, mail.sender)
    && RowsOf(s.rows, mail.sender)[mail.id].mail == mail
    && RowsOf(s.rows, mail.sender)[mail.id].direction == DirectionSent
  }

  ghost predicate Starts(w: World, s: System, mail: Mail, d: NodeId, wrapId: string, receiptId: string) {
    && Inv(w, s) && mail.id in s.mails && s.mails[mail.id] == mail
    && wrapId !in s.envelopes && receiptId !in s.envelopes && receiptId != wrapId
    && (mail.id in RowsOf(s.rows, mail.sender) ==> RowsOf(s.rows, mail.sender)[mail.id].direction != DirectionReceived)
    && Admits(w, Apply(w, s, Wrap(mail.id, wrapId, w.mailboxOf(mail.recipient))), d, mail.sender, wrapId)
    && FreeFor(w, s, d, mail.recipient)
  }

  /** Wrapped, admitted and promoted. */
  lemma LetterIsHeld(w: World, s: System, mail: Mail, d: NodeId, wrapId: string, receiptId: string) returns (s': System)
    requires Starts(w, s, mail, d, wrapId, receiptId)
    ensures Leads(w, s, [Wrap(mail.id, wrapId, w.mailboxOf(mail.recipient))] + HoldSteps(d, mail.sender, wrapId) +
                        [NoteHeld(mail.sender, d, wrapId)], s')
    ensures HasSent(s', mail) && HoldsLive(s', d, wrapId) && s'.owners == s.owners
    ensures s'.envelopes == s.envelopes[wrapId := Envelope(wrapId, w.mailboxOf(mail.recipient), Letter(mail))]
  {
    hide Leads, HoldSteps, Inv, HasSent, HoldsLive, Admits;
    var a1, a3 := Wrap(mail.id, wrapId, w.mailboxOf(mail.recipient)), NoteHeld(mail.sender, d, wrapId);
    OwnRow(w, s, mail);
    var s1 := Apply(w, s, a1);
    var s2 := HoldIsRecorded(w, s1, d, mail.sender, wrapId);
    s' := HeldIsNoted(w, s2, mail, d, wrapId);
    LeadsOne(w, s, a1, s1);
    LeadsOn(w, s, [a1], s1, HoldSteps(d, mail.sender, wrapId), s2);
    LeadsOn(w, s, [a1] + HoldSteps(d, mail.sender, wrapId), s2, [a3], s');
  }

  lemma HeldIsNoted(w: World, s: System, mail: Mail, d: NodeId, id: string) returns (s': System)
    requires id in s.envelopes && s.envelopes[id].content == Letter(mail)
    requires Reply(Hold, d, mail.sender, id, true) in s.wire
    requires mail.id in RowsOf(s.rows, mail.sender) ==>
               && RowsOf(s.rows, mail.sender)[mail.id].mail == mail
               && RowsOf(s.rows, mail.sender)[mail.id].direction != DirectionReceived
    ensures Leads(w, s, [NoteHeld(mail.sender, d, id)], s') && HasSent(s', mail)
    ensures s'.envelopes == s.envelopes && s'.owners == s.owners && (HoldsLive(s, d, id) ==> HoldsLive(s', d, id))
  {
    hide Leads, Stored;
    s' := Apply(w, s, NoteHeld(mail.sender, d, id));
    StoredIsThere(RowsOf(s.rows, mail.sender), mail, DirectionSent, StatusPending);
    LeadsOne(w, s, NoteHeld(mail.sender, d, id), s');
  }

  lemma OwnRow(w: World, s: System, mail: Mail)
    requires Inv(w, s) && mail.id in s.mails && s.mails[mail.id] == mail
    ensures mail.id in RowsOf(s.rows, mail.sender) ==> RowsOf(s.rows, mail.sender)[mail.id].mail == mail
  {
    var n := mail.sender;
    assert mail.id in RowsOf(s.rows, n) ==> RowFiled(RowsOf(s.rows, n)[mail.id], n, mail.id, s.mails, s.received);
  }

  /** The first half of the way: the recipient has the message and owes a receipt; the sender's row is sent. */
  lemma LetterArrives(w: World, s: System, mail: Mail, d: NodeId, wrapId: string, receiptId: string)
    returns (s': System)
    requires Starts(w, s, mail, d, wrapId, receiptId)
    ensures Leads(w, s, LetterLeg(w, mail, d, wrapId, receiptId), s') && Inv(w, s')
    ensures (mail.recipient, mail.id) in s'.received && (mail.recipient, receiptId) in s'.outbox && HasSent(s', mail)
    ensures var letter := Envelope(wrapId, w.mailboxOf(mail.recipient), Letter(mail));
            var receipt := Envelope(receiptId, w.mailboxOf(mail.sender), Receipt(mail.id, mail.recipient, mail.sender));
            s'.envelopes == s.envelopes[wrapId := letter][receiptId := receipt]
    ensures s'.owners == s.owners[(d, w.mailboxOf(mail.recipient)) := mail.recipient]
  {
    hide Leads, HoldSteps, Inv, RowAdvances, Admits, HoldsLive, HasSent;
    var s1 := LetterIsHeld(w, s, mail, d, wrapId, receiptId);
    s' := FetchDelivers(w, s1, d, mail.recipient, wrapId, receiptId);
    var first := [Wrap(mail.id, wrapId, w.mailboxOf(mail.recipient))] + HoldSteps(d, mail.sender, wrapId) +
                 [NoteHeld(mail.sender, d, wrapId)];
    var second := OfferSteps(d, mail.recipient, wrapId) + TakeSteps(d, mail.recipient, wrapId, receiptId);
    LeadsOn(w, s, first, s1, second, s');
    NoDeletions(d, mail.sender, wrapId);
    LeadsKeepsRow(w, s, first, s1, mail.sender, mail.id);
    LeadsKeepsRow(w, s1, second, s', mail.sender, mail.id);
    SentStays(s1, s', mail);
  }

  lemma NoDeletions(d: NodeId, n: NodeId, id: string)
    ensures forall a :: a in HoldSteps(d, n, id) ==> !a.DeleteRow?
  {
  }

  lemma SentStays(s: System, s': System, mail: Mail)
    requires HasSent(s, mail) && RowAdvances(RowsOf(s.rows, mail.sender), RowsOf(s'.rows, mail.sender), mail.id)
    ensures HasSent(s', mail)
  {
  }

  /** The second half: a receipt in its maker's hands, admitted by a store, turns the sender's row to delivered. */
  lemma ReceiptArrives(w: World, s: System, mail: Mail, d: NodeId, receiptId: string, spareId: string)
    returns (s': System)
    requires HasSent(s, mail) && FreeFor(w, s, d, mail.sender) && Admits(w, s, d, mail.recipient, receiptId)
    requires s.envelopes[receiptId] == Envelope(receiptId, w.mailboxOf(mail.sender),
                                                Receipt(mail.id, mail.recipient, mail.sender))
    requires spareId !in s.envelopes
    ensures Leads(w, s, ReceiptLeg(mail, d, receiptId, spareId), s') && HasDelivered(s', mail.sender, mail.id)
  {
    hide Leads, HoldSteps, OfferSteps, BeforeAnswer, OutcomeAt, AfterReceive;
    var s1 := HoldIsRecorded(w, s, d, mail.recipient, receiptId);
    var s2 := HeldIsOffered(w, s1, d, mail.sender, receiptId);
    var a3 := Receive(Offer, mail.sender, d, receiptId, NoFault, spareId);
    s' := Apply(w, s2, a3);
    ReceiptGetsThrough(w, s2, Offer, mail.sender, d, receiptId, spareId);
    LeadsOne(w, s2, a3, s');
    LeadsOn(w, s, HoldSteps(d, mail.recipient, receiptId), s1, OfferSteps(d, mail.sender, receiptId), s2);
    LeadsOn(w, s, HoldSteps(d, mail.recipient, receiptId) + OfferSteps(d, mail.sender, receiptId), s2, [a3], s');
  }

  /**
   From any reachable system, a message handed to a store that admits it reaches its recipient, and,
   when a store, the same or another, admits the recipient's receipt, the sender's row ends delivered.
   The system in which it must do so is the one the first leg leads to (LeadsToOne).
   */
  lemma RelayedMailIsConfirmed(w: World, s: System, mail: Mail, d: NodeId, wrapId: string, receiptId: string,
                               back: NodeId, spareId: string)
    returns (m: System, s': System)
    requires Starts(w, s, mail, d, wrapId, receiptId) && spareId !in s.envelopes && spareId !in {wrapId, receiptId}
    requires FreeFor(w, s, back, mail.sender)
    requires w.mailboxOf(mail.sender) == w.mailboxOf(mail.recipient) ==> mail.sender == mail.recipient
    requires forall t :: Leads(w, s, LetterLeg(w, mail, d, wrapId, receiptId), t) ==>
              Admits(w, t, back, mail.recipient, receiptId)
    ensures Leads(w, s, LetterLeg(w, mail, d, wrapId, receiptId), m)
    ensures (mail.recipient, mail.id) in m.received
    ensures Leads(w, s, LetterLeg(w, mail, d, wrapId, receiptId) + ReceiptLeg(mail, back, receiptId, spareId), s')
    ensures HasDelivered(s', mail.sender, mail.id)
  {
    hide Leads, LetterLeg, ReceiptLeg;
    m := LetterArrives(w, s, mail, d, wrapId, receiptId);
    s' := ReceiptArrives(w, m, mail, back, receiptId, spareId);
    LeadsOn(w, s, LetterLeg(w, mail, d, wrapId, receiptId), m, ReceiptLeg(mail, back, receiptId, spareId), s');
  }
}
