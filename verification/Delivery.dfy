/**
 The delivery protocol between any number of nodes, each of which may send, receive and hold mail.
 Everything ever put on the wire stays there, so an exchange may be lost, repeated or reordered at
 will; a local fault may strike any receive. All nodes run this code.
 */
module Delivery {
  import opened Wrappers
  import opened ByteStrings
  import opened Resource
  import opened Tokens
  import opened Messages
  import HT = HoldTables

  /** What does not change during a run; encode is the JSON form of an envelope. */
  datatype World = World(
    encode: Envelope -> Bytes,
    keyOf: NodeId -> Bytes,
    mailboxOf: NodeId -> string,
    relaysOf: NodeId -> set<NodeId>,
    limits: NodeId -> Limits,
    legacy: NodeId -> HT.Legacy)

  /** MESSAGE, MESSAGE_DELIVERY and HOLD_MESSAGE. */
  datatype Kind = Direct | Offer | Hold

  datatype Wire =
    | Carried(kind: Kind, from: NodeId, to: NodeId, envelopeId: string)
    | Reply(kind: Kind, from: NodeId, to: NodeId, envelopeId: string, ok: bool)

  datatype System = System(
    mails: map<string, Mail>,               // every message ever composed
    envelopes: map<string, Envelope>,       // every outer envelope ever wrapped
    wire: set<Wire>,                        // everything ever sent
    rows: map<NodeId, Rows>,                // message tables
    outbox: set<(NodeId, string)>,          // queued receipt envelopes
    tables: map<NodeId, HT.Tables>,         // hold stores
    owners: map<(NodeId, string), NodeId>,  // mailbox owners known to a hold store
    clock: map<NodeId, int>,
    received: set<(NodeId, string)>,        // history: message IDs a node has committed as received
    accepted: set<(NodeId, string)>,        // history: envelopes whose receive path succeeded at a node
    recorded: map<(NodeId, string), int>)   // history: envelopes a store admitted, with their latest expiry

  /** The rows, tables and clock of a node; each is empty, or zero, until its first change. */
  function RowsOf(rows: map<NodeId, Rows>, n: NodeId): Rows {
    if n in rows then rows[n] else map[]
  }

  function TablesOf(tables: map<NodeId, HT.Tables>, d: NodeId): HT.Tables {
    if d in tables then tables[d] else HT.Tables(map[], map[])
  }

  function ClockOf(clock: map<NodeId, int>, d: NodeId): int {
    if d in clock then clock[d] else 0
  }

  const INITIAL: System := System(map[], map[], {}, map[], {}, map[], map[], map[], {}, {}, map[])

  // ---- steps ----

  datatype Action =
    | Compose(mail: Mail)
    | Wrap(mailId: string, wrapId: string, toMailbox: string)
    | Send(kind: Kind, sender: NodeId, target: NodeId, sentId: string)
    | Receive(rKind: Kind, receiver: NodeId, asker: NodeId, receivedId: string, fault: Fault, receiptId: string)
    | NoteDelivered(noter: NodeId, deliveredId: string)
    | HandleHold(daddy: NodeId, submitter: NodeId, holdId: string)
    | NoteHeld(promoter: NodeId, holder: NodeId, heldId: string)
    | RegisterOwner(registry: NodeId, owner: NodeId)
    | DeleteDelivered(aKind: Kind, deleter: NodeId, acker: NodeId, ackedId: string)
    | ExpireHeld(expirer: NodeId)
    | Tick(ticker: NodeId, time: int)
    | DropFromOutbox(dropper: NodeId, droppedId: string)
    | DeleteRow(eraser: NodeId, erasedId: string)

  function HoldRequest(w: World, s: System, d: NodeId, n: NodeId, id: string): HT.Request
    requires id in s.envelopes
  {
    HT.ForHolding(id, s.envelopes[id].mailbox, w.encode(s.envelopes[id]), ClockOf(s.clock, d), w.keyOf(n))
  }

  ghost function HoldVerdict(w: World, s: System, d: NodeId, n: NodeId, id: string): HT.Verdict
    requires id in s.envelopes
  {
    HT.Decide(TablesOf(s.tables, d), w.limits(d), w.legacy(d), HoldRequest(w, s, d, n, id), ClockOf(s.clock, d))
  }

  ghost predicate Enabled(w: World, s: System, a: Action) {
    match a
    // A message ID is the digest of its message.
    case Compose(mail) => mail.id in s.mails ==> s.mails[mail.id] == mail
    // Outer IDs are fresh random values; a retry wraps the same message again.
    case Wrap(mailId, wrapId, _) => mailId in s.mails && wrapId !in s.envelopes
    case Send(kind, n, target, id) =>
      && id in s.envelopes
      && (kind == Offer ==> Offers(s, n, target, id))
      && (kind == Hold ==> Origin(s.envelopes[id].content) == n)
    case Receive(kind, n, asker, id, _, receiptId) =>
      && kind != Hold && Carried(kind, asker, n, id) in s.wire && id in s.envelopes && receiptId !in s.envelopes
    // The peer that answered was checked to be the recipient.
    case NoteDelivered(n, id) =>
      && id in s.envelopes && s.envelopes[id].content.Letter? && s.envelopes[id].content.mail.sender == n
      && Reply(Direct, s.envelopes[id].content.mail.recipient, n, id, true) in s.wire
    case HandleHold(d, n, id) => Carried(Hold, n, d, id) in s.wire && id in s.envelopes
    case NoteHeld(n, d, id) =>
      && id in s.envelopes && s.envelopes[id].content.Letter? && s.envelopes[id].content.mail.sender == n
      && Reply(Hold, d, n, id, true) in s.wire
    case RegisterOwner(_, _) => true
    // An acknowledgement counts only from the registered owner of the held mailbox.
    case DeleteDelivered(kind, d, n, id) =>
      && kind != Hold && Reply(kind, n, d, id, true) in s.wire && id in s.envelopes
      && (d, s.envelopes[id].mailbox) in s.owners && s.owners[(d, s.envelopes[id].mailbox)] == n
    case ExpireHeld(_) => true
    case Tick(n, time) => time >= ClockOf(s.clock, n)
    case DropFromOutbox(n, id) =>
      && (n, id) in s.outbox && w.relaysOf(n) != {}
      && forall d :: d in w.relaysOf(n) ==> Reply(Hold, d, n, id, true) in s.wire
    // A user deletes a message from this device.
    case DeleteRow(n, id) => id in RowsOf(s.rows, n)
  }

  /** What a fetch offers: a live row of a mailbox to its registered owner. */
  predicate Offers(s: System, d: NodeId, n: NodeId, id: string) {
    && id in TablesOf(s.tables, d).held
    && TablesOf(s.tables, d).held[id].expiresAt > ClockOf(s.clock, d)
    && (d, TablesOf(s.tables, d).held[id].mailbox) in s.owners
    && s.owners[(d, TablesOf(s.tables, d).held[id].mailbox)] == n
  }

  // The parts of a receive, in the order in which they commit.

  function LetterStored(s: System, n: NodeId, mail: Mail): System {
    s.(rows := s.rows[n := Stored(RowsOf(s.rows, n), mail, DirectionReceived, StatusDelivered)],
       received := s.received + {(n, mail.id)})
  }

  function ReceiptQueued(w: World, s: System, n: NodeId, mail: Mail, receiptId: string): System {
    s.(envelopes := s.envelopes[receiptId :=
                                Envelope(receiptId, w.mailboxOf(mail.sender), Receipt(mail.id, n, mail.sender))],
       outbox := s.outbox + {(n, receiptId)})
  }

  function ReceiptApplied(s: System, n: NodeId, mailId: string, from: NodeId): System {
    s.(rows := s.rows[n := MarkedDelivered(RowsOf(s.rows, n), mailId, n, from)])
  }

  function Answered(s: System, kind: Kind, n: NodeId, asker: NodeId, id: string, accepted: bool): System {
    s.(accepted := if accepted then s.accepted + {(n, id)} else s.accepted,
       wire := s.wire + {Reply(kind, n, asker, id, accepted)})
  }

  /** What the receive path commits at n before it answers. */
  function BeforeAnswer(w: World, s: System, n: NodeId, id: string, fault: Fault, receiptId: string): System
    requires id in s.envelopes
  {
    var e := s.envelopes[id];
    if !EqualFold(e.mailbox, w.mailboxOf(n)) || Recipient(e.content) != n || fault == BeforeStore then s
    else match e.content
      case Letter(mail) =>
        var stored := LetterStored(s, n, mail);
        if fault == AfterStore then stored else ReceiptQueued(w, stored, n, mail, receiptId)
      case Receipt(mailId, from, _) => ReceiptApplied(s, n, mailId, from)
  }

  function OutcomeAt(w: World, s: System, n: NodeId, id: string, fault: Fault): Outcome
    requires id in s.envelopes
  {
    ReceiveOutcome(RowsOf(s.rows, n), n, w.mailboxOf(n), s.envelopes[id], fault)
  }

  /** receiveMailboxEnvelope at n, answered as the receive path of a peer decides. */
  function AfterReceive(w: World, s: System, kind: Kind, n: NodeId, asker: NodeId, id: string, fault: Fault,
                        receiptId: string): System
    requires id in s.envelopes
  {
    Answered(BeforeAnswer(w, s, n, id, fault, receiptId), kind, n, asker, id, OutcomeAt(w, s, n, id, fault).accepted)
  }

  /** What the step commits and answers is what the receive path of a peer commits and answers. */
  lemma ReceiveIsPeersReceive(w: World, s: System, kind: Kind, n: NodeId, asker: NodeId, id: string, fault: Fault,
                              receiptId: string)
    requires id in s.envelopes
    ensures var o := OutcomeAt(w, s, n, id, fault);
            var s' := AfterReceive(w, s, kind, n, asker, id, fault, receiptId);
            && RowsOf(s'.rows, n) == o.rows
            && s'.wire == s.wire + {Reply(kind, n, asker, id, o.accepted)}
            && ((n, id) in s'.accepted <==> (n, id) in s.accepted || o.accepted)
            && (o.stored ==> s.envelopes[id].content.Letter?)
            && s'.received == (if o.stored then s.received + {(n, s.envelopes[id].content.mail.id)} else s.received)
  {
    hide Stored, MarkedDelivered, ReceiptMatches;
    ReceivedRows(w, s, n, id, fault, receiptId);
  }

  lemma ReceivedRows(w: World, s: System, n: NodeId, id: string, fault: Fault, receiptId: string)
    requires id in s.envelopes
    ensures var o := OutcomeAt(w, s, n, id, fault);
            var before := BeforeAnswer(w, s, n, id, fault, receiptId);
            && RowsOf(before.rows, n) == o.rows
            && before.wire == s.wire && before.accepted == s.accepted
            && (o.stored ==> s.envelopes[id].content.Letter?)
            && before.received == (if o.stored then s.received + {(n, s.envelopes[id].content.mail.id)} else s.received)
  {
    hide Stored, MarkedDelivered, ReceiptMatches;
  }

  ghost function AfterHold(w: World, s: System, d: NodeId, n: NodeId, id: string): System
    requires id in s.envelopes
  {
    var r := HoldRequest(w, s, d, n, id);
    var v := HoldVerdict(w, s, d, n, id);
    s.(tables := s.tables[d := HT.Admitted(TablesOf(s.tables, d), w.limits(d), w.legacy(d), r, ClockOf(s.clock, d))],
       recorded := if v == HT.Stored then s.recorded[(d, id) := r.expiresAt] else s.recorded,
       wire := s.wire + {Reply(Hold, d, n, id, v == HT.Stored || v == HT.AlreadyStored)})
  }

  ghost function Apply(w: World, s: System, a: Action): System
    requires Enabled(w, s, a)
  {
    match a
    case Compose(mail) =>
      s.(mails := s.mails[mail.id := mail],
         rows := s.rows[mail.sender := Stored(RowsOf(s.rows, mail.sender), mail, DirectionQueued, StatusQueued)])
    case Wrap(mailId, wrapId, toMailbox) =>
      s.(envelopes := s.envelopes[wrapId := Envelope(wrapId, toMailbox, Letter(s.mails[mailId]))])
    case Send(kind, n, target, id) => s.(wire := s.wire + {Carried(kind, n, target, id)})
    case Receive(kind, n, asker, id, fault, receiptId) => AfterReceive(w, s, kind, n, asker, id, fault, receiptId)
    case NoteDelivered(n, id) =>
      s.(rows := s.rows[n := Stored(RowsOf(s.rows, n), s.envelopes[id].content.mail, DirectionSent, StatusDelivered)])
    case HandleHold(d, n, id) => AfterHold(w, s, d, n, id)
    case NoteHeld(n, d, id) =>
      s.(rows := s.rows[n := Stored(RowsOf(s.rows, n), s.envelopes[id].content.mail, DirectionSent, StatusPending)])
    // A node registers only its own mailbox; the first owner stays.
    case RegisterOwner(d, n) =>
      if (d, w.mailboxOf(n)) in s.owners then s else s.(owners := s.owners[(d, w.mailboxOf(n)) := n])
    case DeleteDelivered(_, d, _, id) =>
      s.(tables := s.tables[d := HT.Deleted(TablesOf(s.tables, d), id, s.envelopes[id].mailbox)])
    case ExpireHeld(d) => s.(tables := s.tables[d := HT.Expired(TablesOf(s.tables, d), ClockOf(s.clock, d))])
    case Tick(n, time) => s.(clock := s.clock[n := time])
    case DropFromOutbox(n, id) => s.(outbox := s.outbox - {(n, id)})
    case DeleteRow(n, id) => s.(rows := s.rows[n := RowsOf(s.rows, n) - {id}])
  }

  // ---- invariants, each over the parts of the system it speaks of ----

  type Mails = map<string, Mail>
  type Envelopes = map<string, Envelope>
  type Facts = set<(NodeId, string)>
  type Recorded = map<(NodeId, string), int>

  /** Messages and envelopes are filed under their IDs, and letters carry composed messages. */
  ghost predicate Filed(mails: Mails, envelopes: Envelopes) {
    && (forall id :: id in mails ==> mails[id].id == id)
    && (forall id :: id in envelopes ==> EnvelopeFiled(envelopes[id], id, mails))
  }

  predicate EnvelopeFiled(e: Envelope, id: string, mails: Mails) {
    && e.id == id
    && (e.content.Letter? ==> e.content.mail.id in mails && mails[e.content.mail.id] == e.content.mail)
  }

  /**
   Every row is of a composed message, at its sender or, when received, at its recipient; and a row
   that says delivered is of a message its recipient has received.
   */
  ghost predicate RowsFiled(rows: map<NodeId, Rows>, mails: Mails, received: Facts) {
    forall n: NodeId, id :: n in rows && id in rows[n] ==> RowFiled(rows[n][id], n, id, mails, received)
  }

  predicate RowFiled(row: Row, n: NodeId, id: string, mails: Mails, received: Facts) {
    && id in mails && row.mail == mails[id] && row.mail.id == id
    && (row.direction != DirectionReceived ==> row.mail.sender == n)
    && (row.direction == DirectionReceived ==> (n, id) in received && row.status == StatusDelivered)
    && (row.status == StatusDelivered ==> (row.mail.recipient, id) in received)
  }

  /** What a node has received was composed and addressed to it. */
  ghost predicate MailReceived(received: Facts, mails: Mails) {
    forall n: NodeId, id :: (n, id) in received ==> id in mails && mails[id].recipient == n
  }

  /** An accepted envelope was addressed to its acceptor's mailbox up to case; an accepted letter was received there. */
  ghost predicate AcceptanceTrue(w: World, accepted: Facts, envelopes: Envelopes, received: Facts) {
    forall n: NodeId, id :: (n, id) in accepted ==>
      && id in envelopes && EqualFold(envelopes[id].mailbox, w.mailboxOf(n))
      && (envelopes[id].content.Letter? ==>
            envelopes[id].content.mail.recipient == n && (n, envelopes[id].content.mail.id) in received)
  }

  /** A receipt envelope speaks of a message its maker has received. */
  ghost predicate ReceiptsTrue(envelopes: Envelopes, received: Facts) {
    forall id :: id in envelopes && envelopes[id].content.Receipt? ==>
      (envelopes[id].content.from, envelopes[id].content.mailId) in received
  }

  /** Positive replies are true: a delivery was accepted, and a hold was recorded. */
  ghost predicate RepliesTrue(wire: set<Wire>, recorded: Recorded, accepted: Facts) {
    forall m :: m in wire && m.Reply? && m.ok ==> ReplyTrue(m, recorded, accepted)
  }

  predicate ReplyTrue(m: Wire, recorded: Recorded, accepted: Facts)
    requires m.Reply?
  {
    if m.kind == Hold then (m.from, m.envelopeId) in recorded else (m.from, m.envelopeId) in accepted
  }

  /** Only the node whose mailbox it is owns it. */
  ghost predicate OwnersHonest(w: World, owners: map<(NodeId, string), NodeId>) {
    forall d: NodeId, mailbox :: (d, mailbox) in owners ==> w.mailboxOf(owners[(d, mailbox)]) == mailbox
  }

  /** A store's rows and records are of admitted envelopes, unchanged, under their latest expiry. */
  ghost predicate HeldFiled(w: World, tables: map<NodeId, HT.Tables>, envelopes: Envelopes, recorded: Recorded) {
    && (forall d: NodeId, id :: d in tables && id in tables[d].held ==>
          HeldRowFiled(w, tables[d].held[id], d, id, envelopes, recorded))
    && (forall d: NodeId, id :: d in tables && id in tables[d].replay ==> (d, id) in recorded)
  }

  predicate HeldRowFiled(w: World, row: HT.HeldRow, d: NodeId, id: string, envelopes: Envelopes, recorded: Recorded) {
    && id in envelopes
    && row.mailbox == envelopes[id].mailbox
    && row.payload == w.encode(envelopes[id])
    && (d, id) in recorded && row.expiresAt == recorded[(d, id)]
  }

  ghost predicate AcceptedFor(w: World, mailbox: string, id: string, accepted: Facts) {
    exists n: NodeId :: (n, id) in accepted && w.mailboxOf(n) == mailbox
  }

  /** No loss at a store: an admitted envelope is held, or has expired, or was accepted at its mailbox. */
  ghost predicate NothingLost(w: World, recorded: Recorded, envelopes: Envelopes, tables: map<NodeId, HT.Tables>,
                              clock: map<NodeId, int>, accepted: Facts)
  {
    forall d: NodeId, id :: (d, id) in recorded ==>
      id in envelopes && Accounted(w, d, id, recorded[(d, id)], envelopes[id].mailbox, tables, clock, accepted)
  }

  ghost predicate Accounted(w: World, d: NodeId, id: string, expiresAt: int, mailbox: string,
                            tables: map<NodeId, HT.Tables>, clock: map<NodeId, int>, accepted: Facts)
  {
    || (d in tables && id in tables[d].held)
    || expiresAt <= ClockOf(clock, d)
    || AcceptedFor(w, mailbox, id, accepted)
  }

  /** A store took responsibility for the message: it once recorded an envelope that carries it. */
  predicate Vouches(mail: Mail, d: NodeId, id: string, recorded: Recorded, envelopes: Envelopes) {
    (d, id) in recorded && id in envelopes && envelopes[id].content == Letter(mail)
  }

  ghost predicate Vouched(mail: Mail, received: Facts, recorded: Recorded, envelopes: Envelopes) {
    || (mail.recipient, mail.id) in received
    || exists d: NodeId, e: string :: Vouches(mail, d, e, recorded, envelopes)
  }

  /** A row is marked sent only for a received message or one that some store took on. */
  ghost predicate SentVouched(rows: map<NodeId, Rows>, received: Facts, recorded: Recorded, envelopes: Envelopes) {
    forall n: NodeId, id :: n in rows && id in rows[n] && rows[n][id].direction == DirectionSent ==>
      Vouched(rows[n][id].mail, received, recorded, envelopes)
  }

  /** A receipt envelope is still in its maker's outbox or was recorded by every one of its relays. */
  ghost predicate ReceiptsKept(w: World, envelopes: Envelopes, outbox: Facts, recorded: Recorded) {
    forall id :: id in envelopes && envelopes[id].content.Receipt? ==>
      ReceiptKept(w, envelopes[id].content.from, id, outbox, recorded)
  }

  ghost predicate ReceiptKept(w: World, n: NodeId, id: string, outbox: Facts, recorded: Recorded) {
    (n, id) in outbox || (w.relaysOf(n) != {} && forall d :: d in w.relaysOf(n) ==> (d, id) in recorded)
  }

  ghost predicate Inv(w: World, s: System) {
    && Filed(s.mails, s.envelopes)
    && RowsFiled(s.rows, s.mails, s.received)
    && MailReceived(s.received, s.mails)
    && AcceptanceTrue(w, s.accepted, s.envelopes, s.received)
    && ReceiptsTrue(s.envelopes, s.received)
    && RepliesTrue(s.wire, s.recorded, s.accepted)
    && OwnersHonest(w, s.owners)
    && HeldFiled(w, s.tables, s.envelopes, s.recorded)
    && NothingLost(w, s.recorded, s.envelopes, s.tables, s.clock, s.accepted)
    && SentVouched(s.rows, s.received, s.recorded, s.envelopes)
    && ReceiptsKept(w, s.envelopes, s.outbox, s.recorded)
  }

  // ---- every step keeps every invariant ----

  /** A sender's own row may be written for a composed message, and as delivered only for a received one. */
  lemma OwnRowKeepsRows(mails: Mails, rows: map<NodeId, Rows>, received: Facts, mail: Mail, direction: Direction,
                        status: Status)
    requires RowsFiled(rows, mails, received)
    requires mail.id in mails && mails[mail.id] == mail && direction != DirectionReceived
    requires status == StatusDelivered ==> (mail.recipient, mail.id) in received
    ensures var rows' := rows[mail.sender := Stored(RowsOf(rows, mail.sender), mail, direction, status)];
            RowsFiled(rows', mails, received)
  {
  }

  lemma OwnRowKeepsSent(mails: Mails, rows: map<NodeId, Rows>, received: Facts, recorded: Recorded,
                        envelopes: Envelopes,
                        mail: Mail, direction: Direction, status: Status)
    requires RowsFiled(rows, mails, received) && SentVouched(rows, received, recorded, envelopes)
    requires mail.id in mails && mails[mail.id] == mail
    requires direction == DirectionSent ==> Vouched(mail, received, recorded, envelopes)
    ensures SentVouched(rows[mail.sender := Stored(RowsOf(rows, mail.sender), mail, direction, status)], received,
                        recorded, envelopes)
  {
    hide Vouched;
  }

  lemma ComposeKeepsInv(w: World, s: System, mail: Mail)
    requires Inv(w, s) && Enabled(w, s, Compose(mail))
    ensures Inv(w, Apply(w, s, Compose(mail)))
  {
    hide AcceptanceTrue, ReceiptsTrue, RepliesTrue, OwnersHonest, HeldFiled, NothingLost, ReceiptsKept, SentVouched;
    var mails := s.mails[mail.id := mail];
    assert RowsFiled(s.rows, mails, s.received) && MailReceived(s.received, mails);
    hide RowsFiled, MailReceived, Stored;
    OwnRowKeepsRows(mails, s.rows, s.received, mail, DirectionQueued, StatusQueued);
    OwnRowKeepsSent(mails, s.rows, s.received, s.recorded, s.envelopes, mail, DirectionQueued, StatusQueued);
  }

  lemma VouchedLasts(mail: Mail, received: Facts, recorded: Recorded, envelopes: Envelopes,
                     received': Facts, recorded': Recorded, envelopes': Envelopes)
    requires Vouched(mail, received, recorded, envelopes)
    requires received <= received' && recorded.Keys <= recorded'.Keys
    requires forall id :: id in envelopes ==> id in envelopes' && envelopes'[id] == envelopes[id]
    ensures Vouched(mail, received', recorded', envelopes')
  {
    if (mail.recipient, mail.id) !in received {
      var d: NodeId, e: string :| Vouches(mail, d, e, recorded, envelopes);
      assert Vouches(mail, d, e, recorded', envelopes');
    }
  }

  lemma SentVouchedLasts(rows: map<NodeId, Rows>, received: Facts, recorded: Recorded, envelopes: Envelopes,
                         received': Facts, recorded': Recorded, envelopes': Envelopes)
    requires SentVouched(rows, received, recorded, envelopes)
    requires received <= received' && recorded.Keys <= recorded'.Keys
    requires forall id :: id in envelopes ==> id in envelopes' && envelopes'[id] == envelopes[id]
    ensures SentVouched(rows, received', recorded', envelopes')
  {
    forall n: NodeId, id | n in rows && id in rows[n] && rows[n][id].direction == DirectionSent
      ensures Vouched(rows[n][id].mail, received', recorded', envelopes')
    {
      VouchedLasts(rows[n][id].mail, received, recorded, envelopes, received', recorded', envelopes');
    }
  }

  lemma WrapKeepsInv(w: World, s: System, a: Action)
    requires Inv(w, s) && a.Wrap? && Enabled(w, s, a)
    ensures Inv(w, Apply(w, s, a))
  {
    SentVouchedLasts(s.rows, s.received, s.recorded, s.envelopes, s.received, s.recorded, Apply(w, s, a).envelopes);
  }

  lemma SendKeepsInv(w: World, s: System, a: Action)
    requires Inv(w, s) && a.Send? && Enabled(w, s, a)
    ensures Inv(w, Apply(w, s, a))
  {
  }

  lemma NoteDeliveredKeepsInv(w: World, s: System, a: Action)
    requires Inv(w, s) && a.NoteDelivered? && Enabled(w, s, a)
    ensures Inv(w, Apply(w, s, a))
  {
    EnvelopeFacts(w, s, a.deliveredId);
    var mail := s.envelopes[a.deliveredId].content.mail;
    assert (mail.recipient, mail.id) in s.received;
    hide OwnersHonest, HeldFiled, NothingLost, ReceiptsKept, ReceiptsTrue, RowsFiled, MailReceived, SentVouched;
    hide Stored, AcceptanceTrue;
    OwnRowKeepsRows(s.mails, s.rows, s.received, mail, DirectionSent, StatusDelivered);
    OwnRowKeepsSent(s.mails, s.rows, s.received, s.recorded, s.envelopes, mail, DirectionSent, StatusDelivered);
  }

  lemma NoteHeldKeepsInv(w: World, s: System, a: Action)
    requires Inv(w, s) && a.NoteHeld? && Enabled(w, s, a)
    ensures Inv(w, Apply(w, s, a))
  {
    EnvelopeFacts(w, s, a.heldId);
    var mail := s.envelopes[a.heldId].content.mail;
    assert ReplyTrue(Reply(Hold, a.holder, a.promoter, a.heldId, true), s.recorded, s.accepted);
    assert Vouches(mail, a.holder, a.heldId, s.recorded, s.envelopes);
    hide OwnersHonest, HeldFiled, NothingLost, ReceiptsKept, ReceiptsTrue, RowsFiled, MailReceived, SentVouched;
    hide Stored, AcceptanceTrue;
    OwnRowKeepsRows(s.mails, s.rows, s.received, mail, DirectionSent, StatusPending);
    OwnRowKeepsSent(s.mails, s.rows, s.received, s.recorded, s.envelopes, mail, DirectionSent, StatusPending);
  }

  lemma RegisterKeepsInv(w: World, s: System, a: Action)
    requires Inv(w, s) && a.RegisterOwner? && Enabled(w, s, a)
    ensures Inv(w, Apply(w, s, a))
  {
  }

  /** A store may lose rows that have expired or were accepted at their mailbox, and records. */
  lemma ShrinkKeepsStores(w: World, s: System, d: NodeId, u: HT.Tables)
    requires HeldFiled(w, s.tables, s.envelopes, s.recorded)
    requires NothingLost(w, s.recorded, s.envelopes, s.tables, s.clock, s.accepted)
    requires var t := TablesOf(s.tables, d);
             && (forall id :: id in u.held ==> id in t.held && u.held[id] == t.held[id])
             && (forall id :: id in u.replay ==> id in t.replay)
             && (forall id :: id in t.held && id !in u.held ==>
                   t.held[id].expiresAt <= ClockOf(s.clock, d) || AcceptedFor(w, t.held[id].mailbox, id, s.accepted))
    ensures HeldFiled(w, s.tables[d := u], s.envelopes, s.recorded)
    ensures NothingLost(w, s.recorded, s.envelopes, s.tables[d := u], s.clock, s.accepted)
  {
    hide AcceptedFor;
  }

  lemma DeleteKeepsInv(w: World, s: System, a: Action)
    requires Inv(w, s) && a.DeleteDelivered? && Enabled(w, s, a)
    ensures Inv(w, Apply(w, s, a))
  {
    var DeleteDelivered(kind, d, n, id) := a;
    assert ReplyTrue(Reply(kind, n, d, id, true), s.recorded, s.accepted);
    assert AcceptedFor(w, s.envelopes[id].mailbox, id, s.accepted);
    hide Filed, RowsFiled, MailReceived, ReceiptsTrue, SentVouched, ReceiptsKept, HeldFiled, NothingLost, AcceptedFor;
    hide RepliesTrue;
    ShrinkKeepsStores(w, s, d, HT.Deleted(TablesOf(s.tables, d), id, s.envelopes[id].mailbox));
  }

  lemma ExpiredRows(t: HT.Tables, now: int)
    ensures var u := HT.Expired(t, now);
            && (forall id :: id in u.held ==> id in t.held && u.held[id] == t.held[id])
            && (forall id :: id in t.held && id !in u.held ==> t.held[id].expiresAt <= now)
            && (forall id :: id in u.replay ==> id in t.replay)
  {
  }

  lemma ExpireKeepsInv(w: World, s: System, a: Action)
    requires Inv(w, s) && a.ExpireHeld? && Enabled(w, s, a)
    ensures Inv(w, Apply(w, s, a))
  {
    hide Filed, RowsFiled, MailReceived, AcceptanceTrue, ReceiptsTrue, RepliesTrue, SentVouched, ReceiptsKept;
    hide OwnersHonest, HeldFiled, NothingLost, HT.Expired;
    ExpiredRows(TablesOf(s.tables, a.expirer), ClockOf(s.clock, a.expirer));
    ShrinkKeepsStores(w, s, a.expirer, HT.Expired(TablesOf(s.tables, a.expirer), ClockOf(s.clock, a.expirer)));
  }

  lemma TickKeepsInv(w: World, s: System, a: Action)
    requires Inv(w, s) && a.Tick? && Enabled(w, s, a)
    ensures Inv(w, Apply(w, s, a))
  {
  }

  lemma DropKeepsInv(w: World, s: System, a: Action)
    requires Inv(w, s) && a.DropFromOutbox? && Enabled(w, s, a)
    ensures Inv(w, Apply(w, s, a))
  {
    hide Filed, RowsFiled, MailReceived, AcceptanceTrue, ReceiptsTrue, OwnersHonest, HeldFiled, NothingLost;
    hide SentVouched;
  }

  lemma EraseKeepsInv(w: World, s: System, a: Action)
    requires Inv(w, s) && a.DeleteRow? && Enabled(w, s, a)
    ensures Inv(w, Apply(w, s, a))
  {
    hide Filed, MailReceived, AcceptanceTrue, ReceiptsTrue, RepliesTrue, OwnersHonest, HeldFiled, NothingLost;
    hide ReceiptsKept;
  }

  lemma LetterKeepsRows(mails: Mails, rows: map<NodeId, Rows>, received: Facts, n: NodeId, mail: Mail)
    requires RowsFiled(rows, mails, received) && MailReceived(received, mails)
    requires mail.id in mails && mails[mail.id] == mail && mail.recipient == n
    ensures var rows' := rows[n := Stored(RowsOf(rows, n), mail, DirectionReceived, StatusDelivered)];
            RowsFiled(rows', mails, received + {(n, mail.id)}) && MailReceived(received + {(n, mail.id)}, mails)
  {
  }

  lemma LetterStoredKeepsInv(w: World, s: System, n: NodeId, mail: Mail)
    requires Inv(w, s) && mail.id in s.mails && s.mails[mail.id] == mail && mail.recipient == n
    ensures Inv(w, LetterStored(s, n, mail)) && (n, mail.id) in LetterStored(s, n, mail).received
  {
    hide OwnersHonest, HeldFiled, NothingLost, ReceiptsKept, RepliesTrue, Filed;
    var s' := LetterStored(s, n, mail);
    LetterKeepsRows(s.mails, s.rows, s.received, n, mail);
    hide RowsFiled, MailReceived;
    SentVouchedLasts(s.rows, s.received, s.recorded, s.envelopes, s'.received, s.recorded, s.envelopes);
  }

  lemma AccountedLasts(w: World, s: System, envelopes: Envelopes, accepted: Facts)
    requires NothingLost(w, s.recorded, s.envelopes, s.tables, s.clock, s.accepted) && s.accepted <= accepted
    requires forall id :: id in s.envelopes ==> id in envelopes && envelopes[id] == s.envelopes[id]
    ensures NothingLost(w, s.recorded, envelopes, s.tables, s.clock, accepted)
  {
    forall d: NodeId, id | (d, id) in s.recorded
      ensures id in envelopes && Accounted(w, d, id, s.recorded[(d, id)], envelopes[id].mailbox, s.tables, s.clock,
                                           accepted)
    {
      assert Accounted(w, d, id, s.recorded[(d, id)], s.envelopes[id].mailbox, s.tables, s.clock, s.accepted);
      if AcceptedFor(w, s.envelopes[id].mailbox, id, s.accepted) {
        var n: NodeId :| (n, id) in s.accepted && w.mailboxOf(n) == s.envelopes[id].mailbox;
        assert (n, id) in accepted;
      }
    }
  }

  lemma ReceiptQueuedKeepsInv(w: World, s: System, n: NodeId, mail: Mail, receiptId: string)
    requires Inv(w, s) && receiptId !in s.envelopes && (n, mail.id) in s.received
    ensures Inv(w, ReceiptQueued(w, s, n, mail, receiptId))
  {
    var s' := ReceiptQueued(w, s, n, mail, receiptId);
    SentVouchedLasts(s.rows, s.received, s.recorded, s.envelopes, s.received, s.recorded, s'.envelopes);
    AccountedLasts(w, s, s'.envelopes, s.accepted);
  }

  lemma ReceiptAppliedKeepsInv(w: World, s: System, n: NodeId, mailId: string, from: NodeId)
    requires Inv(w, s) && (from, mailId) in s.received
    ensures Inv(w, ReceiptApplied(s, n, mailId, from))
  {
  }

  lemma AnsweredKeepsInv(w: World, s: System, kind: Kind, n: NodeId, asker: NodeId, id: string, accepted: bool)
    requires Inv(w, s) && kind != Hold
    requires accepted ==>
               && id in s.envelopes && EqualFold(s.envelopes[id].mailbox, w.mailboxOf(n))
               && (s.envelopes[id].content.Letter? ==>
                     s.envelopes[id].content.mail.recipient == n && (n, s.envelopes[id].content.mail.id) in s.received)
    ensures Inv(w, Answered(s, kind, n, asker, id, accepted))
  {
    AccountedLasts(w, s, s.envelopes, Answered(s, kind, n, asker, id, accepted).accepted);
  }

  lemma ReceiveKeepsInv(w: World, s: System, a: Action)
    requires Inv(w, s) && a.Receive? && Enabled(w, s, a)
    ensures Inv(w, Apply(w, s, a))
  {
    var Receive(kind, n, asker, id, fault, receiptId) := a;
    var e := s.envelopes[id];
    hide Inv;
    EnvelopeFacts(w, s, id);
    var before := BeforeAnswer(w, s, n, id, fault, receiptId);
    assert Inv(w, before) by {
      BeforeAnswerKeepsInv(w, s, n, id, fault, receiptId);
    }
    AnsweredKeepsInv(w, before, kind, n, asker, id, OutcomeAt(w, s, n, id, fault).accepted);
  }

  lemma BeforeAnswerKeepsInv(w: World, s: System, n: NodeId, id: string, fault: Fault, receiptId: string)
    requires Inv(w, s) && id in s.envelopes && receiptId !in s.envelopes
    ensures Inv(w, BeforeAnswer(w, s, n, id, fault, receiptId))
  {
    hide Inv;
    EnvelopeFacts(w, s, id);
    var e := s.envelopes[id];
    if EqualFold(e.mailbox, w.mailboxOf(n)) && Recipient(e.content) == n && fault != BeforeStore {
      match e.content {
        case Letter(mail) =>
          LetterStoredKeepsInv(w, s, n, mail);
          if fault != AfterStore {
            ReceiptQueuedKeepsInv(w, LetterStored(s, n, mail), n, mail, receiptId);
          }
        case Receipt(mailId, from, _) =>
          ReceiptAppliedKeepsInv(w, s, n, mailId, from);
      }
    }
  }

  lemma EnvelopeFacts(w: World, s: System, id: string)
    requires Inv(w, s) && id in s.envelopes
    ensures EnvelopeFiled(s.envelopes[id], id, s.mails)
    ensures s.envelopes[id].content.Receipt? ==>
              (s.envelopes[id].content.from, s.envelopes[id].content.mailId) in s.received
  {
  }

  // A hold request changes one store; AdmittedRows says all that is needed of that transaction.

  lemma AdmittedRows(t: HT.Tables, limits: Limits, legacy: HT.Legacy, r: HT.Request, now: int)
    ensures var v := HT.Decide(t, limits, legacy, r, now);
            var u := HT.Admitted(t, limits, legacy, r, now);
            && (v == HT.Stored ==> (r.id in u.held && r.id in u.replay
                  && u.held[r.id] == HT.HeldRow(r.mailbox, r.payload, r.expiresAt, now, Some(r.user))))
            && (v == HT.AlreadyStored ==> r.id in t.replay)
            && (forall id :: id in u.held && (id != r.id || v != HT.Stored) ==>
                  id in t.held && u.held[id] == t.held[id])
            && (forall id :: id in t.held && id !in u.held ==> t.held[id].expiresAt <= now)
            && (forall id :: id in u.replay ==> id in t.replay || (id == r.id && v == HT.Stored))
  {
  }

  lemma HeldRowLasts(w: World, s: System, a: Action, c: NodeId, k: string)
    requires HeldFiled(w, s.tables, s.envelopes, s.recorded) && a.HandleHold? && Enabled(w, s, a)
    requires c in Apply(w, s, a).tables && k in Apply(w, s, a).tables[c].held
    requires s.envelopes[a.holdId].id == a.holdId
    ensures HeldRowFiled(w, Apply(w, s, a).tables[c].held[k], c, k, s.envelopes, Apply(w, s, a).recorded)
  {
    hide HT.Admitted, HT.Decide;
    var HandleHold(d, n, id) := a;
    AdmittedRows(TablesOf(s.tables, d), w.limits(d), w.legacy(d), HoldRequest(w, s, d, n, id), ClockOf(s.clock, d));
    if c == d && k != id {
      assert k in TablesOf(s.tables, d).held;
    }
  }

  lemma HoldKeepsHeldFiled(w: World, s: System, a: Action)
    requires HeldFiled(w, s.tables, s.envelopes, s.recorded)
    requires Filed(s.mails, s.envelopes) && a.HandleHold? && Enabled(w, s, a)
    ensures var s' := Apply(w, s, a);
            HeldFiled(w, s'.tables, s'.envelopes, s'.recorded)
  {
    hide HT.Admitted, HT.Decide;
    assert EnvelopeFiled(s.envelopes[a.holdId], a.holdId, s.mails);
    var HandleHold(d, n, id) := a;
    var s' := Apply(w, s, a);
    forall c: NodeId, k | c in s'.tables && k in s'.tables[c].held
      ensures HeldRowFiled(w, s'.tables[c].held[k], c, k, s'.envelopes, s'.recorded)
    {
      HeldRowLasts(w, s, a, c, k);
    }
    AdmittedRows(TablesOf(s.tables, d), w.limits(d), w.legacy(d), HoldRequest(w, s, d, n, id), ClockOf(s.clock, d));
  }

  lemma HoldKeepsReplies(w: World, s: System, a: Action)
    requires HeldFiled(w, s.tables, s.envelopes, s.recorded) && RepliesTrue(s.wire, s.recorded, s.accepted)
    requires a.HandleHold? && Enabled(w, s, a)
    ensures var s' := Apply(w, s, a);
            RepliesTrue(s'.wire, s'.recorded, s'.accepted) && s.recorded.Keys <= s'.recorded.Keys
  {
    hide HT.Admitted, HT.Decide;
    var HandleHold(d, n, id) := a;
    AdmittedRows(TablesOf(s.tables, d), w.limits(d), w.legacy(d), HoldRequest(w, s, d, n, id), ClockOf(s.clock, d));
  }

  lemma HoldLosesNothing(w: World, s: System, a: Action)
    requires Inv(w, s) && a.HandleHold? && Enabled(w, s, a)
    ensures var s' := Apply(w, s, a);
            NothingLost(w, s'.recorded, s'.envelopes, s'.tables, s'.clock, s'.accepted)
  {
    hide HT.Admitted, HT.Decide;
    var HandleHold(d, n, id) := a;
    AdmittedRows(TablesOf(s.tables, d), w.limits(d), w.legacy(d), HoldRequest(w, s, d, n, id), ClockOf(s.clock, d));
  }

  lemma HoldKeepsInv(w: World, s: System, a: Action)
    requires Inv(w, s) && a.HandleHold? && Enabled(w, s, a)
    ensures Inv(w, Apply(w, s, a))
  {
    hide HT.Admitted, HT.Decide;
    var s' := Apply(w, s, a);
    HoldKeepsHeldFiled(w, s, a);
    HoldKeepsReplies(w, s, a);
    HoldLosesNothing(w, s, a);
    SentVouchedLasts(s.rows, s.received, s.recorded, s.envelopes, s'.received, s'.recorded, s'.envelopes);
  }
}
