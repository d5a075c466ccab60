/** A peer's message rows, the receive path for mailbox envelopes, and the retry of queued mail. */
module Messages {
  import opened Ages
  import opened Tokens

  /** A namespace with its Ed25519 key: the stable identity of a node. */
  type NodeId = nat

  /** A signed message. Its ID is the digest of the rest, so no two messages share one. */
  datatype Mail = Mail(id: string, sender: NodeId, recipient: NodeId, body: string)

  datatype Direction = DirectionQueued | DirectionSent | DirectionReceived

  datatype Status = StatusQueued | StatusPending | StatusDelivered

  datatype Row = Row(mail: Mail, direction: Direction, status: Status)

  type Rows = map<string, Row>

  /** What a mailbox envelope holds for the only node that can open it. */
  datatype Content = Letter(mail: Mail) | Receipt(mailId: string, from: NodeId, to: NodeId)

  datatype Envelope = Envelope(id: string, mailbox: string, content: Content)

  function Recipient(c: Content): NodeId {
    match c
    case Letter(m) => m.recipient
    case Receipt(_, _, to) => to
  }

  function Origin(c: Content): NodeId {
    match c
    case Letter(m) => m.sender
    case Receipt(_, from, _) => from
  }

  // ---- the row state machine ----

  /** StoreMessage: a new row, or an upsert in which only a queued direction and an undelivered status move. */
  function Stored(rows: Rows, mail: Mail, direction: Direction, status: Status): Rows {
    rows[mail.id :=
      if mail.id in rows then
        var row := rows[mail.id];
        Row(row.mail,
            if row.direction == DirectionQueued then direction else row.direction,
            if row.status == StatusDelivered then StatusDelivered else status)
      else Row(mail, direction, status)]
  }

  /** The row an authenticated receipt from `from` may mark: this node's own outgoing mail to it. */
  predicate ReceiptMatches(rows: Rows, mailId: string, self: NodeId, from: NodeId) {
    && mailId in rows
    && rows[mailId].direction in {DirectionSent, DirectionQueued}
    && rows[mailId].mail.sender == self
    && rows[mailId].mail.recipient == from
  }

  function MarkedDelivered(rows: Rows, mailId: string, self: NodeId, from: NodeId): Rows {
    if ReceiptMatches(rows, mailId, self, from) then rows[mailId := rows[mailId].(status := StatusDelivered)] else rows
  }

  /** A row only ever moves forward: its mail is fixed, queued may leave, delivered stays. */
  predicate RowAdvances(before: Rows, after: Rows, id: string) {
    id in before ==>
      && id in after
      && after[id].mail == before[id].mail
      && (before[id].direction != DirectionQueued ==> after[id].direction == before[id].direction)
      && (before[id].status == StatusDelivered ==> after[id].status == StatusDelivered)
  }

  ghost predicate RowsAdvance(before: Rows, after: Rows) {
    forall id :: RowAdvances(before, after, id)
  }

  lemma UpsertAdvances(rows: Rows, mail: Mail, direction: Direction, status: Status)
    ensures RowsAdvance(rows, Stored(rows, mail, direction, status))
  {
  }

  /** How far a message has come: a status moves back when this falls. */
  function Rank(s: Status): nat {
    match s
    case StatusQueued => 0
    case StatusPending => 1
    case StatusDelivered => 2
  }

  /**
   Of what an upsert does to a known row's status, it moves back if and only if it was pending and is
   stored as queued.
   */
  lemma StatusMovesBack(rows: Rows, mail: Mail, direction: Direction, status: Status)
    requires mail.id in rows
    ensures Rank(Stored(rows, mail, direction, status)[mail.id].status) < Rank(rows[mail.id].status) <==>
            rows[mail.id].status == StatusPending && status == StatusQueued
  {
  }

  /** Storing a sent, pending message as queued again is such a case: its direction stays, its status falls. */
  lemma PendingMovesBack(mail: Mail)
    ensures Stored(map[mail.id := Row(mail, DirectionSent, StatusPending)], mail, DirectionQueued, StatusQueued) ==
            map[mail.id := Row(mail, DirectionSent, StatusQueued)]
  {
  }

  // ---- the receive path ----

  /** Where the receive path may fail for local reasons: before the message row commits, or after. */
  datatype Fault = NoFault | BeforeStore | AfterStore

  /** stored: a letter committed; accepted: the path returned no error, so its sender is told delivered. */
  datatype Outcome = Outcome(rows: Rows, stored: bool, accepted: bool)

  function ReceiveOutcome(rows: Rows, self: NodeId, mailbox: string, e: Envelope, fault: Fault): Outcome {
    if !EqualFold(e.mailbox, mailbox) || Recipient(e.content) != self || fault == BeforeStore then
      Outcome(rows, false, false)
    else match e.content
      case Letter(mail) => Outcome(Stored(rows, mail, DirectionReceived, StatusDelivered), true, fault == NoFault)
      case Receipt(mailId, from, _) =>
        Outcome(MarkedDelivered(rows, mailId, self, from), false, ReceiptMatches(rows, mailId, self, from))
  }

  /**
   A letter is committed and yet answered with a rejection if and only if it reached its recipient and
   failed after the commit.
   */
  lemma CommittedYetRejected(rows: Rows, self: NodeId, mailbox: string, e: Envelope, fault: Fault)
    ensures var o := ReceiveOutcome(rows, self, mailbox, e, fault);
            o.stored && !o.accepted <==>
            e.content.Letter? && EqualFold(e.mailbox, mailbox) && Recipient(e.content) == self && fault == AfterStore
  {
  }

  /** What the network made of one attempt to send a message. */
  datatype SendOutcome = SendFailed | SendRelayed | SendDelivered

  /** The messages whose attempt was relayed or delivered, of those tried. */
  function Promoted(ids: seq<string>, attempt: string -> SendOutcome): seq<string> {
    if ids == [] then []
    else Promoted(ids[..|ids| - 1], attempt) + if attempt(ids[|ids| - 1]) == SendFailed then [] else [ids[|ids| - 1]]
  }

  /** Rows that nobody else touched are as they were but for the promotion of those tried. */
  ghost predicate Retried(before: Rows, rows: Rows, tried: seq<string>, attempt: string -> SendOutcome,
                          touched: set<string>)
  {
    && (forall id :: id !in touched ==> (id in rows <==> id in before))
    && (forall id :: id !in touched && id in rows ==>
          rows[id] == if id in tried then AfterPromotion(before[id], attempt(id)) else before[id])
  }

  /** Each of these rows, at the moment of its promotion, was out of the queue, and delivered if its attempt was. */
  ghost predicate PromotedAs(promotions: seq<Row>, ids: seq<string>, attempt: string -> SendOutcome) {
    && |promotions| == |ids|
    && forall k :: 0 <= k < |ids| ==>
         && promotions[k].mail.id == ids[k] && promotions[k].direction != DirectionQueued
         && (attempt(ids[k]) == SendDelivered ==> promotions[k].status == StatusDelivered)
  }

  lemma NothingRetried(rows: Rows, attempt: string -> SendOutcome)
    ensures Retried(rows, rows, [], attempt, {}) && Promoted([], attempt) == [] && PromotedAs([], [], attempt)
  {
  }

  lemma RetriedOneMore(before: Rows, mid: Rows, after: Rows, tried: seq<string>, id: string,
                       attempt: string -> SendOutcome, touched: set<string>, others: set<string>)
    requires Retried(before, mid, tried, attempt, touched) && id !in tried && id in before
    requires forall k :: k !in others && k != id ==> (k in after <==> k in mid) && (k in after ==> after[k] == mid[k])
    requires id !in others && id in mid ==> id in after && after[id] == AfterPromotion(mid[id], attempt(id))
    ensures Retried(before, after, tried + [id], attempt, touched + others)
  {
    hide AfterPromotion;
  }

  lemma PromotedOneMore(ids: seq<string>, id: string, attempt: string -> SendOutcome)
    ensures Promoted(ids + [id], attempt) ==
            if attempt(id) == SendFailed then Promoted(ids, attempt) else Promoted(ids, attempt) + [id]
  {
    assert (ids + [id])[..|ids|] == ids;
  }

  lemma OneMorePromoted(promotions: seq<Row>, ids: seq<string>, attempt: string -> SendOutcome, row: Row)
    requires PromotedAs(promotions, ids, attempt)
    requires row.direction != DirectionQueued
    requires attempt(row.mail.id) == SendDelivered ==> row.status == StatusDelivered
    ensures PromotedAs(promotions + [row], ids + [row.mail.id], attempt)
  {
  }

  /** A row the retry loop takes up. */
  predicate Waiting(row: Row) {
    row.direction == DirectionQueued && row.status != StatusDelivered
  }

  function WaitingTimes(rows: Rows, arrivals: map<string, int>): map<string, int>
    requires rows.Keys <= arrivals.Keys
  {
    map id | id in rows && Waiting(rows[id]) :: arrivals[id]
  }

  /** The row after its promotion: out of the queue, with the status of its attempt unless already delivered. */
  function AfterPromotion(row: Row, outcome: SendOutcome): Row {
    if outcome == SendFailed then row
    else row.(direction := if row.direction == DirectionQueued then DirectionSent else row.direction,
              status := if outcome == SendDelivered || row.status == StatusDelivered then StatusDelivered
                else StatusPending)
  }

  class Peer {
    const self: NodeId
    const mailbox: string
    var rows: Rows
    /** When each row was first stored, which no upsert changes. */
    var arrivals: map<string, int>
    /** Receipt envelopes not yet recorded by every relay. */
    var outbox: map<string, Envelope>

    ghost predicate Valid()
      reads this
    {
      rows.Keys == arrivals.Keys && forall id :: id in rows ==> rows[id].mail.id == id
    }

    constructor (self: NodeId, mailbox: string)
      ensures Valid() && this.self == self && this.mailbox == mailbox && rows == map[] && outbox == map[]
    {
      this.self, this.mailbox, rows, arrivals, outbox := self, mailbox, map[], map[], map[];
    }

    method StoreMessage(mail: Mail, direction: Direction, status: Status, now: int)
      requires Valid()
      modifies this`rows, this`arrivals
      ensures Valid() && rows == Stored(old(rows), mail, direction, status)
      ensures arrivals == if mail.id in old(rows) then old(arrivals) else old(arrivals)[mail.id := now]
      ensures RowsAdvance(old(rows), rows)
    {
      UpsertAdvances(rows, mail, direction, status);
      hide RowsAdvance;
      var row := Row(mail, direction, status);
      if mail.id in rows {
        row := rows[mail.id];
        if row.direction == DirectionQueued {
          row := row.(direction := direction);
        }
        if row.status != StatusDelivered {
          row := row.(status := status);
        }
      } else {
        arrivals := arrivals[mail.id := now];
      }
      rows := rows[mail.id := row];
    }

    method MarkMessageDeliveredFromReceipt(mailId: string, from: NodeId) returns (matched: bool)
      requires Valid()
      modifies this`rows
      ensures Valid() && rows == MarkedDelivered(old(rows), mailId, self, from)
      ensures matched <==> ReceiptMatches(old(rows), mailId, self, from)
      ensures RowsAdvance(old(rows), rows)
    {
      if mailId !in rows {
        return false;
      }
      var row := rows[mailId];
      if row.direction == DirectionReceived || row.mail.sender != self || row.mail.recipient != from {
        return false;
      }
      if row.status != StatusDelivered {
        rows := rows[mailId := row.(status := StatusDelivered)];
      }
      return true;
    }

    /** The user removes a message from this device; false means that there was none. */
    method DeleteMessage(id: string) returns (deleted: bool)
      requires Valid()
      modifies this`rows, this`arrivals
      ensures Valid() && rows == old(rows) - {id} && arrivals == old(arrivals) - {id}
      ensures deleted <==> id in old(rows)
    {
      deleted := id in rows;
      rows, arrivals := rows - {id}, arrivals - {id};
    }

    /**
     Opens an envelope and commits what it holds. A letter queues a receipt under the fresh ID
     receiptId; a fault after the commit makes the sender believe the message was refused.
     */
    method ReceiveMailboxEnvelope(e: Envelope, fault: Fault, receiptId: string, senderMailbox: string, now: int)
      returns (accepted: bool)
      requires Valid() && receiptId !in outbox
      modifies this`rows, this`arrivals, this`outbox
      ensures Valid()
      ensures var o := ReceiveOutcome(old(rows), self, mailbox, e, fault);
              && rows == o.rows && accepted == o.accepted
              && outbox == if o.stored && o.accepted
                           then old(outbox)[receiptId :=
                                  Envelope(receiptId, senderMailbox,
                                           Receipt(e.content.mail.id, self, e.content.mail.sender))]
                           else old(outbox)
      ensures RowsAdvance(old(rows), rows)
    {
      if !EqualFold(e.mailbox, mailbox) || Recipient(e.content) != self || fault == BeforeStore {
        return false;
      }
      match e.content {
        case Receipt(mailId, from, _) =>
          accepted := MarkMessageDeliveredFromReceipt(mailId, from);
        case Letter(mail) =>
          StoreMessage(mail, DirectionReceived, StatusDelivered, now);
          if fault == AfterStore {
            return false;
          }
          outbox := outbox[receiptId := Envelope(receiptId, senderMailbox, Receipt(mail.id, self, mail.sender))];
          return true;
      }
    }

    /** The oldest of the queued, undelivered rows; a limit out of range means 100. */
    method ListQueuedMessages(limit: int) returns (ids: seq<string>)
      requires Valid()
      ensures OldestPrefix(ids, WaitingTimes(rows, arrivals))
      ensures forall id :: id in ids ==>
                id in rows && rows[id].direction == DirectionQueued && rows[id].status != StatusDelivered
      ensures forall i, j :: 0 <= i < j < |ids| ==> arrivals[ids[i]] <= arrivals[ids[j]]
      ensures forall id, other :: id in ids && other !in ids && other in rows &&
                                  rows[other].direction == DirectionQueued && rows[other].status != StatusDelivered ==>
                arrivals[id] <= arrivals[other]
      ensures var most := if 0 < limit <= 500 then limit else 100;
              && |ids| <= most
              && (|ids| < most ==> forall id :: id in rows && id !in ids ==>
                    rows[id].direction != DirectionQueued || rows[id].status == StatusDelivered)
    {
      var most := if limit <= 0 || limit > 500 then 100 else limit;
      ids := OldestFirst(WaitingTimes(rows, arrivals), most);
    }

    /** Others change rows meanwhile: envelopes arrive, receipts are applied, the user composes and deletes. */
    method OthersChange() returns (ghost touched: set<string>)
      requires Valid()
      modifies this`rows, this`arrivals
      ensures Valid()
      ensures forall id :: id !in touched ==>
                (id in rows <==> id in old(rows)) && (id in rows ==> rows[id] == old(rows)[id])
    {
      touched := {};
      var rounds: nat := *;
      while rounds > 0
        invariant Valid()
        invariant forall id :: id !in touched ==>
                  (id in rows <==> id in old(rows)) && (id in rows ==> rows[id] == old(rows)[id])
      {
        var kind: nat := *;
        var mail: Mail := *;
        var direction: Direction := *;
        var status: Status := *;
        var from: NodeId := *;
        if kind == 0 {
          var now: int := *;
          StoreMessage(mail, direction, status, now);
        } else if kind == 1 {
          var _ := MarkMessageDeliveredFromReceipt(mail.id, from);
        } else {
          var _ := DeleteMessage(mail.id);
        }
        touched := touched + {mail.id};
        rounds := rounds - 1;
      }
    }

    /**
     Retries queued mail, oldest first, while others change rows as they like. A row nobody else touched
     leaves the queue exactly when its attempt was relayed or delivered, is then marked sent with the
     matching status, and is otherwise unchanged. Whatever others did to it, a promoted message is out of
     the queue at the moment of its promotion, and delivered if it was.
     */
    method RetryQueuedMessages(attempt: string -> SendOutcome, now: int)
      returns (accepted: nat, tried: seq<string>, ghost touched: set<string>, ghost promotions: seq<Row>)
      requires Valid()
      modifies this`rows, this`arrivals
      ensures Valid() && |tried| <= 100
      ensures OldestPrefix(tried, WaitingTimes(old(rows), old(arrivals)))
      ensures |tried| < 100 ==> forall id :: id in old(rows) && Waiting(old(rows)[id]) ==> id in tried
      ensures accepted == |Promoted(tried, attempt)|
      ensures PromotedAs(promotions, Promoted(tried, attempt), attempt)
      ensures Retried(old(rows), rows, tried, attempt, touched)
    {
      hide Stored, RowsAdvance, OldestPrefix, WaitingTimes, AfterPromotion, Retried, PromotedAs, Promoted;
      tried := ListQueuedMessages(100);
      TriedAreKnown(tried, rows, arrivals);
      var before := rows;
      accepted, touched, promotions := 0, {}, [];
      NothingRetried(before, attempt);
      for i := 0 to |tried|
        invariant Valid()
        invariant accepted == |Promoted(tried[..i], attempt)|
        invariant PromotedAs(promotions, Promoted(tried[..i], attempt), attempt)
        invariant Retried(before, rows, tried[..i], attempt, touched)
      {
        var id := tried[i];
        ghost var mid := rows;
        assert id !in tried[..i] && tried[..i + 1] == tried[..i] + [id];
        PromotedOneMore(tried[..i], id, attempt);
        var others := TryOne(before[id].mail, attempt(id), now);
        RetriedOneMore(before, mid, rows, tried[..i], id, attempt, touched, others);
        touched := touched + others;
        if attempt(id) != SendFailed {
          OneMorePromoted(promotions, Promoted(tried[..i], attempt), attempt, rows[id]);
          promotions := promotions + [rows[id]];
          accepted := accepted + 1;
        }
      }
      assert tried[..|tried|] == tried;
    }

    /** One message of the loop: others act while it is attempted, and then it is promoted unless it failed. */
    method TryOne(mail: Mail, outcome: SendOutcome, now: int) returns (ghost touched: set<string>)
      requires Valid()
      modifies this`rows, this`arrivals
      ensures Valid()
      ensures forall id :: id !in touched && id != mail.id ==>
                (id in rows <==> id in old(rows)) && (id in rows ==> rows[id] == old(rows)[id])
      ensures mail.id !in touched && mail.id in old(rows) ==>
                mail.id in rows && rows[mail.id] == AfterPromotion(old(rows)[mail.id], outcome)
      ensures outcome != SendFailed ==>
                && mail.id in rows && rows[mail.id].mail.id == mail.id && rows[mail.id].direction != DirectionQueued
                && (outcome == SendDelivered ==> rows[mail.id].status == StatusDelivered)
    {
      touched := OthersChange();
      if outcome != SendFailed {
        Promote(mail, outcome, now);
      }
    }

    static lemma TriedAreKnown(ids: seq<string>, rows: Rows, arrivals: map<string, int>)
      requires rows.Keys <= arrivals.Keys && OldestPrefix(ids, WaitingTimes(rows, arrivals))
      ensures Distinct(ids) && forall id :: id in ids ==> id in rows && Waiting(rows[id])
    {
    }

    /** Stores the listed message as sent; its row is made anew if it has gone. */
    method Promote(mail: Mail, outcome: SendOutcome, now: int)
      requires Valid() && outcome != SendFailed
      modifies this`rows, this`arrivals
      ensures Valid() && rows.Keys == old(rows).Keys + {mail.id}
      ensures forall id :: id in old(rows) && id != mail.id ==> rows[id] == old(rows)[id]
      ensures rows[mail.id] == AfterPromotion(if mail.id in old(rows) then old(rows)[mail.id]
                                              else Row(mail, DirectionQueued, StatusQueued), outcome)
    {
      StoreMessage(mail, DirectionSent, if outcome == SendDelivered then StatusDelivered else StatusPending, now);
    }
  }
}
