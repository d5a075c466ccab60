/** What every run of the delivery protocol keeps, from the empty system on, under any interleaving of steps. */
module DeliveryRuns {
  import opened Wrappers
  import opened ByteStrings
  import opened Resource
  import opened Messages
  import opened Delivery
  import HT = HoldTables

  /** A run: the systems passed through, with the step taken between each and the next. */
  datatype Run = Run(systems: seq<System>, steps: seq<Action>)

  ghost predicate IsRun(w: World, r: Run) {
    && |r.systems| == |r.steps| + 1
    && r.systems[0] == INITIAL
    && forall i :: 0 <= i < |r.steps| ==> IsStep(w, r.systems[i], r.steps[i], r.systems[i + 1])
  }

  ghost predicate IsStep(w: World, s: System, a: Action, s': System) {
    Enabled(w, s, a) && s' == Apply(w, s, a)
  }

  lemma StepKeepsInv(w: World, s: System, a: Action)
    requires Inv(w, s) && Enabled(w, s, a)
    ensures Inv(w, Apply(w, s, a))
  {
    hide Inv, Enabled, Apply;
    match a {
      case Compose(mail) => ComposeKeepsInv(w, s, mail);
      case Wrap(_, _, _) => WrapKeepsInv(w, s, a);
      case Send(_, _, _, _) => SendKeepsInv(w, s, a);
      case Receive(_, _, _, _, _, _) => ReceiveKeepsInv(w, s, a);
      case NoteDelivered(_, _) => NoteDeliveredKeepsInv(w, s, a);
      case HandleHold(_, _, _) => HoldKeepsInv(w, s, a);
      case NoteHeld(_, _, _) => NoteHeldKeepsInv(w, s, a);
      case RegisterOwner(_, _) => RegisterKeepsInv(w, s, a);
      case DeleteDelivered(_, _, _, _) => DeleteKeepsInv(w, s, a);
      case ExpireHeld(_) => ExpireKeepsInv(w, s, a);
      case Tick(_, _) => TickKeepsInv(w, s, a);
      case DropFromOutbox(_, _) => DropKeepsInv(w, s, a);
      case DeleteRow(_, _) => EraseKeepsInv(w, s, a);
    }
  }

  lemma {:induction false} RunsKeepInv(w: World, r: Run, i: nat)
    requires IsRun(w, r) && i <= |r.steps|
    ensures Inv(w, r.systems[i])
  {
    hide Enabled, Apply;
    if i == 0 {
    } else {
      hide Inv;
      RunsKeepInv(w, r, i - 1);
      assert IsStep(w, r.systems[i - 1], r.steps[i - 1], r.systems[i]);
      StepKeepsInv(w, r.systems[i - 1], r.steps[i - 1]);
    }
  }

  // ---- what never goes back ----

  /** Histories grow, envelopes are fixed, and clocks and expiries rise. */
  ghost predicate HistoriesAdvance(s: System, s': System) {
    && s.received <= s'.received && s.accepted <= s'.accepted
    && (forall id :: id in s.envelopes ==> id in s'.envelopes && s'.envelopes[id] == s.envelopes[id])
    && (forall d :: ClockOf(s.clock, d) <= ClockOf(s'.clock, d))
    && (forall k :: k in s.recorded ==> k in s'.recorded && s.recorded[k] <= s'.recorded[k])
  }

  ghost predicate RowsAllAdvance(s: System, s': System) {
    forall n :: RowsAdvance(RowsOf(s.rows, n), RowsOf(s'.rows, n))
  }

  /** An expiry is never more than the retention time ahead of the store's clock. */
  ghost predicate ExpiriesTimely(s: System) {
    forall k :: k in s.recorded ==> s.recorded[k] <= ClockOf(s.clock, k.0) + HT.HELD_MESSAGE_TTL
  }

  lemma RowStepsAdvance(rows: map<NodeId, Rows>, n: NodeId, m: NodeId, mail: Mail, direction: Direction, status: Status)
    requires mail.id in RowsOf(rows, n) ==> RowsOf(rows, n)[mail.id].mail == mail
    ensures RowsAdvance(RowsOf(rows, m), RowsOf(rows[n := Stored(RowsOf(rows, n), mail, direction, status)], m))
  {
  }

  lemma MarkAdvances(rows: map<NodeId, Rows>, n: NodeId, m: NodeId, mailId: string, from: NodeId)
    ensures RowsAdvance(RowsOf(rows, m), RowsOf(rows[n := MarkedDelivered(RowsOf(rows, n), mailId, n, from)], m))
  {
  }

  lemma StoredAdvances(w: World, s: System, s': System, n: NodeId, mail: Mail, direction: Direction, status: Status)
    requires Inv(w, s) && (mail.id in s.mails ==> s.mails[mail.id] == mail)
    requires s'.rows == s.rows[n := Stored(RowsOf(s.rows, n), mail, direction, status)]
    ensures RowsAllAdvance(s, s')
  {
    hide Stored;
    assert mail.id in RowsOf(s.rows, n) ==> RowFiled(RowsOf(s.rows, n)[mail.id], n, mail.id, s.mails, s.received);
    forall m ensures RowsAdvance(RowsOf(s.rows, m), RowsOf(s'.rows, m)) {
      RowStepsAdvance(s.rows, n, m, mail, direction, status);
    }
  }

  /** No step takes a row back, and only its own node's deletion takes it away. */
  lemma StepAdvancesRow(w: World, s: System, a: Action, n: NodeId, id: string)
    requires Inv(w, s) && Enabled(w, s, a) && a != DeleteRow(n, id)
    ensures RowAdvances(RowsOf(s.rows, n), RowsOf(Apply(w, s, a).rows, n), id)
  {
    if a.DeleteRow? {
    } else {
      hide Enabled, Apply, Inv;
      StepAdvancesRows(w, s, a);
      assert RowsAdvance(RowsOf(s.rows, n), RowsOf(Apply(w, s, a).rows, n));
    }
  }

  lemma StepAdvancesRows(w: World, s: System, a: Action)
    requires Inv(w, s) && Enabled(w, s, a) && !a.DeleteRow?
    ensures RowsAllAdvance(s, Apply(w, s, a))
  {
    var s' := Apply(w, s, a);
    match a {
      case Compose(mail) => StoredAdvances(w, s, s', mail.sender, mail, DirectionQueued, StatusQueued);
      case NoteDelivered(n, id) =>
        EnvelopeFacts(w, s, id);
        StoredAdvances(w, s, s', n, s.envelopes[id].content.mail, DirectionSent, StatusDelivered);
      case NoteHeld(n, _, id) =>
        EnvelopeFacts(w, s, id);
        StoredAdvances(w, s, s', n, s.envelopes[id].content.mail, DirectionSent, StatusPending);
      case Receive(_, n, _, id, fault, receiptId) => ReceiveAdvancesRows(w, s, n, id, fault, receiptId);
      case _ =>
    }
  }

  lemma ReceiveAdvancesRows(w: World, s: System, n: NodeId, id: string, fault: Fault, receiptId: string)
    requires Inv(w, s) && id in s.envelopes
    ensures RowsAllAdvance(s, BeforeAnswer(w, s, n, id, fault, receiptId))
  {
    EnvelopeFacts(w, s, id);
    var s' := BeforeAnswer(w, s, n, id, fault, receiptId);
    hide Inv, Stored, MarkedDelivered, RowsAllAdvance, ReceiptQueued;
    if s'.rows == s.rows {
      SameRowsAdvance(s, s');
    } else {
      match s.envelopes[id].content {
        case Letter(mail) => StoredAdvances(w, s, s', n, mail, DirectionReceived, StatusDelivered);
        case Receipt(mailId, from, _) => MarkedAdvances(s, s', n, mailId, from);
      }
    }
  }

  lemma SameRowsAdvance(s: System, s': System)
    requires s'.rows == s.rows
    ensures RowsAllAdvance(s, s')
  {
  }

  lemma MarkedAdvances(s: System, s': System, n: NodeId, mailId: string, from: NodeId)
    requires s'.rows == s.rows[n := MarkedDelivered(RowsOf(s.rows, n), mailId, n, from)]
    ensures RowsAllAdvance(s, s')
  {
    hide MarkedDelivered;
    forall m ensures RowsAdvance(RowsOf(s.rows, m), RowsOf(s'.rows, m)) {
      MarkAdvances(s.rows, n, m, mailId, from);
    }
  }

  lemma ReceiveFrame(w: World, s: System, n: NodeId, id: string, fault: Fault, receiptId: string)
    requires id in s.envelopes
    ensures var s' := BeforeAnswer(w, s, n, id, fault, receiptId);
            && s'.clock == s.clock && s'.recorded == s.recorded && s'.tables == s.tables && s'.owners == s.owners
            && s'.accepted == s.accepted && s.received <= s'.received
  {
    hide LetterStored, ReceiptQueued, ReceiptApplied;
    match s.envelopes[id].content {
      case Letter(mail) => LetterFrame(w, s, n, mail, receiptId);
      case Receipt(mailId, from, _) => ReceiptFrame(s, n, mailId, from);
    }
  }

  lemma LetterFrame(w: World, s: System, n: NodeId, mail: Mail, receiptId: string)
    ensures LetterStored(s, n, mail) ==
            s.(rows := LetterStored(s, n, mail).rows, received := s.received + {(n, mail.id)})
    ensures var s' := LetterStored(s, n, mail);
            var s'' := ReceiptQueued(w, s', n, mail, receiptId);
            s'' == s'.(envelopes := s''.envelopes, outbox := s''.outbox)
  {
    hide Stored;
  }

  lemma ReceiptFrame(s: System, n: NodeId, mailId: string, from: NodeId)
    ensures ReceiptApplied(s, n, mailId, from) == s.(rows := ReceiptApplied(s, n, mailId, from).rows)
  {
    hide MarkedDelivered;
  }

  lemma ReceiveKeepsEnvelopes(w: World, s: System, n: NodeId, id: string, fault: Fault, receiptId: string, k: string)
    requires id in s.envelopes && k in s.envelopes && k != receiptId
    ensures k in BeforeAnswer(w, s, n, id, fault, receiptId).envelopes
    ensures BeforeAnswer(w, s, n, id, fault, receiptId).envelopes[k] == s.envelopes[k]
  {
    hide LetterStored, ReceiptQueued, ReceiptApplied;
    match s.envelopes[id].content {
      case Letter(mail) =>
        LetterFrame(w, s, n, mail, receiptId);
        QueuedEnvelopes(w, LetterStored(s, n, mail), n, mail, receiptId, k);
      case Receipt(mailId, from, _) => ReceiptFrame(s, n, mailId, from);
    }
  }

  lemma QueuedEnvelopes(w: World, s: System, n: NodeId, mail: Mail, receiptId: string, k: string)
    requires k in s.envelopes && k != receiptId
    ensures k in ReceiptQueued(w, s, n, mail, receiptId).envelopes
    ensures ReceiptQueued(w, s, n, mail, receiptId).envelopes[k] == s.envelopes[k]
  {
  }

  lemma HoldAdvances(w: World, s: System, d: NodeId, n: NodeId, id: string)
    requires id in s.envelopes && ExpiriesTimely(s)
    ensures HistoriesAdvance(s, AfterHold(w, s, d, n, id)) && ExpiriesTimely(AfterHold(w, s, d, n, id))
  {
    hide HT.Admitted, HT.Decide;
  }

  lemma StepAdvancesHistories(w: World, s: System, a: Action)
    requires Enabled(w, s, a) && ExpiriesTimely(s)
    ensures HistoriesAdvance(s, Apply(w, s, a)) && ExpiriesTimely(Apply(w, s, a))
  {
    hide HT.Expired, HT.Deleted, Stored, MarkedDelivered, AfterHold, BeforeAnswer, OutcomeAt, Offers;
    if a.Receive? {
      ReceiveFrame(w, s, a.receiver, a.receivedId, a.fault, a.receiptId);
      forall k | k in s.envelopes
        ensures k in Apply(w, s, a).envelopes && Apply(w, s, a).envelopes[k] == s.envelopes[k]
      {
        ReceiveKeepsEnvelopes(w, s, a.receiver, a.receivedId, a.fault, a.receiptId, k);
      }
    } else if a.HandleHold? {
      HoldAdvances(w, s, a.daddy, a.submitter, a.holdId);
    } else if a.Tick? {
    } else if a.Wrap? {
    } else {
      OthersLeaveHistories(w, s, a);
    }
  }

  lemma OthersLeaveHistories(w: World, s: System, a: Action)
    requires Enabled(w, s, a) && !a.Receive? && !a.HandleHold? && !a.Tick? && !a.Wrap?
    ensures var s' := Apply(w, s, a);
            && s'.received == s.received && s'.accepted == s.accepted && s'.envelopes == s.envelopes
            && s'.clock == s.clock && s'.recorded == s.recorded
  {
    hide HT.Expired, HT.Deleted, Stored, MarkedDelivered, AfterHold, BeforeAnswer, OutcomeAt, Offers;
  }

  lemma {:induction false} RunsKeepTimely(w: World, r: Run, i: nat)
    requires IsRun(w, r) && i <= |r.steps|
    ensures ExpiriesTimely(r.systems[i])
  {
    hide Enabled, Apply;
    if i == 0 {
    } else {
      hide ExpiriesTimely;
      RunsKeepTimely(w, r, i - 1);
      assert IsStep(w, r.systems[i - 1], r.steps[i - 1], r.systems[i]);
      StepAdvancesHistories(w, r.systems[i - 1], r.steps[i - 1]);
    }
  }

  lemma {:induction false} RunsAdvance(w: World, r: Run, i: nat, j: nat)
    requires IsRun(w, r) && i <= j <= |r.steps|
    ensures HistoriesAdvance(r.systems[i], r.systems[j])
    decreases j
  {
    hide Enabled, Apply, ExpiriesTimely;
    if i < j {
      RunsAdvance(w, r, i, j - 1);
      RunsKeepTimely(w, r, j - 1);
      assert IsStep(w, r.systems[j - 1], r.steps[j - 1], r.systems[j]);
      StepAdvancesHistories(w, r.systems[j - 1], r.steps[j - 1]);
    }
  }

  /** The node's user deleted the row in between. */
  ghost predicate Erased(r: Run, i: nat, j: nat, n: NodeId, id: string)
    requires i <= j <= |r.steps|
  {
    exists k :: i <= k < j && r.steps[k] == DeleteRow(n, id)
  }

  /** Over any stretch of a run in which its node does not delete it, a row only moves forward. */
  lemma {:induction false} RowsLast(w: World, r: Run, i: nat, j: nat, n: NodeId, id: string)
    requires IsRun(w, r) && i <= j <= |r.steps| && !Erased(r, i, j, n, id)
    ensures RowAdvances(RowsOf(r.systems[i].rows, n), RowsOf(r.systems[j].rows, n), id)
    decreases j
  {
    hide Enabled, Apply, Inv;
    if i < j {
      RowsLast(w, r, i, j - 1, n, id);
      RunsKeepInv(w, r, j - 1);
      assert IsStep(w, r.systems[j - 1], r.steps[j - 1], r.systems[j]);
      StepAdvancesRow(w, r.systems[j - 1], r.steps[j - 1], n, id);
    }
  }

  // ---- a delivered message was received ----

  predicate HasDelivered(s: System, n: NodeId, id: string) {
    id in RowsOf(s.rows, n) && RowsOf(s.rows, n)[id].status == StatusDelivered
  }

  lemma CommitIsThere(w: World, s: System, a: Action, n: NodeId, id: string)
    requires Inv(w, s) && Enabled(w, s, a) && CommitsAt(w, s, a, n, id)
    ensures HasDelivered(Apply(w, s, a), n, id)
  {
    CommittedMail(w, s, a, n, id);
    ReceivedRows(w, s, a.receiver, a.receivedId, a.fault, a.receiptId);
    hide Inv, Enabled, BeforeAnswer, OutcomeAt, CommitsAt;
  }

  lemma CommittedMail(w: World, s: System, a: Action, n: NodeId, id: string)
    requires Inv(w, s) && Enabled(w, s, a) && CommitsAt(w, s, a, n, id)
    ensures a.Receive? && a.receiver == n && a.receivedId in s.envelopes
    ensures var rows := OutcomeAt(w, s, n, a.receivedId, a.fault).rows;
            id in rows && rows[id].status == StatusDelivered
  {
    EnvelopeFacts(w, s, a.receivedId);
  }

  /** What a node has committed it has, delivered, for as long as its user does not delete it. */
  lemma CommittedStays(w: World, r: Run, j: nat, i: nat, n: NodeId, id: string)
    requires IsRun(w, r) && j < i <= |r.steps| && CommitsAt(w, r.systems[j], r.steps[j], n, id)
    requires !Erased(r, j + 1, i, n, id)
    ensures HasDelivered(r.systems[i], n, id)
  {
    hide Inv, Enabled, Apply, CommitsAt;
    RunsKeepInv(w, r, j);
    assert IsStep(w, r.systems[j], r.steps[j], r.systems[j + 1]);
    CommitIsThere(w, r.systems[j], r.steps[j], n, id);
    RowsLast(w, r, j + 1, i, n, id);
  }

  predicate KeptBy(s: System, n: NodeId, mail: Mail) {
    HasDelivered(s, n, mail.id) && RowsOf(s.rows, n)[mail.id].mail == mail
  }

  /**
   Safety of the delivered status: whatever was lost, repeated or reordered, a row that says
   delivered is of a message that its recipient has at some time committed, and that the recipient
   has still unless its user deleted it since.
   */
  lemma DeliveredMeansReceived(w: World, r: Run, i: nat, n: NodeId, id: string)
    requires IsRun(w, r) && i <= |r.steps|
    requires id in RowsOf(r.systems[i].rows, n) && RowsOf(r.systems[i].rows, n)[id].status == StatusDelivered
    ensures var mail := RowsOf(r.systems[i].rows, n)[id].mail;
            && (mail.recipient, id) in r.systems[i].received
            && exists j :: 0 <= j < i && CommitsAt(w, r.systems[j], r.steps[j], mail.recipient, id) &&
                           (Erased(r, j + 1, i, mail.recipient, id) || KeptBy(r.systems[i], mail.recipient, mail))
  {
    RunsKeepInv(w, r, i);
    var s := r.systems[i];
    assert RowFiled(s.rows[n][id], n, id, s.mails, s.received);
    var mail := RowsOf(s.rows, n)[id].mail;
    hide Inv, Enabled, Apply, CommitsAt;
    ReceptionsAreCommits(w, r, i, mail.recipient, id);
    var j: nat :| 0 <= j < i && CommitsAt(w, r.systems[j], r.steps[j], mail.recipient, id);
    if !Erased(r, j + 1, i, mail.recipient, id) {
      CommittedStays(w, r, j, i, mail.recipient, id);
      RowMailIsComposed(w, r, i, n, id);
      RowMailIsComposed(w, r, i, mail.recipient, id);
    }
  }

  lemma RowMailIsComposed(w: World, r: Run, i: nat, n: NodeId, id: string)
    requires IsRun(w, r) && i <= |r.steps| && id in RowsOf(r.systems[i].rows, n)
    ensures id in r.systems[i].mails && RowsOf(r.systems[i].rows, n)[id].mail == r.systems[i].mails[id]
  {
    RunsKeepInv(w, r, i);
    assert RowFiled(r.systems[i].rows[n][id], n, id, r.systems[i].mails, r.systems[i].received);
  }

  /** Unless its node deletes it, a row stays with its mail, and delivered is never undone. */
  lemma DeliveredIsForever(w: World, r: Run, i: nat, j: nat, n: NodeId, id: string)
    requires IsRun(w, r) && i <= j <= |r.steps| && id in RowsOf(r.systems[i].rows, n) && !Erased(r, i, j, n, id)
    ensures id in RowsOf(r.systems[j].rows, n)
    ensures RowsOf(r.systems[j].rows, n)[id].mail == RowsOf(r.systems[i].rows, n)[id].mail
    ensures RowsOf(r.systems[i].rows, n)[id].status == StatusDelivered ==>
              RowsOf(r.systems[j].rows, n)[id].status == StatusDelivered
  {
    hide Inv, Enabled, Apply;
    RowsLast(w, r, i, j, n, id);
  }

  lemma StepCommits(w: World, s: System, a: Action, n: NodeId, id: string)
    requires Enabled(w, s, a) && (n, id) in Apply(w, s, a).received && (n, id) !in s.received
    ensures CommitsAt(w, s, a, n, id)
  {
    hide BeforeAnswer, OutcomeAt, Stored, HT.Admitted, HT.Decide;
    if a.Receive? {
      ReceivedRows(w, s, a.receiver, a.receivedId, a.fault, a.receiptId);
    }
  }

  /** The history of receptions is the history of commits: some earlier receive stored the message. */
  lemma {:induction false} ReceptionsAreCommits(w: World, r: Run, i: nat, n: NodeId, id: string)
    requires IsRun(w, r) && i <= |r.steps| && (n, id) in r.systems[i].received
    ensures exists j :: 0 <= j < i && CommitsAt(w, r.systems[j], r.steps[j], n, id)
  {
    if i > 0 {
      assert IsStep(w, r.systems[i - 1], r.steps[i - 1], r.systems[i]);
      hide Apply, Enabled, CommitsAt;
      if (n, id) in r.systems[i - 1].received {
        ReceptionsAreCommits(w, r, i - 1, n, id);
      } else {
        StepCommits(w, r.systems[i - 1], r.steps[i - 1], n, id);
      }
    }
  }

  /** The step is a receive at n that commits the letter with message ID id. */
  ghost predicate CommitsAt(w: World, s: System, a: Action, n: NodeId, id: string) {
    && a.Receive? && a.receiver == n && a.receivedId in s.envelopes
    && OutcomeAt(w, s, n, a.receivedId, a.fault).stored
    && s.envelopes[a.receivedId].content.mail.id == id
  }

  /** The step is a receive at n that answers envelope id with success. */
  ghost predicate AcceptsAt(w: World, s: System, a: Action, n: NodeId, id: string) {
    a.Receive? && a.receiver == n && a.receivedId == id && id in s.envelopes && OutcomeAt(w, s, n, id, a.fault).accepted
  }

  /** The step is a hold request that store d admits envelope id by, until the given time. */
  ghost predicate AdmitsAt(w: World, s: System, a: Action, d: NodeId, id: string, expiresAt: int) {
    && a.HandleHold? && a.daddy == d && a.holdId == id && id in s.envelopes
    && HoldVerdict(w, s, d, a.submitter, id) == HT.Stored
    && HoldRequest(w, s, d, a.submitter, id).expiresAt == expiresAt
  }

  lemma StepAccepts(w: World, s: System, a: Action, n: NodeId, id: string)
    requires Enabled(w, s, a) && (n, id) in Apply(w, s, a).accepted && (n, id) !in s.accepted
    ensures AcceptsAt(w, s, a, n, id)
  {
    hide BeforeAnswer, OutcomeAt, Stored, HT.Admitted, HT.Decide;
    if a.Receive? {
      ReceivedRows(w, s, a.receiver, a.receivedId, a.fault, a.receiptId);
    }
  }

  lemma StepAdmits(w: World, s: System, a: Action, d: NodeId, id: string)
    requires Enabled(w, s, a) && (d, id) in Apply(w, s, a).recorded
    requires (d, id) in s.recorded ==> s.recorded[(d, id)] != Apply(w, s, a).recorded[(d, id)]
    ensures AdmitsAt(w, s, a, d, id, Apply(w, s, a).recorded[(d, id)])
  {
    hide BeforeAnswer, OutcomeAt, Stored, HT.Admitted, HT.Decide;
    if a.Receive? {
      ReceiveFrame(w, s, a.receiver, a.receivedId, a.fault, a.receiptId);
    }
  }

  /** The history of acceptances is the history of answers of success. */
  lemma {:induction false} AcceptancesAreAnswers(w: World, r: Run, i: nat, n: NodeId, id: string)
    requires IsRun(w, r) && i <= |r.steps| && (n, id) in r.systems[i].accepted
    ensures exists j :: 0 <= j < i && AcceptsAt(w, r.systems[j], r.steps[j], n, id)
  {
    if i > 0 {
      assert IsStep(w, r.systems[i - 1], r.steps[i - 1], r.systems[i]);
      hide Apply, Enabled, AcceptsAt;
      if (n, id) in r.systems[i - 1].accepted {
        AcceptancesAreAnswers(w, r, i - 1, n, id);
      } else {
        StepAccepts(w, r.systems[i - 1], r.steps[i - 1], n, id);
      }
    }
  }

  /** The history of records is the history of admissions, each with the expiry it was admitted under. */
  lemma {:induction false} RecordsAreAdmissions(w: World, r: Run, i: nat, d: NodeId, id: string)
    requires IsRun(w, r) && i <= |r.steps| && (d, id) in r.systems[i].recorded
    ensures exists j :: 0 <= j < i && AdmitsAt(w, r.systems[j], r.steps[j], d, id, r.systems[i].recorded[(d, id)])
  {
    if i > 0 {
      assert IsStep(w, r.systems[i - 1], r.steps[i - 1], r.systems[i]);
      hide Apply, Enabled, AdmitsAt;
      if (d, id) in r.systems[i - 1].recorded && r.systems[i - 1].recorded[(d, id)] == r.systems[i].recorded[(d, id)] {
        RecordsAreAdmissions(w, r, i - 1, d, id);
      } else {
        StepAdmits(w, r.systems[i - 1], r.steps[i - 1], d, id);
      }
    }
  }

  /**
   However many fresh envelopes carry a message again, receiving it again changes no row if and only
   if the recipient still has its row; for mail to itself, whose row its own sending may have made
   anew, the row must be delivered and out of the queue.
   */
  lemma RepeatChangesNoRow(w: World, r: Run, i: nat, n: NodeId, mail: Mail)
    requires IsRun(w, r) && i <= |r.steps| && (n, mail.id) in r.systems[i].received
    requires mail.id in r.systems[i].mails && r.systems[i].mails[mail.id] == mail
    ensures var rows := RowsOf(r.systems[i].rows, n);
            RowsOf(LetterStored(r.systems[i], n, mail).rows, n) == rows <==>
            && mail.id in rows
            && (mail.sender == n ==>
                  rows[mail.id].status == StatusDelivered && rows[mail.id].direction != DirectionQueued)
    ensures forall m :: m != n ==> RowsOf(LetterStored(r.systems[i], n, mail).rows, m) == RowsOf(r.systems[i].rows, m)
  {
    RunsKeepInv(w, r, i);
    var s := r.systems[i];
    var rows := RowsOf(s.rows, n);
    assert mail.id in rows ==> RowFiled(rows[mail.id], n, mail.id, s.mails, s.received);
    RepeatOfRow(rows, mail);
  }

  lemma RepeatOfRow(rows: Rows, mail: Mail)
    requires mail.id in rows ==> rows[mail.id].mail == mail
    ensures Stored(rows, mail, DirectionReceived, StatusDelivered) == rows <==>
            mail.id in rows && rows[mail.id].status == StatusDelivered && rows[mail.id].direction != DirectionQueued
  {
    var after := Stored(rows, mail, DirectionReceived, StatusDelivered);
    assert mail.id in after;
    if mail.id in rows && rows[mail.id].status == StatusDelivered && rows[mail.id].direction != DirectionQueued {
      assert after == rows;
    } else if mail.id in rows {
      assert after[mail.id] != rows[mail.id];
    }
  }

  // ---- nothing a store took on is lost ----

  ghost predicate HeldIntact(w: World, s: System, d: NodeId, id: string) {
    && id in s.envelopes && id in TablesOf(s.tables, d).held
    && TablesOf(s.tables, d).held[id].mailbox == s.envelopes[id].mailbox
    && TablesOf(s.tables, d).held[id].payload == w.encode(s.envelopes[id])
    && TablesOf(s.tables, d).held[id].expiresAt > ClockOf(s.clock, d)
  }

  /** The owner of the envelope's mailbox accepted it, and, if it is a letter, its recipient has received it. */
  ghost predicate AcceptedByOwner(w: World, s: System, id: string) {
    && id in s.envelopes
    && AcceptedFor(w, s.envelopes[id].mailbox, id, s.accepted)
    && (s.envelopes[id].content.Letter? ==>
          (s.envelopes[id].content.mail.recipient, s.envelopes[id].content.mail.id) in s.received)
  }

  lemma RecordedIsSafe(w: World, s: System, d: NodeId, id: string)
    requires Inv(w, s) && (d, id) in s.recorded && s.recorded[(d, id)] > ClockOf(s.clock, d)
    ensures HeldIntact(w, s, d, id) || AcceptedByOwner(w, s, id)
  {
    assert Accounted(w, d, id, s.recorded[(d, id)], s.envelopes[id].mailbox, s.tables, s.clock, s.accepted);
    if d in s.tables && id in s.tables[d].held {
      assert HeldRowFiled(w, s.tables[d].held[id], d, id, s.envelopes, s.recorded);
    } else {
      var n: NodeId :| (n, id) in s.accepted && w.mailboxOf(n) == s.envelopes[id].mailbox;
    }
  }

  /**
   No loss: an envelope that a store has admitted is, at every later time before its expiry there,
   still held with its content intact, or accepted by the owner of its mailbox.
   */
  lemma HeldIsNeverLost(w: World, r: Run, i: nat, j: nat, d: NodeId, id: string)
    requires IsRun(w, r) && i <= j <= |r.steps|
    requires (d, id) in r.systems[i].recorded && ClockOf(r.systems[j].clock, d) < r.systems[i].recorded[(d, id)]
    ensures HeldIntact(w, r.systems[j], d, id) || AcceptedByOwner(w, r.systems[j], id)
  {
    RunsAdvance(w, r, i, j);
    RunsKeepInv(w, r, j);
    hide Inv;
    RecordedIsSafe(w, r.systems[j], d, id);
  }

  /** A positive answer to a hold request is never given without a record. */
  lemma HoldAnswersAreRecords(w: World, r: Run, i: nat, d: NodeId, n: NodeId, id: string)
    requires IsRun(w, r) && i <= |r.steps| && Reply(Hold, d, n, id, true) in r.systems[i].wire
    ensures (d, id) in r.systems[i].recorded
  {
    RunsKeepInv(w, r, i);
    assert ReplyTrue(Reply(Hold, d, n, id, true), r.systems[i].recorded, r.systems[i].accepted);
  }

  ghost predicate CarriedSafely(w: World, s: System, mail: Mail) {
    exists d: NodeId, e: string ::
      Vouches(mail, d, e, s.recorded, s.envelopes) &&
        (HeldIntact(w, s, d, e) || s.recorded[(d, e)] <= ClockOf(s.clock, d))
  }

  /**
   A message that left its sender's queue is not lost: its recipient has it, or some store still
   holds an envelope that carries it, or the time of that envelope at that store has run out.
   */
  lemma SentIsNeverLost(w: World, r: Run, i: nat, n: NodeId, id: string)
    requires IsRun(w, r) && i <= |r.steps|
    requires id in RowsOf(r.systems[i].rows, n) && RowsOf(r.systems[i].rows, n)[id].direction == DirectionSent
    ensures var s := r.systems[i];
            var mail := RowsOf(s.rows, n)[id].mail;
            (mail.recipient, mail.id) in s.received || CarriedSafely(w, s, mail)
  {
    RunsKeepInv(w, r, i);
    var s := r.systems[i];
    var mail := RowsOf(s.rows, n)[id].mail;
    assert Vouched(mail, s.received, s.recorded, s.envelopes);
    hide Inv;
    if (mail.recipient, mail.id) !in s.received {
      var d: NodeId, e: string :| Vouches(mail, d, e, s.recorded, s.envelopes);
      if s.recorded[(d, e)] > ClockOf(s.clock, d) {
        RecordedIsSafe(w, s, d, e);
      }
    }
  }

  /** A receipt is in its maker's outbox until every one of the maker's relays has recorded it. */
  lemma ReceiptsAreKept(w: World, r: Run, i: nat, id: string)
    requires IsRun(w, r) && i <= |r.steps|
    requires id in r.systems[i].envelopes && r.systems[i].envelopes[id].content.Receipt?
    ensures var s := r.systems[i];
            var n := s.envelopes[id].content.from;
            || (n, id) in s.outbox
            || (w.relaysOf(n) != {} && forall d :: d in w.relaysOf(n) ==> (d, id) in s.recorded)
  {
    RunsKeepInv(w, r, i);
    assert ReceiptKept(w, r.systems[i].envelopes[id].content.from, id, r.systems[i].outbox, r.systems[i].recorded);
  }

  // ---- every store stays within its quotas ----

  ghost predicate StoresGood(w: World, tables: map<NodeId, HT.Tables>, clock: map<NodeId, int>) {
    forall d: NodeId :: d in tables ==> HT.Good(tables[d], w.limits(d), w.legacy(d), ClockOf(clock, d))
  }

  /** Every node's limits are valid, and the legacy rows it counted at startup fit its global quota. */
  ghost predicate Sensible(w: World) {
    forall d: NodeId ::
      && w.limits(d).Valid()
      && w.legacy(d).messages <= w.limits(d).heldMessagesGlobal && w.legacy(d).bytes <= w.limits(d).heldBytesGlobal
  }

  lemma EmptyIsGood(w: World, d: NodeId, now: int)
    requires Sensible(w)
    ensures HT.Good(HT.Tables(map[], map[]), w.limits(d), w.legacy(d), now)
  {
    var t := HT.Tables(map[], map[]);
    forall s: HT.Scope ensures HT.ScopeWithin(t.held, w.limits(d), w.legacy(d), s) {
      assert HT.HeldIn(t.held, s) == map[] && HT.Sizes(map[]) == map[];
    }
    forall s: Option<Bytes> ensures HT.ReplayWithin(t.replay, w.limits(d), s) {
      assert HT.ReplayOf(t.replay, s) == map[];
    }
  }

  lemma StepKeepsStores(w: World, s: System, a: Action)
    requires Sensible(w) && StoresGood(w, s.tables, s.clock) && Enabled(w, s, a)
    ensures StoresGood(w, Apply(w, s, a).tables, Apply(w, s, a).clock)
  {
    hide HT.Good, HT.Admitted, HT.Decide, HT.Expired, HT.Deleted, BeforeAnswer, OutcomeAt, Stored, MarkedDelivered;
    match a {
      case HandleHold(d, n, id) =>
        GoodAt(w, s, d);
        HT.AdmissionKeepsGood(TablesOf(s.tables, d), w.limits(d), w.legacy(d), HoldRequest(w, s, d, n, id),
                              ClockOf(s.clock, d));
      case DeleteDelivered(_, d, _, id) =>
        GoodAt(w, s, d);
        HT.DeletionKeepsGood(TablesOf(s.tables, d), w.limits(d), w.legacy(d), id, s.envelopes[id].mailbox,
                             ClockOf(s.clock, d));
      case ExpireHeld(d) =>
        GoodAt(w, s, d);
        HT.ExpiryKeepsGood(TablesOf(s.tables, d), w.limits(d), w.legacy(d), ClockOf(s.clock, d));
      case Tick(d, time) =>
        GoodAt(w, s, d);
        HT.LaterIsGood(TablesOf(s.tables, d), w.limits(d), w.legacy(d), ClockOf(s.clock, d), time);
      case Receive(_, n, _, id, fault, receiptId) =>
        ReceiveFrame(w, s, n, id, fault, receiptId);
      case _ =>
    }
  }

  lemma GoodAt(w: World, s: System, d: NodeId)
    requires Sensible(w) && StoresGood(w, s.tables, s.clock)
    ensures HT.Good(TablesOf(s.tables, d), w.limits(d), w.legacy(d), ClockOf(s.clock, d))
  {
    if d !in s.tables {
      EmptyIsGood(w, d, ClockOf(s.clock, d));
    }
  }

  /** Over every run, every store keeps all its quotas at once and a replay record for each live row. */
  lemma {:induction false} RunsKeepStores(w: World, r: Run, i: nat)
    requires Sensible(w) && IsRun(w, r) && i <= |r.steps|
    ensures StoresGood(w, r.systems[i].tables, r.systems[i].clock)
  {
    hide Enabled, Apply, HT.Good, Sensible;
    if i > 0 {
      hide StoresGood;
      RunsKeepStores(w, r, i - 1);
      assert IsStep(w, r.systems[i - 1], r.steps[i - 1], r.systems[i]);
      StepKeepsStores(w, r.systems[i - 1], r.steps[i - 1]);
    }
  }

  // ---- a rejection does not mean that nothing was received ----

  /** Every message can come to be received by a recipient that answers its delivery with a rejection. */
  lemma RejectedThoughReceived(w: World, mail: Mail, wrapId: string, receiptId: string)
    requires wrapId != receiptId
    ensures exists r ::
      && IsRun(w, r)
      && (mail.recipient, mail.id) in r.systems[|r.steps|].received
      && Reply(Direct, mail.recipient, mail.sender, wrapId, false) in r.systems[|r.steps|].wire
      && Reply(Direct, mail.recipient, mail.sender, wrapId, true) !in r.systems[|r.steps|].wire
  {
    hide Stored;
    var steps := [
      Compose(mail),
      Wrap(mail.id, wrapId, w.mailboxOf(mail.recipient)),
      Send(Direct, mail.sender, mail.recipient, wrapId),
      Receive(Direct, mail.recipient, mail.sender, wrapId, AfterStore, receiptId)];
    var s1 := Apply(w, INITIAL, steps[0]);
    var s2 := Apply(w, s1, steps[1]);
    var s3 := Apply(w, s2, steps[2]);
    var s4 := Apply(w, s3, steps[3]);
    var r := Run([INITIAL, s1, s2, s3, s4], steps);
    assert IsRun(w, r);
    assert r.systems[|r.steps|] == s4;
  }
}
