/** The local outbox of opaque envelopes that still have to reach every relay. */
module Outbox {
  import opened Wrappers
  import opened ByteStrings
  import opened Resource
  import opened Tokens
  import opened Ages
  import HT = HoldTables
  import Sums

  datatype OutboxRow = OutboxRow(mailbox: string, payload: Bytes, storedAt: int)

  type OutboxRows = map<string, OutboxRow>

  datatype Refusal = InvalidToken | InvalidSize | MessageQuota | ByteQuota

  function Sizes(rows: OutboxRows): map<string, nat> {
    map id | id in rows :: |rows[id].payload|
  }

  ghost function TotalBytes(rows: OutboxRows): nat {
    Sums.Sum(Sizes(rows))
  }

  ghost predicate Within(rows: OutboxRows, limits: Limits) {
    |rows| <= limits.outboxMessages && TotalBytes(rows) <= limits.outboxBytes
  }

  /** The upsert: a known ID gets the new payload and time but keeps the mailbox it was queued for. */
  function Upserted(rows: OutboxRows, id: string, mailbox: string, payload: Bytes, now: int): OutboxRows {
    rows[id := OutboxRow(if id in rows then rows[id].mailbox else mailbox, payload, now)]
  }

  /** What the outbox would hold if the upsert went through decides whether it may. */
  ghost function Refusing(rows: OutboxRows, limits: Limits, id: string, mailbox: string, payload: Bytes,
                          now: int): Option<Refusal> {
    var after := Upserted(rows, id, mailbox, payload, now);
    if !IsToken(id) || !IsToken(mailbox) then Some(InvalidToken)
    else if !(0 < |payload| <= HT.MAX_OPAQUE_ENVELOPE_SIZE) then Some(InvalidSize)
    else if |after| > |rows| >= limits.outboxMessages then Some(MessageQuota)
    else if TotalBytes(after) > limits.outboxBytes then Some(ByteQuota)
    else None
  }

  lemma TotalBytesRemove(rows: OutboxRows, id: string)
    requires id in rows
    ensures TotalBytes(rows) == TotalBytes(rows - {id}) + |rows[id].payload|
  {
    Sums.SumRemove(Sizes(rows), id);
    assert Sizes(rows - {id}) == Sizes(rows) - {id};
  }

  lemma UpsertedBytes(rows: OutboxRows, id: string, mailbox: string, payload: Bytes, now: int)
    ensures var after := Upserted(rows, id, mailbox, payload, now);
            && |after| == |rows| + (if id in rows then 0 else 1)
            && TotalBytes(after) == TotalBytes(rows) - (if id in rows then |rows[id].payload| else 0) + |payload|
  {
    hide TotalBytes;
    var after := Upserted(rows, id, mailbox, payload, now);
    TotalBytesRemove(after, id);
    assert after - {id} == rows - {id};
    if id in rows {
      TotalBytesRemove(rows, id);
      assert after.Keys == rows.Keys;
    } else {
      assert rows - {id} == rows;
    }
  }

  lemma RemovalKeepsWithin(rows: OutboxRows, limits: Limits, id: string)
    requires Within(rows, limits)
    ensures Within(rows - {id}, limits)
  {
    Sums.CardinalityMonotone(rows - {id}, rows);
    if id in rows {
      TotalBytesRemove(rows, id);
    } else {
      assert rows - {id} == rows;
    }
  }

  function StoredTimes(rows: OutboxRows): map<string, int> {
    map id | id in rows :: rows[id].storedAt
  }

  /** The outbox of one node. */
  class LocalOutbox {
    const limits: Limits
    var rows: OutboxRows
    /** The IDs queued so far, in order. */
    ghost var queued: seq<string>

    ghost predicate Valid()
      reads this
    {
      Within(rows, limits)
    }

    constructor (limits: Limits)
      requires limits.Valid()
      ensures Valid() && this.limits == limits && rows == map[] && queued == []
    {
      this.limits, rows, queued := limits, map[], [];
      new;
      assert Sizes(rows) == map[];
    }

    method Usage() returns (count: nat, bytes: nat)
      ensures count == |rows| && bytes == TotalBytes(rows)
    {
      count, bytes := 0, 0;
      var rest := rows;
      while rest != map[]
        invariant count + |rest| == |rows|
        invariant bytes + TotalBytes(rest) == TotalBytes(rows)
        decreases |rest|
      {
        var id :| id in rest;
        TotalBytesRemove(rest, id);
        count, bytes := count + 1, bytes + |rest[id].payload|;
        rest := rest - {id};
      }
    }

    /** Queues or replaces one envelope; a refusal leaves the outbox as it was. */
    method QueueOpaqueOutbox(id: string, mailbox: string, payload: Bytes, now: int) returns (refusal: Option<Refusal>)
      requires Valid()
      modifies this`rows, this`queued
      ensures refusal == Refusing(old(rows), limits, id, mailbox, payload, now)
      ensures rows == if refusal.None? then Upserted(old(rows), id, mailbox, payload, now) else old(rows)
      ensures queued == if refusal.None? then old(queued) + [id] else old(queued)
      ensures Valid()
    {
      UpsertedBytes(rows, id, mailbox, payload, now);
      if !IsToken(id) || !IsToken(mailbox) {
        return Some(InvalidToken);
      }
      if |payload| == 0 || |payload| > HT.MAX_OPAQUE_ENVELOPE_SIZE {
        return Some(InvalidSize);
      }
      var count, storedBytes := Usage();
      var oldBytes := if id in rows then |rows[id].payload| else 0;
      if id !in rows && count >= limits.outboxMessages {
        return Some(MessageQuota);
      }
      if storedBytes - oldBytes + |payload| > limits.outboxBytes {
        return Some(ByteQuota);
      }
      rows := rows[id := OutboxRow(if id in rows then rows[id].mailbox else mailbox, payload, now)];
      queued := queued + [id];
      return None;
    }

    /** The oldest rows, as many as asked for but at most 500; any other limit means 200. */
    method ListOpaqueOutbox(limit: int) returns (ids: seq<string>)
      ensures OldestPrefix(ids, StoredTimes(rows))
      ensures forall id :: id in ids ==> id in rows
      ensures forall i, j :: 0 <= i < j < |ids| ==> rows[ids[i]].storedAt <= rows[ids[j]].storedAt
      ensures forall id, other :: id in ids && other in rows && other !in ids ==>
                rows[id].storedAt <= rows[other].storedAt
      ensures var most := if 0 < limit <= 500 then limit else 200;
              |ids| <= most && (|ids| < most ==> forall id :: id in rows ==> id in ids)
    {
      var most := if limit <= 0 || limit > 500 then 200 else limit;
      ids := OldestFirst(StoredTimes(rows), most);
    }

    method RemoveOpaqueOutbox(id: string)
      requires Valid()
      modifies this`rows
      ensures rows == old(rows) - {id} && Valid()
    {
      RemovalKeepsWithin(rows, limits, id);
      rows := rows - {id};
    }
  }
}
