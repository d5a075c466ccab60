/** The hold store a Daddy keeps: the transactions of HoldTables, run over the store's own fields. */
module HoldStore {
  import opened Wrappers
  import opened ByteStrings
  import opened Resource
  import opened Ages
  import opened Tokens
  import opened HoldTables
  import opened Listings
  import Sums

  /** SELECT COUNT(*), SUM(length(payload)) over the given rows. */
  method Usage(rows: map<string, HeldRow>) returns (count: nat, bytes: nat)
    ensures count == |rows| && bytes == HeldBytes(rows)
  {
    count, bytes := 0, 0;
    var rest := rows;
    while rest != map[]
      invariant count + |rest| == |rows|
      invariant bytes + HeldBytes(rest) == HeldBytes(rows)
      decreases |rest|
    {
      var id :| id in rest;
      count, bytes := count + 1, bytes + |rest[id].payload|;
      Sums.SumRemove(Sizes(rest), id);
      assert Sizes(rest - {id}) == Sizes(rest) - {id};
      rest := rest - {id};
    }
  }

  class Store {
    const limits: Limits
    const legacy: Legacy
    var held: map<string, HeldRow>
    var replay: map<string, ReplayRow>
    var backfilled: bool

    ghost function Contents(): Tables
      reads this
    {
      Tables(held, replay)
    }

    /** The store's invariant at time now, which every later time inherits. */
    ghost predicate Valid(now: int)
      reads this
    {
      Good(Contents(), limits, legacy, now)
    }

    constructor (limits: Limits, legacy: Legacy)
      requires legacy.messages <= limits.heldMessagesGlobal && legacy.bytes <= limits.heldBytesGlobal
      requires limits.Valid()
      ensures this.limits == limits && this.legacy == legacy
      ensures Contents() == Tables(map[], map[]) && !backfilled
      ensures forall now :: Valid(now)
    {
      this.limits, this.legacy := limits, legacy;
      held, replay, backfilled := map[], map[], false;
      new;
      forall s: Scope ensures ScopeWithin(held, limits, legacy, s) {
        assert HeldIn(held, s) == map[];
        assert Sizes(HeldIn(held, s)) == map[];
      }
      forall s: Option<Bytes> ensures ReplayWithin(replay, limits, s) {
        assert ReplayOf(replay, s) == map[];
      }
    }

    /** Whether one scope still has room for size more bytes in one more row. */
    method RoomIn(rows: map<string, HeldRow>, size: nat, s: Scope) returns (room: bool)
      ensures room <==> HasRoom(rows, size, limits, legacy, s)
    {
      var count, bytes := Usage(HeldIn(rows, s));
      room := count < CountLimit(limits, legacy, s) && bytes + size <= ByteLimit(limits, legacy, s);
    }

    /**
     Admits an opaque envelope for an authenticated user. The transaction works on its own copy
     of the tables and commits only on the path that stores, so any other answer changes nothing.
     */
    method StoreForUser(r: Request, now: int) returns (v: Verdict)
      requires Valid(now)
      modifies this`held, this`replay
      ensures v == Decide(old(Contents()), limits, legacy, r, now)
      ensures Contents() == Admitted(old(Contents()), limits, legacy, r, now)
      ensures v != Stored ==> Contents() == old(Contents())
      ensures Valid(now)
    {
      AdmissionKeepsGood(Contents(), limits, legacy, r, now);
      if !IsToken(r.id) || !IsToken(r.mailbox) {
        return Refused(InvalidToken);
      }
      if |r.payload| == 0 || |r.payload| > MAX_OPAQUE_ENVELOPE_SIZE || r.expiresAt <= now ||
         r.expiresAt > now + MAX_ENVELOPE_RETENTION {
        return Refused(InvalidEnvelope);
      }
      if |r.user| == 0 {
        return Refused(MissingUser);
      }
      var txReplay := DropExpiredReplay(replay, now);
      var txHeld := DropExpiredHeld(held, now);
      if r.id in txReplay {
        if txReplay[r.id].mailbox != r.mailbox || txReplay[r.id].payload != r.payload {
          return Refused(ReplayConflict);
        }
        return AlreadyStored;
      }
      var room := RoomIn(txHeld, |r.payload|, OfUser(r.user));
      if !room {
        return Refused(UserQuota);
      }
      room := RoomIn(txHeld, |r.payload|, OfMailbox(r.mailbox));
      if !room {
        return Refused(MailboxQuota);
      }
      room := RoomIn(txHeld, |r.payload|, Everything);
      if !room {
        return Refused(GlobalQuota);
      }
      if |ReplayOf(txReplay, Some(r.user))| >= limits.replayRecordsPerUser {
        return Refused(UserReplayQuota);
      }
      if |ReplayOf(txReplay, None)| >= limits.replayRecordsGlobal {
        return Refused(GlobalReplayQuota);
      }
      txReplay := txReplay[r.id := ReplayRow(r.mailbox, r.payload, Some(r.user), r.expiresAt)];
      txHeld := txHeld[r.id := HeldRow(r.mailbox, r.payload, r.expiresAt, now, Some(r.user))];
      held, replay := txHeld, txReplay;
      return Stored;
    }

    /** Deletes a delivered envelope; false means it is no longer held for that mailbox. */
    method Delete(id: string, mailbox: string, ghost now: int) returns (deleted: bool)
      requires Valid(now)
      modifies this`held
      ensures deleted <==> id in old(held) && old(held)[id].mailbox == mailbox
      ensures Contents() == Deleted(old(Contents()), id, mailbox)
      ensures |held| == |old(held)| - (if deleted then 1 else 0)
      ensures Valid(now)
    {
      DeletionKeepsGood(Contents(), limits, legacy, id, mailbox, now);
      deleted := id in held && held[id].mailbox == mailbox;
      if deleted {
        assert (held - {id}).Keys == held.Keys - {id};
        assert |(held - {id}).Keys| == |held.Keys| - 1;
        held := held - {id};
      }
    }

    /** Drops what has expired from both tables and returns how many held rows that was. */
    method ExpireHeld(now: int) returns (count: nat)
      requires Valid(now)
      modifies this`held, this`replay
      ensures Contents() == Expired(old(Contents()), now)
      ensures forall id :: id in held <==> id in old(held) && old(held)[id].expiresAt > now
      ensures forall id :: id in replay <==> id in old(replay) && old(replay)[id].expiresAt > now
      ensures count == |old(held)| - |held|
      ensures Valid(now)
    {
      ExpiryKeepsGood(Contents(), limits, legacy, now);
      Sums.CardinalityMonotone(DropExpiredHeld(held, now), held);
      var before := |held|;
      held := DropExpiredHeld(held, now);
      count := before - |held|;
      replay := DropExpiredReplay(replay, now);
    }

    /**
     Lists the live envelopes of a mailbox for one delivery. None is the answer to a malformed
     mailbox ID. The result is a listing in the sense of Listings, whose lemmas say what fetching
     and acknowledging such listings does.
     */
    method ListHeld(mailbox: string, limit: int, now: int) returns (r: Option<seq<string>>)
      requires Valid(now)
      ensures r.None? <==> !IsToken(mailbox)
      ensures r.Some? ==> IsListing(r.value, Live(held, mailbox, now), if 0 < limit <= 256 then limit else 256)
      ensures r.Some? ==> ShowsOldest(r.value, held, mailbox, now, if 0 < limit <= 256 then limit else 256)
    {
      hide ShowsOldest, IsListing;
      if !IsToken(mailbox) {
        return None;
      }
      var effective := if limit <= 0 || limit > 256 then 256 else limit;
      var rows := Live(held, mailbox, now);
      var ids := OldestFirst(StoredTimes(rows), effective);
      var taken, payloadBytes := 0, 0;
      while taken < |ids|
        invariant taken <= |ids|
        invariant payloadBytes == ListedBytes(ids[..taken], rows)
        invariant taken > 1 ==> payloadBytes <= MAX_OPAQUE_DELIVERY_BYTES
      {
        assert ids[..taken + 1][..taken] == ids[..taken];
        if taken > 0 && payloadBytes + |rows[ids[taken]].payload| > MAX_OPAQUE_DELIVERY_BYTES {
          break;
        }
        payloadBytes := payloadBytes + |rows[ids[taken]].payload|;
        taken := taken + 1;
      }
      CutIsListing(ids, taken, rows, effective);
      ListingShowsOldest(ids[..taken], held, mailbox, now, effective);
      r := Some(ids[..taken]);
    }

    /**
     Gives every live row of an upgraded database its replay record, once. Existing records are
     kept (INSERT OR IGNORE), so coverage follows when those agree with the rows they name.
     */
    method Backfill(now: int)
      modifies this`replay, this`backfilled
      ensures old(backfilled) ==> replay == old(replay)
      ensures backfilled
      ensures !old(backfilled) ==>
                (Covered(Contents(), now) <==>
                 forall id :: id in held && held[id].expiresAt > now && id in old(replay) ==>
                   HasRecord(old(Contents()), id))
      ensures forall id :: id in old(replay) ==> id in replay && replay[id] == old(replay)[id]
      ensures forall id :: id in replay && id !in old(replay) ==> id in held && replay[id].submitter.None?
    {
      if backfilled {
        return;
      }
      var before := replay;
      var rest := DropExpiredHeld(held, now).Keys;
      while rest != {}
        invariant rest <= DropExpiredHeld(held, now).Keys
        invariant forall id :: id in before ==> id in replay && replay[id] == before[id]
        invariant forall id :: id in replay && id !in before ==>
                    id in held && HasRecord(Contents(), id) && replay[id].submitter.None?
        invariant forall id :: id in held && held[id].expiresAt > now && id !in rest ==> id in replay
        decreases |rest|
      {
        var id :| id in rest;
        if id !in replay {
          replay := replay[id := ReplayRow(held[id].mailbox, held[id].payload, None, held[id].expiresAt)];
        }
        rest := rest - {id};
      }
      backfilled := true;
    }
  }
}
