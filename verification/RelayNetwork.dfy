/**
 The relays as one node meets them: hold stores behind addresses, a clock, and everybody else's
 requests in between. A request or its answer may be lost.
 */
module RelayNetwork {
  import opened Wrappers
  import opened ByteStrings
  import opened Resource
  import opened HoldStore
  import HT = HoldTables

  /** A mailbox envelope as relays see it: its two tokens and the rest. */
  datatype OpaqueEnvelope = OpaqueEnvelope(id: string, mailbox: string, body: Bytes)

  /** The JSON form of an envelope; decode also validates. */
  datatype Codec = Codec(encode: OpaqueEnvelope -> Bytes, decode: Bytes -> Option<OpaqueEnvelope>)
  {
    ghost predicate RoundTrips() {
      forall e: OpaqueEnvelope :: decode(encode(e)).Some? ==> decode(encode(e)) == Some(e)
    }
  }

  /** One admission at a store, for the history. */
  datatype Admission = Admission(store: Store, request: HT.Request, at: int)

  /** The store has the replay record of this very envelope. */
  predicate HasRecordOf(t: HT.Tables, id: string, mailbox: string, payload: Bytes) {
    id in t.replay && t.replay[id].mailbox == mailbox && t.replay[id].payload == payload
  }

  lemma LiveRecordsStay(t: HT.Tables, limits: Limits, legacy: HT.Legacy, r: HT.Request, now: int, id: string)
    requires id in t.replay && t.replay[id].expiresAt > now
    ensures var u := HT.Admitted(t, limits, legacy, r, now);
            id in u.replay && u.replay[id] == t.replay[id]
    ensures r.id == id ==> HT.Decide(t, limits, legacy, r, now) != HT.Stored
  {
  }

  /** Either positive answer means that the store has the record of exactly what was submitted. */
  lemma HoldingAnswerHasRecord(t: HT.Tables, limits: Limits, legacy: HT.Legacy, r: HT.Request, now: int)
    requires HT.Decide(t, limits, legacy, r, now) in {HT.Stored, HT.AlreadyStored}
    ensures HasRecordOf(HT.Admitted(t, limits, legacy, r, now), r.id, r.mailbox, r.payload)
  {
  }

  /** What becomes of one exchange on its way. */
  datatype Fate = Fate(requestLost: bool, answerLost: bool)

  class Network {
    const relays: map<string, Store>
    /** The fate of each dial. */
    const fate: nat -> Fate
    var now: int
    /** Every admission since the node began to watch, in order. */
    ghost var admissions: seq<Admission>
    /** The envelopes that stores have had replay records of when they answered this node. */
    ghost var recorded: set<(Store, OpaqueEnvelope)>
    /** The addresses this node has dialled to hand over an envelope, in order. */
    var dialled: seq<string>
    /** Which of these dials ended in success. */
    ghost var answers: seq<bool>

    ghost predicate Valid()
      reads this, relays.Values
    {
      && (forall s :: s in relays.Values ==> s.Valid(now))
      && (forall i :: 0 <= i < |admissions| ==>
            admissions[i].store in relays.Values && admissions[i].at <= now && RecordKept(admissions[i]))
      && NoSecondCopy(admissions) && |answers| == |dialled|
    }

    /** An admission that has not expired still has its replay record. */
    ghost predicate RecordKept(a: Admission)
      requires a.store in relays.Values
      reads this, relays.Values
    {
      a.request.expiresAt > now ==>
        && a.request.id in a.store.replay
        && a.store.replay[a.request.id].expiresAt == a.request.expiresAt
    }

    constructor (relays: map<string, Store>, fate: nat -> Fate, now: int)
      requires forall s :: s in relays.Values ==> s.Valid(now)
      ensures Valid() && this.relays == relays && this.fate == fate && this.now == now
      ensures admissions == [] && recorded == {} && dialled == []
    {
      this.relays, this.fate, this.now, admissions, recorded := relays, fate, now, [], {};
      dialled, answers := [], [];
    }

    /** Time passes. */
    method Wait(later: nat)
      requires Valid()
      modifies this`now
      ensures Valid() && now == old(now) + later
    {
      hide HT.Good, NoSecondCopy;
      forall s: Store | s in relays.Values ensures s.Valid(now + later) {
        HT.LaterIsGood(s.Contents(), s.limits, s.legacy, now, now + later);
      }
      now := now + later;
    }

    /** A submission reaches a store. */
    method Submit(store: Store, r: HT.Request) returns (verdict: HT.Verdict)
      requires Valid() && store in relays.Values
      modifies this`admissions, store
      ensures Valid() && now == old(now)
      ensures verdict == HT.Decide(old(store.Contents()), store.limits, store.legacy, r, now)
      ensures store.Contents() == HT.Admitted(old(store.Contents()), store.limits, store.legacy, r, now)
      ensures admissions == if verdict == HT.Stored then old(admissions) + [Admission(store, r, now)]
                else old(admissions)
    {
      hide HT.Good, HT.Decide, HT.Admitted, NoSecondCopy;
      ghost var t := store.Contents();
      AdmissionKeepsRecords(t, store, admissions, r, now);
      verdict := store.StoreForUser(r, now);
      if verdict == HT.Stored {
        HT.StoredLeavesRecord(t, store.limits, store.legacy, r, now);
        admissions := admissions + [Admission(store, r, now)];
      }
    }

    /** A mailbox owner or the cleanup of a store removes rows. */
    method Remove(store: Store, id: string, mailbox: string)
      requires Valid() && store in relays.Values
      modifies store
      ensures Valid() && now == old(now) && store.Contents() == HT.Deleted(old(store.Contents()), id, mailbox)
    {
      hide HT.Good, NoSecondCopy;
      var _ := store.Delete(id, mailbox, now);
    }

    method CleanUp(store: Store)
      requires Valid() && store in relays.Values
      modifies store
      ensures Valid() && now == old(now) && store.Contents() == HT.Expired(old(store.Contents()), now)
    {
      hide HT.Good, NoSecondCopy;
      var _ := store.ExpireHeld(now);
    }

    /** Whatever else happens before the next exchange: time, other senders, owners and cleanups. */
    method Meanwhile()
      requires Valid()
      modifies this`now, this`admissions, relays.Values
      ensures Valid() && old(now) <= now && old(admissions) <= admissions
    {
      var rounds: nat := *;
      while rounds > 0
        invariant Valid() && old(now) <= now && old(admissions) <= admissions
      {
        var later :| later >= 0;
        Wait(later);
        var address: string := *;
        if address in relays {
          var store := relays[address];
          var op: HT.Op := *;
          match op {
            case Admit(r) => var _ := Submit(store, r);
            case Delete(id, mailbox) => Remove(store, id, mailbox);
            case Expire => CleanUp(store);
          }
        }
        rounds := rounds - 1;
      }
    }

    /** A store at hand is asked to hold an envelope; both kinds of success leave the record there. */
    method HoldAt(store: Store, e: OpaqueEnvelope, codec: Codec, user: Bytes) returns (ok: bool)
      requires Valid() && store in relays.Values
      modifies this`admissions, this`recorded, store
      ensures Valid() && now == old(now) && old(admissions) <= admissions
      ensures ok <==> !HT.Decide(old(store.Contents()), store.limits, store.legacy,
                                 HT.Request(e.id, e.mailbox, codec.encode(e), now + 2592000, user), now).Refused?
      ensures ok ==> HasRecordOf(store.Contents(), e.id, e.mailbox, codec.encode(e))
      ensures !ok ==> store.Contents() == old(store.Contents())
      ensures recorded == if ok then old(recorded) + {(store, e)} else old(recorded)
    {
      hide HT.Good, HT.Decide, NoSecondCopy;
      var r := HT.ForHolding(e.id, e.mailbox, codec.encode(e), now, user);
      ghost var t := store.Contents();
      var verdict := Submit(store, r);
      ok := !verdict.Refused?;
      if ok {
        HoldingAnswerHasRecord(t, store.limits, store.legacy, r, now);
        recorded := recorded + {(store, e)};
      }
    }

    /**
     SendHoldMessage to one address. The relay may be unknown or down, and the request or the answer
     may be lost; success is reported only when the relay has the record of this very envelope.
     */
    method SendHoldMessage(address: string, e: OpaqueEnvelope, codec: Codec, user: Bytes) returns (ok: bool)
      requires Valid()
      modifies this`now, this`admissions, this`recorded, this`dialled, this`answers, relays.Values
      ensures Valid() && old(now) <= now && old(admissions) <= admissions && old(recorded) <= recorded
      ensures dialled == old(dialled) + [address] && answers == old(answers) + [ok] && |answers| == |dialled|
      ensures ok ==> !fate(|old(dialled)|).requestLost && !fate(|old(dialled)|).answerLost
      ensures !ok && address in relays && !fate(|old(dialled)|).requestLost && !fate(|old(dialled)|).answerLost ==>
                var store := relays[address];
                HT.Decide(store.Contents(), store.limits, store.legacy,
                          HT.Request(e.id, e.mailbox, codec.encode(e), now + 2592000, user), now).Refused?
      ensures ok ==> address in relays && HasRecordOf(relays[address].Contents(), e.id, e.mailbox, codec.encode(e))
      ensures ok ==> recorded == old(recorded) + {(relays[address], e)}
      ensures recorded <= if address in relays then old(recorded) + {(relays[address], e)} else old(recorded)
    {
      hide HT.Good, HT.Decide, HT.Admitted, NoSecondCopy;
      Meanwhile();
      var exchange := fate(|dialled|);
      ok := false;
      if address in relays && !exchange.requestLost {
        ok := HoldAt(relays[address], e, codec, user);
        if exchange.answerLost {
          ok := false;
        }
      }
      dialled, answers := dialled + [address], answers + [ok];
    }
  }

  lemma AdmissionKeepsRecords(t: HT.Tables, store: Store, admissions: seq<Admission>, r: HT.Request, now: int)
    requires NoSecondCopy(admissions)
    requires forall a :: a in admissions && a.store == store && a.request.expiresAt > now ==>
               a.request.id in t.replay && t.replay[a.request.id].expiresAt == a.request.expiresAt
    ensures var u := HT.Admitted(t, store.limits, store.legacy, r, now);
            forall a :: a in admissions && a.store == store && a.request.expiresAt > now ==>
              a.request.id in u.replay && u.replay[a.request.id].expiresAt == a.request.expiresAt
    ensures HT.Decide(t, store.limits, store.legacy, r, now) == HT.Stored ==>
              NoSecondCopy(admissions + [Admission(store, r, now)])
  {
    hide HT.Decide, HT.Admitted;
    forall a | a in admissions && a.store == store && a.request.expiresAt > now
      ensures var u := HT.Admitted(t, store.limits, store.legacy, r, now);
              a.request.id in u.replay && u.replay[a.request.id].expiresAt == a.request.expiresAt
      ensures a.request.id == r.id ==> HT.Decide(t, store.limits, store.legacy, r, now) != HT.Stored
    {
      LiveRecordsStay(t, store.limits, store.legacy, r, now, a.request.id);
    }
  }

  /** An envelope ID is admitted again at a store only after the earlier admission has expired there. */
  ghost predicate NoSecondCopy(admissions: seq<Admission>) {
    forall i, j :: 0 <= i < j < |admissions| && admissions[i].store == admissions[j].store &&
                   admissions[i].request.id == admissions[j].request.id ==>
      admissions[j].at >= admissions[i].request.expiresAt
  }
}
