/** Submitting the outbox to every configured relay, and trying relays one after another. */
module OutboxSync {
  import opened Wrappers
  import opened ByteStrings
  import opened Ages
  import opened Tokens
  import opened Outbox
  import opened Relays
  import opened RelayNetwork
  import opened HoldStore

  type Records = set<(Store, OpaqueEnvelope)>

  // ---- the relays a configuration names ----

  datatype Config = Config(relays: seq<Relay>, legacy: string)

  predicate Configured(c: Config, address: string) {
    address != "" && (address == Trim(c.legacy) || exists r :: r in c.relays && Trim(r.address) == address)
  }

  /** A configured address, or the built-in one when nothing is configured. */
  ghost predicate IsRelay(c: Config, address: string) {
    Configured(c, address) || (address == DEFAULT_DADDY_ADDRESS && forall other :: !Configured(c, other))
  }

  lemma {:induction false} NonBlankMembers(rs: seq<Relay>, address: string)
    ensures address in NonBlank(rs) <==> address != "" && exists r :: r in rs && Trim(r.address) == address
  {
    if rs != [] {
      var front, last := rs[..|rs| - 1], rs[|rs| - 1];
      NonBlankMembers(front, address);
      assert forall r :: r in rs <==> r in front || r == last;
    }
  }

  /** The dial list is the configuration: every configured address is dialled, and nothing else. */
  lemma DialListIsConfiguration(c: Config, ordered: seq<Relay>, address: string)
    requires multiset(ordered) == multiset(c.relays)
    ensures var all := FirstOccurrences(WithLegacy(NonBlank(ordered), c.legacy));
            address in (if all == [] then [DEFAULT_DADDY_ADDRESS] else all) <==> IsRelay(c, address)
  {
    hide NonBlank, FirstOccurrences, Trim;
    var listed := WithLegacy(NonBlank(ordered), c.legacy);
    FirstOccurrencesKeepOrder(listed);
    forall x ensures x in listed <==> Configured(c, x) {
      NonBlankMembers(ordered, x);
      assert forall r :: r in ordered <==> r in multiset(ordered);
      assert forall r :: r in c.relays <==> r in multiset(c.relays);
    }
    var all := FirstOccurrences(listed);
    if all == [] {
      forall x ensures !Configured(c, x) {
        assert x !in all;
      }
    } else {
      assert all[0] in all && Configured(c, all[0]);
    }
  }

  /** The addresses are those of the configuration, in some order. */
  ghost predicate Covers(addresses: seq<string>, c: Config) {
    forall address :: address in addresses <==> IsRelay(c, address)
  }

  method DialList(c: Config) returns (addresses: seq<string>)
    ensures addresses != [] && Covers(addresses, c)
  {
    hide NonBlank, FirstOccurrences, WithLegacy, IsRelay, Trim;
    ghost var ordered;
    addresses, ordered := DaddyAddresses(c.relays, c.legacy);
    forall address ensures address in addresses <==> IsRelay(c, address) {
      DialListIsConfiguration(c, ordered, address);
    }
  }

  lemma RelaysAreNotBlank(c: Config, address: string)
    requires IsRelay(c, address)
    ensures !Blank(address)
  {
    if address == DEFAULT_DADDY_ADDRESS {
      assert !IsSpace(address[0]);
    }
  }

  // ---- what it means to have reached every relay ----

  ghost predicate RecordedByAll(relays: map<string, Store>, recorded: Records, c: Config, e: OpaqueEnvelope) {
    forall address :: IsRelay(c, address) ==> address in relays && (relays[address], e) in recorded
  }

  /** The relays a node is configured with, read anew from its settings each time they are needed. */
  class Settings {
    const at: nat -> Config
    var readings: nat

    constructor (at: nat -> Config)
      ensures this.at == at && readings == 0
    {
      this.at, readings := at, 0;
    }

    method Read() returns (c: Config)
      modifies this`readings
      ensures c == at(old(readings)) && readings == old(readings) + 1
    {
      c := at(readings);
      readings := readings + 1;
    }
  }

  /** What has become of the network and the settings so far, as far as reaching relays goes. */
  datatype Reach = Reach(relays: map<string, Store>, recorded: Records, at: nat -> Config, readings: nat)
  {
    ghost predicate Grows(later: Reach) {
      relays == later.relays && recorded <= later.recorded && at == later.at && readings <= later.readings
    }
  }

  /** The envelope reached every relay of the configuration as it was at one of the readings since then. */
  ghost predicate ReachedAll(r: Reach, since: nat, e: OpaqueEnvelope) {
    exists k: nat :: since <= k < r.readings && RecordedByAll(r.relays, r.recorded, r.at(k), e)
  }

  /** The envelope stored in this form has. */
  ghost predicate Reached(r: Reach, since: nat, codec: Codec, payload: Bytes) {
    codec.decode(payload).Some? && ReachedAll(r, since, codec.decode(payload).value)
  }

  /** Later readings and records leave what has been reached, and longer stretches include it. */
  lemma ReachedStays(before: Reach, after: Reach, from: nat, since: nat, codec: Codec, payload: Bytes)
    requires before.Grows(after) && since <= from && Reached(before, from, codec, payload)
    ensures Reached(after, since, codec, payload)
  {
    var e := codec.decode(payload).value;
    var k: nat :| from <= k < before.readings && RecordedByAll(before.relays, before.recorded, before.at(k), e);
    assert RecordedByAll(after.relays, after.recorded, after.at(k), e);
  }

  ghost function ReachOf(net: Network, settings: Settings): Reach
    reads net`recorded, settings
  {
    Reach(net.relays, net.recorded, settings.at, settings.readings)
  }

  /**
   Outer IDs are fresh, so an ID names one envelope: contents is the form it is stored in, and what that
   decodes to has that ID.
   */
  ghost predicate Filed(rows: OutboxRows, codec: Codec, contents: string -> Bytes) {
    && (forall id :: id in rows ==> rows[id].payload == contents(id))
    && (forall id :: codec.decode(contents(id)).Some? ==> codec.decode(contents(id)).value.id == id)
  }

  /** The outbox, its history, and what has become of the network. */
  datatype Scene = Scene(rows: OutboxRows, queued: seq<string>, reach: Reach, admissions: seq<Admission>,
                         dialled: seq<string>, answers: seq<bool>)
  {
    /**
     Histories grow, and nothing is dropped: what was in the outbox, or was queued since, is in it or has
     reached every relay of a configuration read since.
     */
    ghost predicate Leads(later: Scene, codec: Codec, contents: string -> Bytes) {
      && queued <= later.queued && reach.Grows(later.reach)
      && admissions <= later.admissions && dialled <= later.dialled && answers <= later.answers
      && forall id :: id in rows || id in later.queued[|queued|..] ==>
           id in later.rows || Reached(later.reach, reach.readings, codec, contents(id))
    }
  }

  ghost function SceneOf(box: LocalOutbox, net: Network, settings: Settings): Scene
    reads box, net`recorded, net`admissions, net`dialled, net`answers, settings
  {
    Scene(box.rows, box.queued, ReachOf(net, settings), net.admissions, net.dialled, net.answers)
  }

  lemma LeadsOn(first: Scene, mid: Scene, last: Scene, codec: Codec, contents: string -> Bytes)
    requires first.Leads(mid, codec, contents) && mid.Leads(last, codec, contents)
    ensures first.Leads(last, codec, contents)
  {
    hide Reached;
    forall id | id in first.rows || id in last.queued[|first.queued|..]
      ensures id in last.rows || Reached(last.reach, first.reach.readings, codec, contents(id))
    {
      assert last.queued[|first.queued|..] == mid.queued[|first.queued|..] + last.queued[|mid.queued|..];
      var due := id in first.rows || id in mid.queued[|first.queued|..];
      if due && id !in mid.rows {
        ReachedStays(mid.reach, last.reach, first.reach.readings, first.reach.readings, codec, contents(id));
      } else if id !in last.rows {
        ReachedStays(last.reach, last.reach, mid.reach.readings, first.reach.readings, codec, contents(id));
      }
    }
  }

  /** A row may go once it has reached every relay. */
  lemma RemovalLeads(first: Scene, s: Scene, id: string, codec: Codec, contents: string -> Bytes)
    requires first.Leads(s, codec, contents) && Reached(s.reach, first.reach.readings, codec, contents(id))
    ensures first.Leads(s.(rows := s.rows - {id}), codec, contents)
  {
    hide Reached;
  }

  /** Every dial from one point on to another was answered with success. */
  ghost predicate AllHeld(answers: seq<bool>, from: nat, to: nat) {
    forall k :: from <= k < to && k < |answers| ==> answers[k]
  }

  lemma AllHeldNone(answers: seq<bool>)
    ensures AllHeld(answers, |answers|, |answers|)
  {
  }

  lemma AllHeldGrows(answers: seq<bool>, ok: bool, from: nat)
    requires from <= |answers|
    ensures AllHeld(answers + [ok], from, |answers| + 1) <==> AllHeld(answers, from, |answers|) && ok
  {
    if AllHeld(answers + [ok], from, |answers| + 1) {
      forall k | from <= k < |answers| ensures answers[k] {
        assert (answers + [ok])[k];
      }
      assert (answers + [ok])[|answers|];
    }
  }

  lemma AllHeldStays(answers: seq<bool>, later: seq<bool>, from: nat, to: nat)
    requires answers <= later && from <= to <= |answers|
    ensures AllHeld(later, from, to) <==> AllHeld(answers, from, to)
    ensures AllHeld(later, from, |later|) ==> AllHeld(answers, from, to)
  {
    assert forall k :: 0 <= k < |answers| ==> answers[k] == later[k];
  }

  /** Submits one envelope to every address, going on after failures. */
  method SubmitToAll(net: Network, c: Config, addresses: seq<string>, e: OpaqueEnvelope, codec: Codec, user: Bytes)
    returns (allAccepted: bool)
    requires net.Valid() && Covers(addresses, c)
    modifies net`now, net`admissions, net`recorded, net`dialled, net`answers, net.relays.Values
    ensures net.Valid() && old(net.recorded) <= net.recorded && old(net.admissions) <= net.admissions
    ensures allAccepted ==> RecordedByAll(net.relays, net.recorded, c, e)
    ensures net.dialled == old(net.dialled) + addresses
    ensures old(net.answers) <= net.answers && |net.answers| - |old(net.answers)| == |addresses|
    ensures allAccepted <==> AllHeld(net.answers, |old(net.answers)|, |net.answers|)
  {
    hide Network.Valid, NoSecondCopy, IsRelay, Blank, AllHeld;
    AllHeldNone(net.answers);
    allAccepted := true;
    for i := 0 to |addresses|
      invariant net.Valid() && old(net.recorded) <= net.recorded && old(net.admissions) <= net.admissions
      invariant allAccepted ==> forall k :: 0 <= k < i ==>
                  addresses[k] in net.relays && (net.relays[addresses[k]], e) in net.recorded
      invariant net.dialled == old(net.dialled) + addresses[..i]
      invariant old(net.answers) <= net.answers && |net.answers| - |old(net.answers)| == i
      invariant allAccepted <==> AllHeld(net.answers, |old(net.answers)|, |net.answers|)
    {
      assert addresses[..i + 1] == addresses[..i] + [addresses[i]];
      RelaysAreNotBlank(c, addresses[i]);
      var blank := Trim(addresses[i]) == "";
      if blank {
        continue;
      }
      ghost var answers := net.answers;
      var ok := net.SendHoldMessage(addresses[i], e, codec, user);
      AllHeldGrows(answers, ok, |old(net.answers)|);
      if !ok {
        allAccepted := false;
      }
    }
    assert addresses[..|addresses|] == addresses;
  }

  /** No configuration leaves a node without a relay. */
  lemma SomeRelay(c: Config)
    ensures exists address :: IsRelay(c, address)
  {
    if !exists address :: Configured(c, address) {
      assert IsRelay(c, DEFAULT_DADDY_ADDRESS);
    } else {
      var address :| Configured(c, address);
      assert IsRelay(c, address);
    }
  }

  /** Submits one envelope to every relay of the configuration as it is now. */
  method SubmitEverywhere(net: Network, settings: Settings, codec: Codec, e: OpaqueEnvelope, user: Bytes)
    returns (accepted: bool)
    requires net.Valid()
    modifies settings`readings, net`now, net`admissions, net`recorded, net`dialled, net`answers, net.relays.Values
    ensures net.Valid() && old(ReachOf(net, settings)).Grows(ReachOf(net, settings))
    ensures old(net.admissions) <= net.admissions && old(net.dialled) <= net.dialled
    ensures accepted ==> ReachedAll(ReachOf(net, settings), old(settings.readings), e)
    ensures Covers(net.dialled[|old(net.dialled)|..], settings.at(old(settings.readings)))
    ensures old(net.answers) <= net.answers
    ensures |net.answers| - |old(net.answers)| == |net.dialled| - |old(net.dialled)|
    ensures accepted <==> AllHeld(net.answers, |old(net.answers)|, |net.answers|)
  {
    hide Network.Valid, NoSecondCopy, IsRelay, RecordedByAll;
    var c := settings.Read();
    var addresses := DialList(c);
    accepted := SubmitToAll(net, c, addresses, e, codec, user);
    assert net.dialled[|old(net.dialled)|..] == addresses;
  }

  // ---- others at the same outbox ----

  /** Receive paths queue receipts, and other passes take rows out, each by the rules of its own. */
  method OthersUseOutbox(box: LocalOutbox, net: Network, settings: Settings, codec: Codec, contents: string -> Bytes,
                         user: Bytes)
    returns (ghost touched: set<string>)
    requires box.Valid() && net.Valid() && Filed(box.rows, codec, contents)
    modifies box`rows, box`queued
    modifies settings`readings, net`now, net`admissions, net`recorded, net`dialled, net`answers, net.relays.Values
    ensures box.Valid() && net.Valid() && Filed(box.rows, codec, contents)
    ensures old(SceneOf(box, net, settings)).Leads(SceneOf(box, net, settings), codec, contents)
    ensures forall id :: id !in touched ==> Lookup(box.rows, id) == Lookup(old(box.rows), id)
  {
    hide Network.Valid, NoSecondCopy, Within, Scene.Leads, Filed;
    ghost var first := SceneOf(box, net, settings);
    SceneStays(first, codec, contents);
    touched := {};
    var rounds: nat := *;
    while rounds > 0
      invariant box.Valid() && net.Valid() && Filed(box.rows, codec, contents)
      invariant first.Leads(SceneOf(box, net, settings), codec, contents)
      invariant forall id :: id !in touched ==> Lookup(box.rows, id) == Lookup(first.rows, id)
    {
      ghost var before := SceneOf(box, net, settings);
      var id: string := *;
      var queues: bool := *;
      if queues {
        OneQueues(box, net, settings, codec, contents, id);
      } else {
        OneTakesOut(box, net, settings, codec, contents, id, user);
      }
      LeadsOn(first, before, SceneOf(box, net, settings), codec, contents);
      touched := touched + {id};
      rounds := rounds - 1;
    }
  }

  method OneQueues(box: LocalOutbox, ghost net: Network, ghost settings: Settings, ghost codec: Codec,
                   contents: string -> Bytes, id: string)
    requires box.Valid() && Filed(box.rows, codec, contents)
    modifies box`rows, box`queued
    ensures box.Valid() && Filed(box.rows, codec, contents)
    ensures old(SceneOf(box, net, settings)).Leads(SceneOf(box, net, settings), codec, contents)
    ensures forall k :: k != id ==> Lookup(box.rows, k) == Lookup(old(box.rows), k)
  {
    hide Within, Reached, Refusing;
    var mailbox: string := *;
    var now: int := *;
    var _ := box.QueueOpaqueOutbox(id, mailbox, contents(id), now);
  }

  method OneTakesOut(box: LocalOutbox, net: Network, settings: Settings, codec: Codec, contents: string -> Bytes,
                     id: string, user: Bytes)
    requires box.Valid() && net.Valid() && Filed(box.rows, codec, contents)
    modifies box`rows, settings`readings
    modifies net`now, net`admissions, net`recorded, net`dialled, net`answers, net.relays.Values
    ensures box.Valid() && net.Valid() && Filed(box.rows, codec, contents)
    ensures old(SceneOf(box, net, settings)).Leads(SceneOf(box, net, settings), codec, contents)
    ensures forall k :: k != id ==> Lookup(box.rows, k) == Lookup(old(box.rows), k)
  {
    hide Network.Valid, NoSecondCopy, Within, ReachedAll;
    var envelope := codec.decode(contents(id));
    if envelope.Some? {
      var accepted := SubmitEverywhere(net, settings, codec, envelope.value, user);
      if accepted {
        box.RemoveOpaqueOutbox(id);
      }
    }
  }

  lemma SceneStays(s: Scene, codec: Codec, contents: string -> Bytes)
    ensures s.Leads(s, codec, contents)
  {
  }

  // ---- a pass over the outbox ----

  /** One listed row: it goes only after every relay of the configuration just read took its envelope. */
  method SyncRow(box: LocalOutbox, net: Network, settings: Settings, codec: Codec, contents: string -> Bytes,
                 id: string, user: Bytes)
    returns (accepted: bool, ghost touched: set<string>, ghost dials: nat)
    requires box.Valid() && net.Valid() && Filed(box.rows, codec, contents)
    modifies box`rows, box`queued
    modifies settings`readings, net`now, net`admissions, net`recorded, net`dialled, net`answers, net.relays.Values
    ensures box.Valid() && net.Valid() && Filed(box.rows, codec, contents)
    ensures old(SceneOf(box, net, settings)).Leads(SceneOf(box, net, settings), codec, contents)
    ensures accepted ==> Reached(ReachOf(net, settings), old(settings.readings), codec, contents(id))
    ensures forall k :: k !in touched ==>
              Lookup(box.rows, k) == if accepted && k == id then None else Lookup(old(box.rows), k)
    ensures codec.decode(contents(id)).Some? ==>
              && |old(net.dialled)| + dials <= |net.dialled| && |old(net.answers)| + dials <= |net.answers|
              && Covers(net.dialled[|old(net.dialled)|..|old(net.dialled)| + dials],
                        settings.at(old(settings.readings)))
              && (accepted <==> AllHeld(net.answers, |old(net.answers)|, |old(net.answers)| + dials))
    ensures codec.decode(contents(id)).None? ==> !accepted
  {
    hide Network.Valid, NoSecondCopy, Within, Scene.Leads, ReachedAll, AllHeld, Covers;
    ghost var first := SceneOf(box, net, settings);
    var envelope := codec.decode(contents(id));
    if envelope.None? {
      SceneStays(first, codec, contents);
      return false, {}, 0;
    }
    accepted := SubmitEverywhere(net, settings, codec, envelope.value, user);
    ghost var submitted := SceneOf(box, net, settings);
    OnlySubmitted(first, submitted, codec, contents);
    touched := OthersUseOutbox(box, net, settings, codec, contents, user);
    ghost var later := SceneOf(box, net, settings);
    LeadsOn(first, submitted, later, codec, contents);
    LeadsGrow(submitted, later, codec, contents);
    assert later.dialled[|first.dialled|..|submitted.dialled|] == submitted.dialled[|first.dialled|..];
    AllHeldStays(submitted.answers, later.answers, |first.answers|, |submitted.answers|);
    dials := |submitted.dialled| - |first.dialled|;
    if accepted {
      ReachedStays(submitted.reach, later.reach, first.reach.readings, first.reach.readings, codec, contents(id));
      RemovalLeads(first, later, id, codec, contents);
      box.RemoveOpaqueOutbox(envelope.value.id);
    }
  }

  lemma LeadsGrow(s: Scene, later: Scene, codec: Codec, contents: string -> Bytes)
    requires s.Leads(later, codec, contents)
    ensures s.reach.Grows(later.reach) && s.admissions <= later.admissions
    ensures s.dialled <= later.dialled && s.answers <= later.answers
  {
  }

  lemma OnlySubmitted(s: Scene, later: Scene, codec: Codec, contents: string -> Bytes)
    requires later.rows == s.rows && later.queued == s.queued && s.reach.Grows(later.reach)
    requires s.admissions <= later.admissions && s.dialled <= later.dialled && s.answers <= later.answers
    ensures s.Leads(later, codec, contents)
  {
  }

  /**
   One pass over the outbox, with others queueing and taking out rows all the time. A listed row is done
   when every relay of the configuration, as it was read for this row, has recorded its envelope, and the
   pass is clean when all are done. Of the rows that others left alone, exactly those that are done go.
   */
  method SyncOpaqueMailboxOutbox(box: LocalOutbox, net: Network, settings: Settings, codec: Codec,
                                 contents: string -> Bytes, user: Bytes)
    returns (clean: bool, ghost pass: Pass)
    requires box.Valid() && net.Valid() && Filed(box.rows, codec, contents)
    modifies box`rows, box`queued
    modifies settings`readings, net`now, net`admissions, net`recorded, net`dialled, net`answers, net.relays.Values
    ensures box.Valid() && net.Valid() && Filed(box.rows, codec, contents)
    ensures old(SceneOf(box, net, settings)).Leads(SceneOf(box, net, settings), codec, contents)
    ensures pass.first == old(SceneOf(box, net, settings)) && pass.last == SceneOf(box, net, settings)
    ensures IsPass(pass, codec, contents) && pass.clean == clean
    ensures forall id :: id in pass.done ==>
              id in pass.listed && Reached(ReachOf(net, settings), old(settings.readings), codec, contents(id))
    ensures clean <==> forall id :: id in pass.listed ==> id in pass.done
    ensures forall id :: id in pass.listed && id !in pass.done ==>
              codec.decode(contents(id)).None? || !AllHeld(net.answers, |old(net.answers)|, |net.answers|)
    ensures forall id :: id !in pass.touched ==>
              Lookup(box.rows, id) == if id in pass.done then None else Lookup(old(box.rows), id)
  {
    hide Network.Valid, NoSecondCopy, Within, Scene.Leads, Reached, Filed, AllHeld, Covers, PassSoFar, Lookup;
    ghost var first := SceneOf(box, net, settings);
    PassBegins(first, codec, contents);
    var queued := box.ListOpaqueOutbox(200);
    assert Distinct(queued);
    hide OldestPrefix;
    ghost var listed, done, touched: set<string> := queued, {}, {};
    clean := true;
    for i := 0 to |queued|
      invariant box.Valid() && net.Valid() && Filed(box.rows, codec, contents)
      invariant PassSoFar(first, SceneOf(box, net, settings), queued[..i], done, touched, clean, codec, contents)
    {
      assert queued[..i + 1] == queued[..i] + [queued[i]] && queued[i] !in queued[..i];
      ghost var before := SceneOf(box, net, settings);
      var accepted;
      ghost var others;
      ghost var dials;
      accepted, others, dials := SyncRow(box, net, settings, codec, contents, queued[i], user);
      PassGoesOn(first, before, SceneOf(box, net, settings), queued[..i], done, touched, clean, queued[i], accepted,
                 others, dials, codec, contents);
      touched := touched + others;
      if accepted {
        done := done + {queued[i]};
      } else {
        clean := false;
      }
    }
    assert queued[..|queued|] == queued;
    PassEnds(first, SceneOf(box, net, settings), queued, done, touched, clean, codec, contents);
    pass := Pass(first, SceneOf(box, net, settings), queued, done, touched, clean);
  }

  /** What a pass has come to when it has gone through some of its rows. */
  ghost predicate PassSoFar(first: Scene, s: Scene, seen: seq<string>, done: set<string>, touched: set<string>,
                            clean: bool, codec: Codec, contents: string -> Bytes)
  {
    && first.Leads(s, codec, contents) && first.answers <= s.answers && first.reach.Grows(s.reach)
    && (forall id :: id in done ==> id in seen && Reached(s.reach, first.reach.readings, codec, contents(id)))
    && (clean <==> forall id :: id in seen ==> id in done)
    && (forall id :: id in seen && id !in done ==>
          codec.decode(contents(id)).None? || !AllHeld(s.answers, |first.answers|, |s.answers|))
    && (forall id :: id !in touched ==> Lookup(s.rows, id) == if id in done then None else Lookup(first.rows, id))
  }

  /** A whole pass: what it listed, and which of these are done. */
  datatype Pass = Pass(first: Scene, last: Scene, listed: seq<string>, done: set<string>, touched: set<string>,
                       clean: bool)

  ghost predicate IsPass(p: Pass, codec: Codec, contents: string -> Bytes) {
    && OldestPrefix(p.listed, StoredTimes(p.first.rows)) && |p.listed| <= 200
    && (|p.listed| < 200 ==> forall id :: id in p.first.rows ==> id in p.listed)
    && PassSoFar(p.first, p.last, p.listed, p.done, p.touched, p.clean, codec, contents)
  }

  /** Passes one after the other, with others at the outbox in between. */
  ghost predicate PassesLead(first: Scene, passes: seq<Pass>, last: Scene, codec: Codec, contents: string -> Bytes) {
    if passes == [] then first.Leads(last, codec, contents)
    else
      var p := passes[|passes| - 1];
      && PassesLead(first, passes[..|passes| - 1], p.first, codec, contents)
      && IsPass(p, codec, contents) && p.last.Leads(last, codec, contents)
  }

  lemma PassAdded(first: Scene, passes: seq<Pass>, p: Pass, last: Scene, codec: Codec, contents: string -> Bytes)
    requires PassesLead(first, passes, p.first, codec, contents)
    requires IsPass(p, codec, contents) && p.last.Leads(last, codec, contents)
    ensures PassesLead(first, passes + [p], last, codec, contents)
  {
    hide IsPass, Scene.Leads;
    assert (passes + [p])[..|passes|] == passes;
  }

  lemma NoPasses(s: Scene, codec: Codec, contents: string -> Bytes)
    ensures PassesLead(s, [], s, codec, contents) && s.Leads(s, codec, contents)
  {
    SceneStays(s, codec, contents);
  }

  lemma PassBegins(first: Scene, codec: Codec, contents: string -> Bytes)
    ensures PassSoFar(first, first, [], {}, {}, true, codec, contents)
  {
    SceneStays(first, codec, contents);
  }

  lemma PassGoesOn(first: Scene, before: Scene, after: Scene, seen: seq<string>, done: set<string>,
                   touched: set<string>, clean: bool, id: string, accepted: bool, others: set<string>, dials: nat,
                   codec: Codec, contents: string -> Bytes)
    requires PassSoFar(first, before, seen, done, touched, clean, codec, contents) && id !in seen
    requires before.Leads(after, codec, contents)
    requires accepted ==> Reached(after.reach, before.reach.readings, codec, contents(id))
    requires forall k :: k !in others ==>
               Lookup(after.rows, k) == if accepted && k == id then None else Lookup(before.rows, k)
    requires codec.decode(contents(id)).Some? ==>
               && |before.answers| + dials <= |after.answers|
               && (accepted <==> AllHeld(after.answers, |before.answers|, |before.answers| + dials))
    ensures PassSoFar(first, after, seen + [id], if accepted then done + {id} else done, touched + others,
                      clean && accepted, codec, contents)
  {
    hide Reached, AllHeld, Lookup, Scene.Leads;
    LeadsGrow(before, after, codec, contents);
    LeadsOn(first, before, after, codec, contents);
    FailuresStay(first.answers, before.answers, after.answers, dials);
    DoneStay(first.reach.readings, before.reach, after.reach, codec, contents, done, id, accepted);
  }

  lemma PassEnds(first: Scene, s: Scene, seen: seq<string>, done: set<string>, touched: set<string>, clean: bool,
                 codec: Codec, contents: string -> Bytes)
    requires PassSoFar(first, s, seen, done, touched, clean, codec, contents)
    ensures first.Leads(s, codec, contents)
    ensures forall id :: id in done ==> id in seen && Reached(s.reach, first.reach.readings, codec, contents(id))
    ensures clean <==> forall id :: id in seen ==> id in done
    ensures forall id :: id in seen && id !in done ==>
              codec.decode(contents(id)).None? || !AllHeld(s.answers, |first.answers|, |s.answers|)
    ensures forall id :: id !in touched ==>
              Lookup(s.rows, id) == if id in done then None else Lookup(first.rows, id)
  {
  }

  lemma FailuresStay(first: seq<bool>, before: seq<bool>, after: seq<bool>, n: nat)
    requires first <= before <= after
    ensures !AllHeld(before, |first|, |before|) ==> !AllHeld(after, |first|, |after|)
    ensures |before| + n <= |after| && !AllHeld(after, |before|, |before| + n) ==> !AllHeld(after, |first|, |after|)
  {
    AllHeldStays(before, after, |first|, |before|);
  }

  lemma DoneStay(since: nat, before: Reach, after: Reach, codec: Codec, contents: string -> Bytes, done: set<string>,
                 next: string, accepted: bool)
    requires before.Grows(after) && since <= before.readings
    requires forall id :: id in done ==> Reached(before, since, codec, contents(id))
    requires accepted ==> Reached(after, before.readings, codec, contents(next))
    ensures forall id :: id in done ==> Reached(after, since, codec, contents(id))
    ensures accepted ==> Reached(after, since, codec, contents(next))
  {
    hide Reached;
    forall id | id in done ensures Reached(after, since, codec, contents(id)) {
      ReachedStays(before, after, since, since, codec, contents(id));
    }
    if accepted {
      ReachedStays(after, after, before.readings, since, codec, contents(next));
    }
  }

  /**
   Any number of passes, with others at the outbox and the relays all the time and the configuration
   changing at will: whatever was in the outbox or is queued meanwhile is in it still or has reached every
   relay there was when it went, and no relay ever admits one of the envelopes a second time before the
   first admission has expired there, however many answers were lost and whatever was delivered.
   */
  method SyncRepeatedly(box: LocalOutbox, net: Network, settings: Settings, codec: Codec, contents: string -> Bytes,
                        user: Bytes, times: nat)
    returns (ghost passes: seq<Pass>)
    requires box.Valid() && net.Valid() && Filed(box.rows, codec, contents)
    modifies box`rows, box`queued
    modifies settings`readings, net`now, net`admissions, net`recorded, net`dialled, net`answers, net.relays.Values
    ensures box.Valid() && net.Valid() && Filed(box.rows, codec, contents)
    ensures old(SceneOf(box, net, settings)).Leads(SceneOf(box, net, settings), codec, contents)
    ensures |passes| == times
    ensures PassesLead(old(SceneOf(box, net, settings)), passes, SceneOf(box, net, settings), codec, contents)
    ensures NoSecondCopy(net.admissions)
  {
    hide NoSecondCopy, Within, Scene.Leads, Reached, OldestPrefix, Filed, PassesLead, IsPass, PassSoFar;
    ghost var first := SceneOf(box, net, settings);
    passes := [];
    NoPasses(first, codec, contents);
    for i := 0 to times
      invariant box.Valid() && net.Valid() && Filed(box.rows, codec, contents)
      invariant first.Leads(SceneOf(box, net, settings), codec, contents)
      invariant |passes| == i && PassesLead(first, passes, SceneOf(box, net, settings), codec, contents)
    {
      ghost var before := SceneOf(box, net, settings);
      var clean;
      ghost var pass;
      clean, pass := SyncOpaqueMailboxOutbox(box, net, settings, codec, contents, user);
      LeadsOn(first, before, SceneOf(box, net, settings), codec, contents);
      ghost var passed := SceneOf(box, net, settings);
      var _ := OthersUseOutbox(box, net, settings, codec, contents, user);
      LeadsOn(first, passed, SceneOf(box, net, settings), codec, contents);
      PassAdded(first, passes, pass, SceneOf(box, net, settings), codec, contents);
      passes := passes + [pass];
    }
  }

  /**
   Queues an envelope and tries to submit it at once. Once it is queued it is in the outbox still,
   or every relay has recorded it; the outcome of the attempt itself is not reported.
   */
  method QueueAndSendOpaqueEnvelope(box: LocalOutbox, net: Network, settings: Settings, codec: Codec,
                                    contents: string -> Bytes, e: OpaqueEnvelope, user: Bytes, now: int)
    returns (queued: bool, ghost pass: Option<Pass>)
    requires box.Valid() && net.Valid() && Filed(box.rows, codec, contents)
    requires codec.RoundTrips() && contents(e.id) == codec.encode(e)
    modifies box`rows, box`queued
    modifies settings`readings, net`now, net`admissions, net`recorded, net`dialled, net`answers, net.relays.Values
    ensures box.Valid() && net.Valid() && Filed(box.rows, codec, contents)
    ensures old(SceneOf(box, net, settings)).Leads(SceneOf(box, net, settings), codec, contents)
    ensures queued <==> (
              && codec.decode(codec.encode(e)).Some?
              && Refusing(old(box.rows), box.limits, e.id, e.mailbox, codec.encode(e), now).None?)
    ensures !queued ==> box.rows == old(box.rows) && net.recorded == old(net.recorded)
    ensures queued <==> pass.Some?
    ensures queued ==>
              && IsPass(pass.value, codec, contents) && pass.value.last == SceneOf(box, net, settings)
              && pass.value.first.rows ==
                 Upserted(old(box.rows), e.id, e.mailbox, codec.encode(e), now)
              && pass.value.first.answers == old(net.answers)
    ensures queued ==>
              || (e.id in box.rows && box.rows[e.id].payload == codec.encode(e))
              || ReachedAll(ReachOf(net, settings), old(settings.readings), e)
  {
    hide Network.Valid, NoSecondCopy, Within, ReachedAll, Refusing, OldestPrefix;
    ghost var first := SceneOf(box, net, settings);
    if codec.decode(codec.encode(e)).None? {
      return false, None;
    }
    var refusal := box.QueueOpaqueOutbox(e.id, e.mailbox, codec.encode(e), now);
    if refusal.Some? {
      return false, None;
    }
    ghost var before := SceneOf(box, net, settings);
    assert before.queued[|first.queued|..] == [e.id];
    var clean;
    ghost var done;
    clean, done := SyncOpaqueMailboxOutbox(box, net, settings, codec, contents, user);
    pass := Some(done);
    LeadsOn(first, before, SceneOf(box, net, settings), codec, contents);
    assert e.id in before.rows;
    return true, pass;
  }

  function NonBlankOf(addresses: seq<string>): seq<string> {
    if addresses == [] then []
    else
      var last := addresses[|addresses| - 1];
      NonBlankOf(addresses[..|addresses| - 1]) + if Blank(last) then [] else [last]
  }

  ghost predicate Took(relays: map<string, Store>, recorded: Records, address: string, e: OpaqueEnvelope) {
    !Blank(address) && address in relays && (relays[address], e) in recorded
  }

  /** Dials one nonblank address after the other until one answers with success, and no further. */
  method HoldViaRelays(net: Network, addresses: seq<string>, e: OpaqueEnvelope, codec: Codec, user: Bytes)
    returns (ok: bool)
    requires net.Valid()
    modifies net`now, net`admissions, net`recorded, net`dialled, net`answers, net.relays.Values
    ensures net.Valid()
    ensures old(net.recorded) <= net.recorded && forall r :: r in net.recorded && r !in old(net.recorded) ==> r.1 == e
    ensures !ok ==> net.dialled == old(net.dialled) + NonBlankOf(addresses)
    ensures old(net.answers) <= net.answers
    ensures |net.answers| - |old(net.answers)| == |net.dialled| - |old(net.dialled)|
    ensures forall k :: |old(net.answers)| <= k < |net.answers| ==> (net.answers[k] <==> ok && k == |net.answers| - 1)
    ensures ok ==> exists i :: 0 <= i < |addresses| && Took(net.relays, net.recorded, addresses[i], e) &&
                     net.dialled == old(net.dialled) + NonBlankOf(addresses[..i + 1])
  {
    hide Network.Valid, NoSecondCopy, Blank;
    for i := 0 to |addresses|
      invariant net.dialled == old(net.dialled) + NonBlankOf(addresses[..i]) && old(net.answers) <= net.answers
      invariant |net.answers| - |old(net.answers)| == |net.dialled| - |old(net.dialled)|
      invariant forall k :: |old(net.answers)| <= k < |net.answers| ==> !net.answers[k]
      invariant net.Valid() && old(net.recorded) <= net.recorded
      invariant forall r :: r in net.recorded && r !in old(net.recorded) ==> r.1 == e
    {
      assert addresses[..i + 1][..i] == addresses[..i];
      if Trim(addresses[i]) == "" {
        continue;
      }
      ok := net.SendHoldMessage(addresses[i], e, codec, user);
      if ok {
        return true;
      }
    }
    assert addresses[..|addresses|] == addresses;
    return false;
  }

  // ---- fetching from each relay in turn ----

  /** The deliveries of the successful fetches among the first n addresses. */
  function Fetched(addresses: seq<string>, fetch: string -> Result<nat, string>, n: nat): nat
    requires n <= |addresses|
  {
    if n == 0 then 0
    else
      Fetched(addresses, fetch, n - 1) +
      if !Blank(addresses[n - 1]) && fetch(addresses[n - 1]).Ok? then fetch(addresses[n - 1]).value else 0
  }

  /** One dead relay does not block the others: an error surfaces only when nothing at all was fetched. */
  method FetchViaRelays(addresses: seq<string>, fetch: string -> Result<nat, string>) returns (r: Result<nat, string>)
    ensures r.Ok? ==> r.value == Fetched(addresses, fetch, |addresses|)
    ensures r.Err? <==>
            && (exists i :: 0 <= i < |addresses| && !Blank(addresses[i]) && fetch(addresses[i]).Err?)
            && forall i :: 0 <= i < |addresses| && !Blank(addresses[i]) && fetch(addresses[i]).Ok? ==>
              fetch(addresses[i]).value == 0
  {
    hide Blank;
    var total := 0;
    var lastErr: Option<string> := None;
    for i := 0 to |addresses|
      invariant total == Fetched(addresses, fetch, i)
      invariant lastErr.Some? <==> exists k :: 0 <= k < i && !Blank(addresses[k]) && fetch(addresses[k]).Err?
      invariant total == 0 <==>
                forall k :: 0 <= k < i && !Blank(addresses[k]) && fetch(addresses[k]).Ok? ==>
                  fetch(addresses[k]).value == 0
    {
      if Trim(addresses[i]) == "" {
        continue;
      }
      match fetch(addresses[i]) {
        case Err(error) => lastErr := Some(error);
        case Ok(delivered) => total := total + delivered;
      }
    }
    if total == 0 && lastErr.Some? {
      return Err(lastErr.value);
    }
    return Ok(total);
  }
}
