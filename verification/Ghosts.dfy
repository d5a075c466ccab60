/**
 Forwarding an opaque envelope from relay to relay. Any topology, any routes and any pattern of
 failed dials, lost requests and lost answers is allowed; the nested handlers are nested calls.
 */
module Ghosts {
  import opened Wrappers
  import opened ByteStrings
  import opened Tokens
  import opened HoldStore
  import opened RelayNetwork
  import opened Resource
  import opened OutboxSync
  import HT = HoldTables

  /** GHOST_FORWARD: nextMailbox is carried along but decides nothing. */
  datatype Body = Body(nextMailbox: string, hopsLeft: int, envelope: OpaqueEnvelope)

  /** GHOST_FORWARD_ACK. */
  datatype Ack = AckOk | AckDelivered | AckRejected

  /** A hop dialled: from which node, to which address, with which request. */
  datatype Hop = Hop(from: string, to: string, body: Body)

  datatype Node = Node(mailbox: string, key: Bytes, config: Config)

  /** How many handlers may still be nested for a request: none unless it passes the hop check. */
  function Rank(hopsLeft: int): nat {
    if 0 <= hopsLeft <= MAX_GHOST_HOPS then hopsLeft + 1 else 0
  }

  ghost predicate DialledAll(hops: seq<Hop>, at: string, c: Config, body: Body) {
    forall address :: IsRelay(c, address) ==> Hop(at, address, body) in hops
  }

  /** The mailbox's own route was the first to be dialled. */
  ghost predicate TriedFirst(hops: seq<Hop>, at: string, route: string, body: Body) {
    hops != [] && hops[0] == Hop(at, route, body.(nextMailbox := body.envelope.mailbox))
  }

  lemma FirstStays(start: seq<Hop>, before: seq<Hop>, after: seq<Hop>, at: string, route: string, body: Body)
    requires start <= before <= after && TriedFirst(before[|start|..], at, route, body)
    ensures TriedFirst(after[|start|..], at, route, body)
  {
    assert after[|start|..][0] == after[|start|] == before[|start|] == before[|start|..][0];
  }

  lemma RouteFirst(start: seq<Hop>, after: seq<Hop>, at: string, route: string, body: Body)
    requires start < after && after[|start|] == Hop(at, route, body.(nextMailbox := body.envelope.mailbox))
    ensures TriedFirst(after[|start|..], at, route, body)
  {
  }

  lemma AllDialled(start: seq<Hop>, before: seq<Hop>, after: seq<Hop>, at: string, c: Config, body: Body,
                   siblings: seq<string>)
    requires start <= before <= after && Covers(siblings, c)
    requires forall address :: address in siblings ==> Hop(at, address, body) in after[|before|..]
    ensures DialledAll(after[|start|..], at, c, body)
  {
    hide IsRelay;
    assert after[|start|..] == after[|start|..|before|] + after[|before|..];
  }

  lemma CoveredAreNotBlank(c: Config, addresses: seq<string>)
    requires Covers(addresses, c)
    ensures forall address :: address in addresses ==> !Blank(address)
  {
    hide IsRelay, Blank;
    forall address | address in addresses ensures !Blank(address) {
      RelaysAreNotBlank(c, address);
    }
  }

  /** A node on the path of a request: where it started, or where one of the hops dialled for it led. */
  predicate OnPath(hops: seq<Hop>, start: string, at: string) {
    at == start || exists k :: 0 <= k < |hops| && hops[k].to == at
  }

  lemma PathGrows(hops: seq<Hop>, from: nat, later: nat, end: nat, start: string, at: string)
    requires from <= later <= end <= |hops| && OnPath(hops[..end][later..], start, at)
    ensures OnPath(hops[from..], start, at)
  {
    if at != start {
      var k :| 0 <= k < |hops[..end][later..]| && hops[..end][later..][k].to == at;
      assert hops[from..][later - from + k].to == at;
    }
  }

  /** What has happened so far: each part only grows. */
  datatype History = History(
    received: set<(string, OpaqueEnvelope)>,
    refused: seq<(string, OpaqueEnvelope)>,
    recorded: set<(Store, OpaqueEnvelope)>,
    hops: seq<Hop>,
    rests: seq<(string, OpaqueEnvelope)>)
  {
    ghost predicate Grows(later: History) {
      && received <= later.received && refused <= later.refused && recorded <= later.recorded
      && hops <= later.hops && rests <= later.rests
    }
  }

  class GhostNetwork {
    const net: Network
    const nodes: map<string, Node>
    const codec: Codec
    /** The fate of each hop, and whether each offer to a mailbox owner is accepted. */
    const fate: nat -> Fate
    const accepts: nat -> bool
    var offers: nat
    /** What each lookup of a mailbox's route finds. */
    const routeOf: nat -> Option<string>
    var lookups: nat
    /** Where the receive path of the mailbox owner accepted an envelope. */
    ghost var received: set<(string, OpaqueEnvelope)>
    /** Where a node's own store refused an envelope, in order. */
    ghost var refused: seq<(string, OpaqueEnvelope)>
    /** The hops dialled, in order. */
    var hops: seq<Hop>
    /** Where envelopes came to rest, in order, and how many answers of success were lost on the way back. */
    ghost var rests: seq<(string, OpaqueEnvelope)>
    ghost var lost: nat

    ghost predicate Valid()
      reads this, net, net.relays.Values
    {
      && net.Valid()
      && nodes.Keys <= net.relays.Keys
      && (forall at, e :: (at, e) in received ==> at in nodes && nodes[at].mailbox == e.mailbox)
    }

    constructor (net: Network, nodes: map<string, Node>, codec: Codec, fate: nat -> Fate, accepts: nat -> bool,
                 routeOf: nat -> Option<string>)
      requires net.Valid() && nodes.Keys <= net.relays.Keys
      ensures Valid() && this.net == net && this.nodes == nodes && this.codec == codec
      ensures this.fate == fate && this.accepts == accepts && this.routeOf == routeOf && offers == lookups == 0
      ensures received == {} && refused == [] && hops == [] && rests == [] && lost == 0
    {
      this.net, this.nodes, this.codec := net, nodes, codec;
      this.fate, this.accepts, offers, this.routeOf, lookups := fate, accepts, 0, routeOf, 0;
      received, refused, hops, rests, lost := {}, [], [], [], 0;
    }

    ghost function Now(): History
      reads this, net
    {
      History(received, refused, net.recorded, hops, rests)
    }

    /** The node owns the envelope's mailbox and has received it, or its store has recorded it. */
    ghost predicate RestsAt(h: History, at: string, e: OpaqueEnvelope) {
      && at in nodes
      && ((at, e) in h.received || (at in net.relays && (net.relays[at], e) in h.recorded))
    }

    /** Since then only e came to rest, and only at nodes on the path of the request that started at `start`. */
    ghost predicate RestsOnPath(since: History, h: History, start: string, e: OpaqueEnvelope) {
      && since.Grows(h)
      && forall k :: |since.rests| <= k < |h.rests| ==>
           h.rests[k].1 == e && RestsAt(h, h.rests[k].0, e) && OnPath(h.hops[|since.hops|..], start, h.rests[k].0)
    }

    lemma OwnRest(since: History, h: History, at: string, e: OpaqueEnvelope)
      requires since.Grows(h) && h.rests == since.rests + [(at, e)] && RestsAt(h, at, e)
      ensures RestsOnPath(since, h, at, e)
    {
    }

    /** What a hop brought to rest lies on the path of the request that dialled it. */
    lemma HopLeads(since: History, dialled: History, h: History, start: string, address: string, body: Body,
                   e: OpaqueEnvelope)
      requires dialled == since.(hops := since.hops + [Hop(start, address, body)])
      requires RestsOnPath(dialled, h, address, e)
      ensures RestsOnPath(since, h, start, e)
    {
      assert h.hops[|since.hops|] == Hop(start, address, body) && h.hops[..|h.hops|] == h.hops;
      forall k | |since.rests| <= k < |h.rests| ensures OnPath(h.hops[|since.hops|..], start, h.rests[k].0) {
        PathGrows(h.hops, |since.hops|, |since.hops| + 1, |h.hops|, address, h.rests[k].0);
        assert h.hops[|since.hops|..][0].to == address;
      }
    }

    lemma RestsAddUp(since: History, before: History, h: History, start: string, e: OpaqueEnvelope)
      requires RestsOnPath(since, before, start, e) && RestsOnPath(before, h, start, e)
      ensures RestsOnPath(since, h, start, e)
    {
      assert h.hops[..|h.hops|] == h.hops;
      forall k | |since.rests| <= k < |h.rests|
        ensures h.rests[k].1 == e && RestsAt(h, h.rests[k].0, e) && OnPath(h.hops[|since.hops|..], start, h.rests[k].0)
      {
        if k < |before.rests| {
          assert h.rests[k] == before.rests[k];
          assert before.hops == h.hops[..|before.hops|];
          PathGrows(h.hops, |since.hops|, |since.hops|, |before.hops|, start, h.rests[k].0);
        } else {
          PathGrows(h.hops, |since.hops|, |before.hops|, |h.hops|, start, h.rests[k].0);
        }
      }
    }

    /** Success with any rest at all names a node on the path where the envelope rests. */
    lemma RestNamesNode(since: History, h: History, start: string, e: OpaqueEnvelope)
      requires RestsOnPath(since, h, start, e) && |since.rests| < |h.rests|
      ensures exists at :: RestsAt(h, at, e) && OnPath(h.hops[|since.hops|..], start, at)
    {
      assert RestsAt(h, h.rests[|since.rests|].0, e);
    }

    /** The envelope is valid, the peer is an authenticated relay, and the hop count is in range. */
    predicate Admissible(peer: Bytes, anonymous: bool, body: Body) {
      codec.decode(codec.encode(body.envelope)).Some? && |peer| == 32 && !anonymous && Rank(body.hopsLeft) > 0
    }

    /** Why a request may be rejected: it is not admissible, its owner refused it, or every resort failed. */
    ghost predicate Refuses(at: string, peer: Bytes, anonymous: bool, body: Body, since: nat)
      requires at in nodes && since <= |refused|
      reads this
    {
      || !Admissible(peer, anonymous, body)
      || nodes[at].mailbox == body.envelope.mailbox
      || (at, body.envelope) in refused[since..]
    }

    /**
     Handles one request at the node listening at an address. Success is answered only when the
     envelope has come to rest; nested handlers that pass the hop check are at most Rank deep.
     */
    method HandleGhostForward(at: string, peer: Bytes, anonymous: bool, body: Body)
      returns (ack: Ack, ghost deepest: nat)
      requires Valid() && at in nodes
      modifies this`received, this`refused, this`hops, this`rests, this`lost, this`offers, this`lookups
      modifies net`now, net`admissions, net`recorded, net.relays.Values
      ensures Valid()
      ensures RestsOnPath(old(Now()), Now(), at, body.envelope)
      ensures ack != AckRejected ==>
                exists n :: RestsAt(Now(), n, body.envelope) && OnPath(hops[|old(hops)|..], at, n)
      ensures ack == AckDelivered <==> ack != AckRejected && nodes[at].mailbox == body.envelope.mailbox
      ensures ack == AckDelivered ==> (at, body.envelope) in received
      ensures Admissible(peer, anonymous, body) && nodes[at].mailbox == body.envelope.mailbox ==>
                offers == old(offers) + 1 && hops == old(hops) && (ack == AckDelivered <==> accepts(old(offers)))
      ensures old(refused) <= refused && (ack == AckRejected ==> Refuses(at, peer, anonymous, body, |old(refused)|))
      ensures |rests| - |old(rests)| == (if ack != AckRejected then 1 else 0) + (lost - old(lost)) && old(lost) <= lost
      ensures deepest <= Rank(body.hopsLeft) <= 6
      ensures deepest > 0 <==>
                codec.decode(codec.encode(body.envelope)).Some? && |peer| == 32 && !anonymous && 0 <= body.hopsLeft <= 5
      ensures deepest == 0 ==>
                ack == AckRejected && rests == old(rests) && received == old(received) &&
                  net.recorded == old(net.recorded)
      decreases Rank(body.hopsLeft), 1
    {
      hide NoSecondCopy;
      ack, deepest := AckRejected, 0;
      if codec.decode(codec.encode(body.envelope)).None? {
        return;
      }
      if |peer| != 32 || anonymous {
        return;
      }
      if body.hopsLeft < 0 || body.hopsLeft > MAX_GHOST_HOPS {
        return;
      }
      deepest := 1;
      if body.envelope.mailbox == nodes[at].mailbox {
        offers := offers + 1;
        if accepts(offers - 1) {
          received, rests := received + {(at, body.envelope)}, rests + [(at, body.envelope)];
          ack := AckDelivered;
          RestNamesNode(old(Now()), Now(), at, body.envelope);
        }
        return;
      }
      ghost var below;
      var ok;
      ok, below := ForwardGhostEnvelope(at, peer, body);
      deepest := 1 + below;
      if ok {
        ack := AckOk;
      }
    }

    /**
     Tries the mailbox's route, then every configured relay, and at last the node's own store, up
     to the first success; failure means that the own store refused the envelope, too.
     */
    method ForwardGhostEnvelope(at: string, submitter: Bytes, body: Body)
      returns (ok: bool, ghost deepest: nat)
      requires Valid() && at in nodes && 0 <= body.hopsLeft <= MAX_GHOST_HOPS
      modifies this`received, this`refused, this`hops, this`rests, this`lost, this`offers, this`lookups
      modifies net`now, net`admissions, net`recorded, net.relays.Values
      ensures Valid()
      ensures RestsOnPath(old(Now()), Now(), at, body.envelope)
      ensures ok ==> exists n :: RestsAt(Now(), n, body.envelope) && OnPath(hops[|old(hops)|..], at, n)
      ensures old(refused) <= refused && (!ok ==> (at, body.envelope) in refused[|old(refused)|..])
      ensures var next, route := body.(hopsLeft := body.hopsLeft - 1), routeOf(old(lookups));
              && (!ok ==> DialledAll(hops[|old(hops)|..], at, nodes[at].config, next))
              && (route.Some? ==> TriedFirst(hops[|old(hops)|..], at, route.value, next))
      ensures |rests| - |old(rests)| == (if ok then 1 else 0) + (lost - old(lost)) && old(lost) <= lost
      ensures deepest < Rank(body.hopsLeft)
      decreases Rank(body.hopsLeft), 0
    {
      hide NoSecondCopy, RestsAt, OnPath, Blank, Network.Valid, HT.Good, HT.Decide, IsRelay, DialledAll, Refuses;
      hide RestsOnPath, Covers, TriedFirst;
      ghost var since := Now();
      var next := body.(hopsLeft := body.hopsLeft - 1);
      ghost var route := routeOf(lookups);
      ok, deepest := TryRoute(at, next);
      ghost var routed := Now();
      ghost var below := 0;
      var siblings := [];
      if !ok {
        siblings := DialList(nodes[at].config);
        CoveredAreNotBlank(nodes[at].config, siblings);
        ok, below := DialEach(at, siblings, next);
        deepest := if below > deepest then below else deepest;
        RestsAddUp(since, routed, Now(), at, body.envelope);
      }
      if route.Some? {
        FirstStays(since.hops, routed.hops, hops, at, route.value, next);
      }
      if !ok {
        ghost var dialled := Now();
        AllDialled(since.hops, routed.hops, hops, at, nodes[at].config, next, siblings);
        ok := KeepHere(at, submitter, body, |since.hops|);
        RestsAddUp(since, dialled, Now(), at, body.envelope);
        if !ok {
          assert refused[|refused| - 1] == (at, body.envelope);
        }
      }
      if ok {
        RestNamesNode(since, Now(), at, body.envelope);
      }
    }

    /** Dials the route of the mailbox, if there is one. */
    method TryRoute(at: string, next: Body) returns (ok: bool, ghost deepest: nat)
      requires Valid() && at in nodes
      modifies this`received, this`refused, this`hops, this`rests, this`lost, this`offers, this`lookups
      modifies net`now, net`admissions, net`recorded, net.relays.Values
      ensures Valid()
      ensures RestsOnPath(old(Now()), Now(), at, next.envelope)
      ensures old(hops) <= hops && old(refused) <= refused
      ensures var route := routeOf(old(lookups));
              (ok ==> route.Some?) && (route.Some? ==> TriedFirst(hops[|old(hops)|..], at, route.value, next))
      ensures |rests| - |old(rests)| == (if ok then 1 else 0) + (lost - old(lost)) && old(lost) <= lost
      ensures deepest <= Rank(next.hopsLeft)
      decreases Rank(next.hopsLeft), 3
    {
      hide NoSecondCopy, RestsAt, OnPath, Network.Valid, HT.Good, Refuses, RestsOnPath, TriedFirst;
      var found := routeOf(lookups);
      lookups := lookups + 1;
      ok, deepest := false, 0;
      ghost var since := Now();
      NoRests(since, at, next.envelope);
      if found.Some? {
        ok, deepest := SendGhostForward(at, found.value, nodes[at].key, next.(nextMailbox := next.envelope.mailbox));
        RouteFirst(since.hops, hops, at, found.value, next);
      }
    }

    /** Dials one relay after the other up to the first success. */
    method DialEach(at: string, addresses: seq<string>, body: Body) returns (ok: bool, ghost deepest: nat)
      requires Valid() && at in nodes && forall address :: address in addresses ==> !Blank(address)
      modifies this`received, this`refused, this`hops, this`rests, this`lost, this`offers, this`lookups
      modifies net`now, net`admissions, net`recorded, net.relays.Values
      ensures Valid()
      ensures RestsOnPath(old(Now()), Now(), at, body.envelope)
      ensures old(hops) <= hops && old(refused) <= refused
      ensures !ok ==> forall address :: address in addresses ==> Hop(at, address, body) in hops[|old(hops)|..]
      ensures |rests| - |old(rests)| == (if ok then 1 else 0) + (lost - old(lost)) && old(lost) <= lost
      ensures deepest <= Rank(body.hopsLeft)
      decreases Rank(body.hopsLeft), 3
    {
      hide NoSecondCopy, RestsAt, OnPath, Blank, Network.Valid, HT.Good, Refuses;
      deepest := 0;
      ghost var below;
      for i := 0 to |addresses|
        invariant Valid() && RestsOnPath(old(Now()), Now(), at, body.envelope)
        invariant |rests| - |old(rests)| == lost - old(lost) && old(lost) <= lost
        invariant deepest <= Rank(body.hopsLeft)
        invariant forall k :: 0 <= k < i ==> Hop(at, addresses[k], body) in hops[|old(hops)|..]
      {
        ghost var before := Now();
        if Trim(addresses[i]) == "" {
          continue;
        }
        ok, below := SendGhostForward(at, addresses[i], nodes[at].key, body);
        deepest := if below > deepest then below else deepest;
        LaterHops(old(hops), before.hops, hops, Hop(at, addresses[i], body));
        RestsAddUp(old(Now()), before, Now(), at, body.envelope);
        if ok {
          return;
        }
      }
      ok := false;
    }

    lemma NoRests(h: History, at: string, e: OpaqueEnvelope)
      ensures RestsOnPath(h, h, at, e)
    {
    }

    /** The last resort, when every configured relay has been dialled: the node's own store. */
    method KeepHere(at: string, submitter: Bytes, body: Body, ghost since: nat) returns (ok: bool)
      requires Valid() && at in nodes && since <= |hops|
      requires DialledAll(hops[since..], at, nodes[at].config, body.(hopsLeft := body.hopsLeft - 1))
      modifies this`refused, this`rests, net`admissions, net`recorded, net.relays.Values
      ensures Valid() && RestsOnPath(old(Now()), Now(), at, body.envelope)
      ensures |rests| == |old(rests)| + (if ok then 1 else 0)
      ensures refused == if ok then old(refused) else old(refused) + [(at, body.envelope)]
    {
      hide NoSecondCopy, OnPath, Network.Valid, HT.Good, HT.Decide;
      ghost var before := Now();
      ok := net.HoldAt(net.relays[at], body.envelope, codec, submitter);
      if ok {
        rests := rests + [(at, body.envelope)];
        OwnRest(before, Now(), at, body.envelope);
      } else {
        refused := refused + [(at, body.envelope)];
      }
    }

    /** Hops dialled since the beginning stay so, and the one dialled after `before` is among them. */
    static lemma LaterHops(start: seq<Hop>, before: seq<Hop>, after: seq<Hop>,
                           hop: Hop)
      requires start <= before <= after && |before| < |after| && after[|before|] == hop
      ensures hop in after[|start|..]
      ensures forall h :: h in before[|start|..] ==> h in after[|start|..]
    {
      assert after[|start|..][|before| - |start|] == hop;
      assert after[|start|..][..|before| - |start|] == before[|start|..];
    }

    /** One hop: the dial, the request or the answer may fail, which the sender sees as a failure. */
    method SendGhostForward(at: string, address: string, key: Bytes, body: Body) returns (ok: bool, ghost deepest: nat)
      requires Valid()
      modifies this`received, this`refused, this`hops, this`rests, this`lost, this`offers, this`lookups
      modifies net`now, net`admissions, net`recorded, net.relays.Values
      ensures Valid()
      ensures RestsOnPath(old(Now()), Now(), at, body.envelope)
      ensures ok ==> exists n :: RestsAt(Now(), n, body.envelope) && OnPath(hops[|old(hops)|..], at, n)
      ensures |rests| - |old(rests)| == (if ok then 1 else 0) + (lost - old(lost)) && old(lost) <= lost
      ensures deepest <= Rank(body.hopsLeft)
      ensures old(hops) < hops && old(refused) <= refused
      ensures hops[|old(hops)|] == Hop(at, address, body)
      ensures !ok && address in nodes && !fate(|old(hops)|).requestLost && !fate(|old(hops)|).answerLost ==>
                Refuses(address, key, false, body, |old(refused)|)
      decreases Rank(body.hopsLeft), 2
    {
      hide NoSecondCopy, RestsAt, OnPath, Network.Valid, HT.Good;
      ghost var since := Now();
      hops := hops + [Hop(at, address, body)];
      ghost var dialled := Now();
      net.Meanwhile();
      var exchange := fate(|hops| - 1);
      if address !in nodes || exchange.requestLost {
        return false, 0;
      }
      var ack;
      ack, deepest := HandleGhostForward(address, key, false, body);
      HopLeads(since, dialled, Now(), at, address, body, body.envelope);
      ok := ack != AckRejected;
      if ok {
        RestNamesNode(since, Now(), at, body.envelope);
      }
      if exchange.answerLost && ok {
        lost := lost + 1;
        ok := false;
      }
    }
  }
}
