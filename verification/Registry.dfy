/**
 Mailbox ownership and temporary routes on a Daddy. The first authenticated key to register a
 mailbox owns it; owners may keep a bounded number of active routes.
 */
module Registry {
  import opened Timelines
  import opened Wrappers
  import opened ByteStrings
  import opened Resource
  import opened Tokens
  import Sums

  const MAX_ROUTE_LIFETIME := 24 * 60 * 60

  datatype Route = Route(address: string, expiresAt: int, lastSeen: int)

  datatype Registrations = Registrations(owners: map<string, Bytes>, routes: map<string, Route>)

  datatype Claim = Claim(mailbox: string, address: string, expiresAt: int, key: Bytes)

  datatype Denial = BadMailbox | BadRoute | OwnerQuota | OwnedByAnother | RouteQuota

  datatype Answer = Registered | Denied(why: Denial)

  /** The routes of mailboxes owned by key that are active at time now. */
  function ActiveRoutes(r: Registrations, key: Bytes, now: int): map<string, Route> {
    map m | m in r.routes && m in r.owners && r.owners[m] == key && r.routes[m].expiresAt > now :: r.routes[m]
  }

  /** What SetOwnedMailboxRoute answers. The route quota leaves out the mailbox being registered. */
  function Decide(r: Registrations, limits: Limits, c: Claim, now: int): Answer {
    if !IsToken(c.mailbox) then Denied(BadMailbox)
    else if Blank(c.address) || c.expiresAt <= now || |c.key| != 32 then Denied(BadRoute)
    else if c.mailbox !in r.owners && |r.owners| >= limits.mailboxOwnersGlobal then Denied(OwnerQuota)
    else if c.mailbox in r.owners && r.owners[c.mailbox] != c.key then Denied(OwnedByAnother)
    else if |ActiveRoutes(r, c.key, now) - {c.mailbox}| >= limits.routesPerIdentity then Denied(RouteQuota)
    else Registered
  }

  function Granted(r: Registrations, limits: Limits, c: Claim, now: int): Registrations {
    if Decide(r, limits, c, now) == Registered then
      Registrations(r.owners[c.mailbox := c.key], r.routes[c.mailbox := Route(c.address, c.expiresAt, now)])
    else r
  }

  function Swept(r: Registrations, now: int): Registrations {
    r.(routes := map m | m in r.routes && r.routes[m].expiresAt > now :: r.routes[m])
  }

  /** handleRegisterRoute shortens every lifetime to a day before it registers the route. */
  function Clamped(c: Claim, now: int): Claim {
    if c.expiresAt > now + MAX_ROUTE_LIFETIME then c.(expiresAt := now + MAX_ROUTE_LIFETIME) else c
  }

  ghost predicate RoutesWithin(r: Registrations, limits: Limits, key: Bytes, now: int) {
    |ActiveRoutes(r, key, now)| <= limits.routesPerIdentity
  }

  /** What holds at time now and, since routes only expire, at every later time. */
  ghost predicate Good(r: Registrations, limits: Limits, now: int) {
    && |r.owners| <= limits.mailboxOwnersGlobal
    && (forall key: Bytes :: RoutesWithin(r, limits, key, now))
    && (forall m :: m in r.routes ==> r.routes[m].expiresAt <= now + MAX_ROUTE_LIFETIME)
  }

  /** As routes and time go, the active routes of a key only become fewer. */
  lemma RoutesThinOut(r: Registrations, u: Registrations, limits: Limits, now: int, later: int)
    requires Good(r, limits, now) && now <= later
    requires u.owners == r.owners && u.routes.Keys <= r.routes.Keys
    requires forall m :: m in u.routes ==> u.routes[m] == r.routes[m]
    ensures Good(u, limits, later)
  {
    forall key: Bytes ensures RoutesWithin(u, limits, key, later) {
      assert RoutesWithin(r, limits, key, now);
      Sums.CardinalityMonotone(ActiveRoutes(u, key, later), ActiveRoutes(r, key, now));
    }
  }

  /** The registering owner ends up with its other active routes and this one. */
  lemma GrantAddsOneRoute(r: Registrations, limits: Limits, c: Claim, now: int)
    requires Decide(r, limits, c, now) == Registered
    ensures |ActiveRoutes(Granted(r, limits, c, now), c.key, now)| == |ActiveRoutes(r, c.key, now) - {c.mailbox}| + 1
  {
    var others := ActiveRoutes(r, c.key, now) - {c.mailbox};
    assert ActiveRoutes(Granted(r, limits, c, now), c.key, now) == others[c.mailbox :=
                                                                          Route(c.address, c.expiresAt, now)];
  }

  // ---- registrations in terms of the tables alone ----

  /** The other mailboxes of key with a route that is active. */
  function OtherActive(r: Registrations, c: Claim, now: int): set<string> {
    set m | m in r.routes && m in r.owners && r.owners[m] == c.key && r.routes[m].expiresAt > now && m != c.mailbox
  }

  /**
   A claim is registered if and only if it is well-formed and live, the mailbox is its key's already or is
   free with room for one more owner, and its key has room for one more route.
   */
  lemma RegisteredExactly(r: Registrations, limits: Limits, c: Claim, now: int)
    ensures Decide(r, limits, c, now) == Registered <==>
            && IsToken(c.mailbox) && !Blank(c.address) && c.expiresAt > now && |c.key| == 32
            && (if c.mailbox in r.owners then r.owners[c.mailbox] == c.key
                else |r.owners| + 1 <= limits.mailboxOwnersGlobal)
            && |OtherActive(r, c, now)| + 1 <= limits.routesPerIdentity
  {
    var others := ActiveRoutes(r, c.key, now) - {c.mailbox};
    assert others.Keys == OtherActive(r, c, now);
    assert |others.Keys| == |others|;
  }

  /** A registered claim leaves its key as owner of its mailbox, with exactly its route, and nothing else changed. */
  lemma RegistrationWrites(r: Registrations, limits: Limits, c: Claim, now: int)
    requires Decide(r, limits, c, now) == Registered
    ensures var u := Granted(r, limits, c, now);
            && c.mailbox in u.owners && u.owners[c.mailbox] == c.key
            && c.mailbox in u.routes && u.routes[c.mailbox] == Route(c.address, c.expiresAt, now)
            && (forall m :: m != c.mailbox ==> (m in u.owners <==> m in r.owners) && (m in u.routes <==> m in r.routes))
            && (forall m :: m in r.owners && m != c.mailbox ==> u.owners[m] == r.owners[m])
            && (forall m :: m in r.routes && m != c.mailbox ==> u.routes[m] == r.routes[m])
  {
    hide Decide;
  }

  /** An owner within its limits may always renew an active route, for a day at most, or move it. */
  lemma OwnersMayRenew(r: Registrations, limits: Limits, c: Claim, now: int)
    requires Good(r, limits, now)
    requires c.mailbox in r.owners && r.owners[c.mailbox] == c.key
    requires c.mailbox in r.routes && r.routes[c.mailbox].expiresAt > now
    requires IsToken(c.mailbox) && !Blank(c.address) && c.expiresAt > now && |c.key| == 32
    ensures Decide(r, limits, Clamped(c, now), now) == Registered
    ensures var route := Granted(r, limits, Clamped(c, now), now).routes[c.mailbox];
            && route.address == c.address && route.lastSeen == now
            && route.expiresAt == if c.expiresAt < now + 86400 then c.expiresAt else now + 86400
  {
    assert RoutesWithin(r, limits, c.key, now);
    var active := ActiveRoutes(r, c.key, now);
    assert c.mailbox in active && (active - {c.mailbox}).Keys == active.Keys - {c.mailbox};
    assert |(active - {c.mailbox}).Keys| == |active.Keys| - 1 && |active.Keys| == |active|;
  }

  /** The route count after the ownership row is inserted is the count before it, the mailbox itself left out. */
  lemma ClaimLeavesOtherRoutes(r: Registrations, c: Claim, now: int)
    ensures ActiveRoutes(r.(owners := r.owners[c.mailbox := c.key]), c.key, now) - {c.mailbox} ==
            ActiveRoutes(r, c.key, now) - {c.mailbox}
    ensures c.mailbox in r.owners && r.owners[c.mailbox] == c.key ==> r.owners[c.mailbox := c.key] == r.owners
  {
  }

  lemma GrantLeavesOtherOwners(r: Registrations, limits: Limits, c: Claim, now: int, key: Bytes)
    requires key != c.key
    ensures ActiveRoutes(Granted(r, limits, c, now), key, now) == ActiveRoutes(r, key, now)
  {
  }

  lemma GrantKeepsGood(r: Registrations, limits: Limits, c: Claim, now: int)
    requires Good(r, limits, now)
    ensures Good(Granted(r, limits, Clamped(c, now), now), limits, now)
  {
    var u := Granted(r, limits, Clamped(c, now), now);
    forall key: Bytes ensures RoutesWithin(u, limits, key, now) {
      assert RoutesWithin(r, limits, key, now);
      if key != c.key {
        GrantLeavesOtherOwners(r, limits, Clamped(c, now), now, key);
      } else if Decide(r, limits, Clamped(c, now), now) == Registered {
        GrantAddsOneRoute(r, limits, Clamped(c, now), now);
      }
    }
  }

  // ---- the registry itself ----

  class MailboxRegistry {
    const limits: Limits
    var owners: map<string, Bytes>
    var routes: map<string, Route>

    ghost function Contents(): Registrations
      reads this
    {
      Registrations(owners, routes)
    }

    ghost predicate Valid(now: int)
      reads this
    {
      Good(Contents(), limits, now)
    }

    constructor (limits: Limits)
      requires limits.Valid()
      ensures this.limits == limits && Contents() == Registrations(map[], map[])
      ensures forall now :: Valid(now)
    {
      this.limits, owners, routes := limits, map[], map[];
      new;
      forall key: Bytes, now ensures ActiveRoutes(Contents(), key, now) == map[] {
      }
    }

    /**
     The transaction claims ownership before it counts routes, so a first claim that fails the
     route quota has to take its ownership row back: it works on copies and commits at the end.
     */
    method SetOwnedMailboxRoute(c: Claim, now: int) returns (a: Answer)
      modifies this`owners, this`routes
      ensures a == Decide(old(Contents()), limits, c, now)
      ensures Contents() == Granted(old(Contents()), limits, c, now)
      ensures a != Registered ==> Contents() == old(Contents())
    {
      if !IsToken(c.mailbox) {
        return Denied(BadMailbox);
      }
      if Blank(c.address) || c.expiresAt <= now || |c.key| != 32 {
        return Denied(BadRoute);
      }
      var txOwners := owners;
      if c.mailbox !in txOwners {
        if |txOwners| >= limits.mailboxOwnersGlobal {
          return Denied(OwnerQuota);
        }
        txOwners := txOwners[c.mailbox := c.key];
      } else if txOwners[c.mailbox] != c.key {
        return Denied(OwnedByAnother);
      }
      var active := ActiveRoutes(Registrations(txOwners, routes), c.key, now) - {c.mailbox};
      ClaimLeavesOtherRoutes(Contents(), c, now);
      if |active| >= limits.routesPerIdentity {
        return Denied(RouteQuota);
      }
      owners, routes := txOwners, routes[c.mailbox := Route(c.address, c.expiresAt, now)];
      return Registered;
    }

    /** REGISTER_ROUTE from an authenticated peer, as the handler passes it on. */
    method HandleRegisterRoute(c: Claim, now: int) returns (a: Answer)
      requires Valid(now)
      modifies this`owners, this`routes
      ensures a == Decide(old(Contents()), limits, Clamped(c, now), now)
      ensures Contents() == Granted(old(Contents()), limits, Clamped(c, now), now)
      ensures Valid(now)
    {
      GrantKeepsGood(Contents(), limits, c, now);
      var claim := c;
      if claim.expiresAt > now + MAX_ROUTE_LIFETIME {
        claim := claim.(expiresAt := now + MAX_ROUTE_LIFETIME);
      }
      a := SetOwnedMailboxRoute(claim, now);
    }

    method DeleteExpiredRoutes(now: int)
      requires Valid(now)
      modifies this`routes
      ensures Contents() == Swept(old(Contents()), now)
      ensures Valid(now)
    {
      RoutesThinOut(Contents(), Swept(Contents(), now), limits, now, now);
      routes := map m | m in routes && routes[m].expiresAt > now :: routes[m];
    }

    /** None is the error answer to a malformed mailbox ID or key. */
    method MailboxOwnedBy(mailbox: string, key: Bytes) returns (r: Option<bool>)
      ensures r.None? <==> !IsToken(mailbox) || |key| != 32
      ensures r.Some? ==> (r.value <==> mailbox in owners && owners[mailbox] == key)
    {
      if !IsToken(mailbox) || |key| != 32 {
        return None;
      }
      if mailbox !in owners {
        return Some(false);
      }
      return Some(owners[mailbox] == key);
    }
  }

  // ---- runs ----

  datatype Op = Register(claim: Claim) | Sweep

  type Event = Timed<Op>

  function Step(r: Registrations, limits: Limits, e: Event): Registrations {
    match e.op
    case Register(c) => Granted(r, limits, Clamped(c, e.now), e.now)
    case Sweep => Swept(r, e.now)
  }

  function StateAt(r: Registrations, limits: Limits, es: seq<Event>, i: nat): Registrations
    requires i <= |es|
  {
    if i == 0 then r else Step(StateAt(r, limits, es, i - 1), limits, es[i - 1])
  }

  lemma StepKeepsGood(r: Registrations, limits: Limits, e: Event, before: int)
    requires Good(r, limits, before) && before <= e.now
    ensures Good(Step(r, limits, e), limits, e.now)
  {
    match e.op {
      case Register(c) =>
        RoutesThinOut(r, r, limits, before, e.now);
        GrantKeepsGood(r, limits, c, e.now);
      case Sweep => RoutesThinOut(r, Swept(r, e.now), limits, before, e.now);
    }
  }

  /**
   At every point of every Daddy-side run the number of owners and every owner's active routes are
   within their limits and no route reaches more than a day ahead.
   */
  lemma {:induction false} RunsKeepRouteQuotas(r: Registrations, limits: Limits, start: int, es: seq<Event>, i: nat)
    requires Good(r, limits, start) && Timely(start, es) && i <= |es|
    ensures Good(StateAt(r, limits, es, i), limits, ClockAt(start, es, i))
  {
    if i > 0 {
      RunsKeepRouteQuotas(r, limits, start, es, i - 1);
      assert ClockAt(start, es, i - 1) <= es[i - 1].now;
      StepKeepsGood(StateAt(r, limits, es, i - 1), limits, es[i - 1], ClockAt(start, es, i - 1));
      assert StateAt(r, limits, es, i) == Step(StateAt(r, limits, es, i - 1), limits, es[i - 1]);
    }
  }

  /** A mailbox once owned keeps its owner, whatever is registered or swept afterwards. */
  lemma {:induction false} OwnershipIsForever(r: Registrations, limits: Limits, es: seq<Event>, i: nat, j: nat,
                                              mailbox: string)
    requires i <= j <= |es| && mailbox in StateAt(r, limits, es, i).owners
    ensures mailbox in StateAt(r, limits, es, j).owners
    ensures StateAt(r, limits, es, j).owners[mailbox] == StateAt(r, limits, es, i).owners[mailbox]
  {
    if i < j {
      OwnershipIsForever(r, limits, es, i, j - 1, mailbox);
    }
  }
}
