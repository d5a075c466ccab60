/** What a delivery listing contains, and how rounds of fetching and acknowledging drain a mailbox. */
module Listings {
  import opened Wrappers
  import opened Ages
  import opened ByteStrings
  import opened Resource
  import opened HoldTables
  import Frames
  import Sums

  const MAX_HELD_MESSAGE_BATCH := 256
  const MAX_SESSION_REQUESTS := MAX_HELD_MESSAGE_BATCH + 16
  const MEBIBYTE := 1024 * 1024

  /** The rows a mailbox owner is shown: those of the mailbox that have not expired. */
  function Live(held: map<string, HeldRow>, mailbox: string, now: int): map<string, HeldRow> {
    map id | id in held && held[id].mailbox == mailbox && held[id].expiresAt > now :: held[id]
  }

  function Without(rows: map<string, HeldRow>, ids: seq<string>): map<string, HeldRow> {
    map id | id in rows && id !in ids :: rows[id]
  }

  function StoredTimes(rows: map<string, HeldRow>): map<string, int> {
    map id | id in rows :: rows[id].storedAt
  }

  ghost function ListedBytes(ids: seq<string>, rows: map<string, HeldRow>): nat
    requires forall id :: id in ids ==> id in rows
  {
    if ids == [] then 0 else ListedBytes(ids[..|ids| - 1], rows) + |rows[ids[|ids| - 1]].payload|
  }

  /** A listing stops early only at the row limit or at a row that would pass the byte limit. */
  ghost predicate IsListing(ids: seq<string>, rows: map<string, HeldRow>, limit: nat) {
    && OldestPrefix(ids, StoredTimes(rows))
    && |ids| <= limit
    && (rows != map[] ==> ids != [])
    && (|ids| > 1 ==> ListedBytes(ids, rows) <= MAX_OPAQUE_DELIVERY_BYTES)
    && (|| |ids| == limit
        || Without(rows, ids) == map[]
        || exists id :: IsNext(id, Without(rows, ids)) &&
             ListedBytes(ids, rows) + |rows[id].payload| > MAX_OPAQUE_DELIVERY_BYTES)
  }

  /** The oldest of the rows. */
  ghost predicate IsNext(id: string, rows: map<string, HeldRow>) {
    id in rows && forall other :: other in rows ==> rows[id].storedAt <= rows[other].storedAt
  }

  /** A listing cut where the byte limit stopped it is an oldest-first prefix that only the limits end. */
  lemma CutIsListing(ids: seq<string>, taken: nat, rows: map<string, HeldRow>, limit: nat)
    requires OldestPrefix(ids, StoredTimes(rows)) && taken <= |ids| <= limit && 0 < limit
    requires |ids| < limit ==> forall id :: id in rows ==> id in ids
    requires taken == 0 ==> ids == []
    requires taken > 1 ==> ListedBytes(ids[..taken], rows) <= MAX_OPAQUE_DELIVERY_BYTES
    requires taken < |ids| ==>
               ListedBytes(ids[..taken], rows) + |rows[ids[taken]].payload| > MAX_OPAQUE_DELIVERY_BYTES
    ensures IsListing(ids[..taken], rows, limit)
  {
    OldestPrefixCut(ids, taken, StoredTimes(rows));
    if taken == |ids| {
      assert ids[..taken] == ids;
    } else {
      NextIsLeftOut(ids, taken, rows);
    }
  }

  lemma NextIsLeftOut(ids: seq<string>, taken: nat, rows: map<string, HeldRow>)
    requires OldestPrefix(ids, StoredTimes(rows)) && taken < |ids|
    ensures IsNext(ids[taken], Without(rows, ids[..taken]))
  {
    OldestPrefixCut(ids, taken, StoredTimes(rows));
    var left := Without(rows, ids[..taken]);
    assert ids[taken] in ids && ids[taken] in left;
    forall other | other in left ensures rows[ids[taken]].storedAt <= rows[other].storedAt {
      if other in ids {
        var k :| 0 <= k < |ids| && ids[k] == other;
        assert forall n :: 0 <= n < taken ==> ids[..taken][n] == ids[n] && ids[n] in ids[..taken];
      }
    }
  }

  // ---- a listing in terms of the table alone ----

  /** The row is for the mailbox and has not expired. */
  predicate IsDue(held: map<string, HeldRow>, id: string, mailbox: string, now: int) {
    id in held && held[id].mailbox == mailbox && held[id].expiresAt > now
  }

  /**
   Only rows that are due are listed, some if there are any, oldest first, and none that is due and left
   out is older; those are left out only for the number of rows, or because the oldest of them would take
   the payloads past 3 MiB.
   */
  ghost predicate ShowsOldest(ids: seq<string>, held: map<string, HeldRow>, mailbox: string, now: int, most: nat) {
    && |ids| <= most
    && (forall id :: id in ids ==> id in held && held[id].mailbox == mailbox && held[id].expiresAt > now)
    && ((exists id :: IsDue(held, id, mailbox, now)) ==> ids != [])
    && (forall i, j :: 0 <= i < j < |ids| ==> ids[i] != ids[j] && held[ids[i]].storedAt <= held[ids[j]].storedAt)
    && (forall id, other :: id in ids && IsDue(held, other, mailbox, now) && other !in ids ==>
          held[id].storedAt <= held[other].storedAt)
    && (|ids| > 1 ==> ListedBytes(ids, held) <= 3145728)
    && (|ids| < most && (exists id :: IsDue(held, id, mailbox, now) && id !in ids) ==>
          exists id :: IsDue(held, id, mailbox, now) && id !in ids &&
            ListedBytes(ids, held) + |held[id].payload| > 3145728 &&
            forall other :: IsDue(held, other, mailbox, now) && other !in ids ==>
              held[id].storedAt <= held[other].storedAt)
  }

  lemma {:induction false} SameBytes(ids: seq<string>, held: map<string, HeldRow>, rows: map<string, HeldRow>)
    requires forall id :: id in ids ==> id in held && id in rows && held[id] == rows[id]
    ensures ListedBytes(ids, held) == ListedBytes(ids, rows)
  {
    if ids != [] {
      SameBytes(ids[..|ids| - 1], held, rows);
    }
  }

  lemma DueAreLive(held: map<string, HeldRow>, mailbox: string, now: int)
    ensures forall id :: id in Live(held, mailbox, now) <==> IsDue(held, id, mailbox, now)
    ensures forall id :: id in Live(held, mailbox, now) ==> Live(held, mailbox, now)[id] == held[id]
    ensures Live(held, mailbox, now) == map[] <==> forall id :: !IsDue(held, id, mailbox, now)
  {
    var rows := Live(held, mailbox, now);
    if rows != map[] {
      var id :| id in rows;
      assert IsDue(held, id, mailbox, now);
    }
  }

  /** What a listing of the live rows shows, said of the whole table. */
  lemma ListingShowsOldest(ids: seq<string>, held: map<string, HeldRow>, mailbox: string, now: int, most: nat)
    requires IsListing(ids, Live(held, mailbox, now), most)
    ensures ShowsOldest(ids, held, mailbox, now, most)
  {
    DueAreLive(held, mailbox, now);
    var rows := Live(held, mailbox, now);
    hide Live;
    SameBytes(ids, held, rows);
    hide ListedBytes;
    if |ids| < most && exists id :: IsDue(held, id, mailbox, now) && id !in ids {
      NextPassesLimit(ids, held, rows, mailbox, now, most);
    }
    hide IsDue, StoredTimes;
    TimesAre(rows);
  }

  lemma TimesAre(rows: map<string, HeldRow>)
    ensures StoredTimes(rows).Keys == rows.Keys
    ensures forall id :: id in rows ==> StoredTimes(rows)[id] == rows[id].storedAt
  {
  }

  lemma NextPassesLimit(ids: seq<string>, held: map<string, HeldRow>, rows: map<string, HeldRow>, mailbox: string,
                        now: int, most: nat)
    requires IsListing(ids, rows, most) && forall id :: id in ids ==> id in rows && id in held
    requires forall id :: id in rows <==> IsDue(held, id, mailbox, now)
    requires forall id :: id in rows ==> id in held && rows[id] == held[id]
    requires |ids| < most && exists id :: IsDue(held, id, mailbox, now) && id !in ids
    requires ListedBytes(ids, held) == ListedBytes(ids, rows)
    ensures exists id :: IsDue(held, id, mailbox, now) && id !in ids &&
              ListedBytes(ids, held) + |held[id].payload| > 3145728 &&
              forall other :: IsDue(held, other, mailbox, now) && other !in ids ==>
                held[id].storedAt <= held[other].storedAt
  {
    hide ListedBytes, OldestPrefix;
    var some :| IsDue(held, some, mailbox, now) && some !in ids;
    assert some in Without(rows, ids);
    var id :| IsNext(id, Without(rows, ids)) &&
      ListedBytes(ids, rows) + |rows[id].payload| > MAX_OPAQUE_DELIVERY_BYTES;
    assert IsDue(held, id, mailbox, now) && id !in ids;
    forall other | IsDue(held, other, mailbox, now) && other !in ids
      ensures held[id].storedAt <= held[other].storedAt
    {
      assert other in Without(rows, ids);
    }
  }

  /** The rows of the mailbox that are due. */
  function Due(held: map<string, HeldRow>, mailbox: string, now: int): set<string> {
    set id | id in held && held[id].mailbox == mailbox && held[id].expiresAt > now
  }

  lemma DueCount(held: map<string, HeldRow>, mailbox: string, now: int)
    ensures |Due(held, mailbox, now)| == |Live(held, mailbox, now)|
  {
    assert Live(held, mailbox, now).Keys == Due(held, mailbox, now);
    assert |Live(held, mailbox, now).Keys| == |Live(held, mailbox, now)|;
  }

  lemma ListingStops(ids: seq<string>, rows: map<string, HeldRow>, limit: nat)
    requires IsListing(ids, rows, limit)
    ensures Distinct(ids) && (forall id :: id in ids ==> id in rows) && (rows != map[] ==> ids != [])
    ensures Without(rows, ids) != map[] ==>
              |ids| == limit || exists id :: id in Without(rows, ids) &&
                                  ListedBytes(ids, rows) + |rows[id].payload| > MAX_OPAQUE_DELIVERY_BYTES
  {
  }

  /** Without removes exactly the listed rows, so distinct IDs account for the whole difference. */
  lemma {:induction false} DistinctCovers(ids: seq<string>, rows: map<string, HeldRow>)
    requires Distinct(ids) && forall id :: id in ids ==> id in rows
    ensures |Without(rows, ids)| + |ids| == |rows|
    ensures HeldBytes(Without(rows, ids)) + ListedBytes(ids, rows) == HeldBytes(rows)
  {
    if ids == [] {
      assert Without(rows, ids) == rows;
    } else {
      var rest, last := ids[..|ids| - 1], ids[|ids| - 1];
      DistinctCovers(rest, rows);
      assert last !in rest;
      assert Without(rows, ids) == Without(rows, rest) - {last};
      Sums.SumRemove(Sizes(Without(rows, rest)), last);
      assert Sizes(Without(rows, ids)) == Sizes(Without(rows, rest)) - {last};
    }
  }

  // ---- one delivery fits its session ----

  const DELIVERY_PREFIX := "{\"type\":\"MESSAGE_DELIVERY\",\"data\":{\"messages\":["
  const DELIVERY_SUFFIX := "]}}"

  function Ascii(s: string): (bs: Bytes)
    ensures |bs| == |s|
  {
    seq(|s|, i requires 0 <= i < |s| => s[i] as int % 256)
  }

  /** The stored JSON envelopes, comma separated. */
  function Envelopes(ids: seq<string>, rows: map<string, HeldRow>): Bytes
    requires forall id :: id in ids ==> id in rows
  {
    if ids == [] then []
    else
      Envelopes(ids[..|ids| - 1], rows) + (if |ids| == 1 then [] else Ascii(",")) + rows[ids[|ids| - 1]].payload
  }

  /** The text of the MESSAGE_DELIVERY that hands over a listing. */
  function DeliveryText(ids: seq<string>, rows: map<string, HeldRow>): Bytes
    requires forall id :: id in ids ==> id in rows
  {
    Ascii(DELIVERY_PREFIX) + Envelopes(ids, rows) + Ascii(DELIVERY_SUFFIX)
  }

  lemma {:induction false} EnvelopesSize(ids: seq<string>, rows: map<string, HeldRow>)
    requires forall id :: id in ids ==> id in rows
    ensures |Envelopes(ids, rows)| == ListedBytes(ids, rows) + if ids == [] then 0 else |ids| - 1
  {
    if ids != [] {
      EnvelopesSize(ids[..|ids| - 1], rows);
    }
  }

  /**
   Whatever a mailbox holds, its next delivery fits one frame with its seal, and the fetch with one
   acknowledgement for each envelope fits the exchanges of a session and the smallest
   request burst a configuration may set.
   */
  lemma DeliveryFits(ids: seq<string>, t: Tables, mailbox: string, now: int, limits: Limits)
    requires PayloadsBounded(t.held) && limits.Valid()
    requires IsListing(ids, Live(t.held, mailbox, now), MAX_HELD_MESSAGE_BATCH)
    ensures ListedBytes(ids, Live(t.held, mailbox, now)) <= MAX_OPAQUE_DELIVERY_BYTES
    ensures Frames.Fits(DeliveryText(ids, Live(t.held, mailbox, now)))
    ensures 1 + |ids| <= MAX_SESSION_REQUESTS <= limits.requestBurst
  {
    var rows := Live(t.held, mailbox, now);
    ListingStops(ids, rows, MAX_HELD_MESSAGE_BATCH);
    EnvelopesSize(ids, rows);
    hide OldestPrefix, IsListing, Live, Envelopes;
    if |ids| == 1 {
      assert ids[0] in ids && ids[..0] == [];
      assert ListedBytes(ids, rows) == |rows[ids[0]].payload|;
    }
  }

  // ---- rounds of fetching and acknowledging ----

  /**
   How far the owner got with what was listed: not even the first acknowledgement reached the store; or
   it did, but a later one did not or came when its envelope was no longer held; or all of them did.
   */
  datatype Reach = Lost | CutShort | Complete

  datatype Round = Round(ids: seq<string>, reach: Reach)

  /** Rounds in which the owner accepts every envelope it gets to; rows may also go in any other way. */
  ghost predicate DrainRun(helds: seq<map<string, HeldRow>>, rounds: seq<Round>, nows: seq<int>, mailbox: string) {
    && |helds| == |nows| == |rounds| + 1
    && (forall k :: 0 <= k < |rounds| ==> DrainRound(helds[k], helds[k + 1], rounds[k], nows[k], nows[k + 1], mailbox))
  }

  /** Nothing new arrives for the mailbox; the first listed envelope is gone even if the round was cut short. */
  ghost predicate DrainRound(before: map<string, HeldRow>, after: map<string, HeldRow>, r: Round,
                             now: int, later: int, mailbox: string)
  {
    var was, left := Live(before, mailbox, now), Live(after, mailbox, later);
    && now <= later
    && IsListing(r.ids, was, MAX_HELD_MESSAGE_BATCH)
    && IsPartOf(left, was)
    && (r.reach == CutShort ==> r.ids != [] && r.ids[0] !in left)
    && (r.reach == Complete ==> forall id :: id in r.ids ==> id !in left)
  }

  ghost predicate IsPartOf(part: map<string, HeldRow>, whole: map<string, HeldRow>) {
    forall id :: id in part ==> id in whole && part[id] == whole[id]
  }

  function Completed(rounds: seq<Round>): nat {
    if rounds == [] then 0
    else Completed(rounds[..|rounds| - 1]) + if rounds[|rounds| - 1].reach == Complete then 1 else 0
  }

  function NotLost(rounds: seq<Round>): nat {
    if rounds == [] then 0
    else NotLost(rounds[..|rounds| - 1]) + if rounds[|rounds| - 1].reach == Lost then 0 else 1
  }

  /** One MiB of potential is worth 256 rows or one MiB of payload. */
  ghost function Backlog(rows: map<string, HeldRow>): nat {
    4096 * |rows| + HeldBytes(rows)
  }

  lemma RoundMakesProgress(before: map<string, HeldRow>, after: map<string, HeldRow>, r: Round,
                           now: int, later: int, mailbox: string)
    requires DrainRound(before, after, r, now, later, mailbox)
    requires PayloadsBounded(Live(before, mailbox, now))
    ensures var was, left := Live(before, mailbox, now), Live(after, mailbox, later);
            && |left| <= |was| && (was != map[] && r.reach != Lost ==> |left| < |was|)
            && (left != map[] ==>
                  was != map[] && Backlog(left) + (if r.reach == Complete then MEBIBYTE else 0) <= Backlog(was))
  {
    hide Live, IsListing, OldestPrefix, HeldBytes;
    var was, left := Live(before, mailbox, now), Live(after, mailbox, later);
    ListingStops(r.ids, was, MAX_HELD_MESSAGE_BATCH);
    Sums.CardinalityMonotone(left, was);
    if was != map[] && r.reach != Lost {
      var rest := was - {r.ids[0]};
      assert r.ids[0] in r.ids && left.Keys <= rest.Keys && rest.Keys == was.Keys - {r.ids[0]};
      Sums.CardinalityMonotone(left, rest);
      assert |rest.Keys| == |was.Keys| - 1;
    }
    PartWeighsLess(left, was);
    if r.reach == Complete && left != map[] {
      var kept := Without(was, r.ids);
      assert left.Keys <= kept.Keys;
      PartWeighsLess(left, kept);
      CompleteRoundTakes(was, r.ids);
    }
  }

  lemma PartWeighsLess(part: map<string, HeldRow>, whole: map<string, HeldRow>)
    requires IsPartOf(part, whole)
    ensures Backlog(part) <= Backlog(whole)
  {
    Sums.CardinalityMonotone(part, whole);
    Sums.SumMonotone(Sizes(part), Sizes(whole));
  }

  /** A listing that leaves something has taken 256 rows, or more than two MiB. */
  lemma CompleteRoundTakes(was: map<string, HeldRow>, ids: seq<string>)
    requires IsListing(ids, was, MAX_HELD_MESSAGE_BATCH) && PayloadsBounded(was) && Without(was, ids) != map[]
    ensures Backlog(Without(was, ids)) + MEBIBYTE <= Backlog(was)
  {
    hide IsListing, OldestPrefix, HeldBytes;
    ListingStops(ids, was, MAX_HELD_MESSAGE_BATCH);
    DistinctCovers(ids, was);
  }

  lemma {:induction false} LiveOnlyShrinks(helds: seq<map<string, HeldRow>>, rounds: seq<Round>, nows: seq<int>,
                                           mailbox: string, n: nat)
    requires DrainRun(helds, rounds, nows, mailbox) && n <= |rounds|
    ensures IsPartOf(LiveAt(helds, nows, mailbox, n), LiveAt(helds, nows, mailbox, 0))
  {
    hide Live, IsListing;
    if n > 0 {
      LiveOnlyShrinks(helds, rounds, nows, mailbox, n - 1);
      assert DrainRound(helds[n - 1], helds[n], rounds[n - 1], nows[n - 1], nows[n], mailbox);
    }
  }

  ghost function LiveAt(helds: seq<map<string, HeldRow>>, nows: seq<int>, mailbox: string, n: nat): map<string, HeldRow>
    requires n < |helds| == |nows|
  {
    Live(helds[n], mailbox, nows[n])
  }

  /**
   Every round that was not lost, cut short or not, strictly lowers the number of live envelopes until
   none is left, and every complete one takes a MiB of potential off the backlog.
   */
  lemma {:induction false} DrainCountsDown(helds: seq<map<string, HeldRow>>, rounds: seq<Round>, nows: seq<int>,
                                           mailbox: string, n: nat)
    requires DrainRun(helds, rounds, nows, mailbox) && n <= |rounds|
    requires PayloadsBounded(LiveAt(helds, nows, mailbox, 0))
    ensures LiveAt(helds, nows, mailbox, n) != map[] ==>
              && |LiveAt(helds, nows, mailbox, n)| + NotLost(rounds[..n]) <= |LiveAt(helds, nows, mailbox, 0)|
              && Backlog(LiveAt(helds, nows, mailbox, n)) + Completed(rounds[..n]) * MEBIBYTE
                 <= Backlog(LiveAt(helds, nows, mailbox, 0))
  {
    hide IsListing, Live, Backlog;
    if n > 0 {
      DrainCountsDown(helds, rounds, nows, mailbox, n - 1);
      LiveOnlyShrinks(helds, rounds, nows, mailbox, n - 1);
      RoundMakesProgress(helds[n - 1], helds[n], rounds[n - 1], nows[n - 1], nows[n], mailbox);
      assert rounds[..n][..n - 1] == rounds[..n - 1];
    }
  }

  /**
   A mailbox is empty once as many rounds as it had live envelopes were not lost, however many were cut
   short. When it is within its quotas, it is also empty after as many complete rounds as it may hold
   MiB, plus one for every 256 envelopes it may hold: at most 544 under any valid configuration.
   */
  lemma MailboxDrains(t: Tables, limits: Limits, legacy: Legacy, helds: seq<map<string, HeldRow>>,
                      rounds: seq<Round>, nows: seq<int>, mailbox: string, n: nat)
    requires DrainRun(helds, rounds, nows, mailbox) && n <= |rounds| && helds[0] == t.held
    requires Good(t, limits, legacy, nows[0]) && limits.Valid()
    requires
      || NotLost(rounds[..n]) >= |Due(helds[0], mailbox, nows[0])|
      || Completed(rounds[..n]) * MEBIBYTE >= 4096 * limits.heldMessagesPerMailbox + limits.heldBytesPerMailbox
      || Completed(rounds[..n]) >= 544
    ensures forall id :: id in helds[n] && helds[n][id].mailbox == mailbox ==> helds[n][id].expiresAt <= nows[n]
  {
    hide IsListing, Good, ScopeWithin, HeldBytes;
    DueCount(helds[0], mailbox, nows[0]);
    DueAreLive(helds[n], mailbox, nows[n]);
    assert forall id :: id in helds[n] && helds[n][id].mailbox == mailbox ==>
        IsDue(helds[n], id, mailbox, nows[n]) || helds[n][id].expiresAt <= nows[n];
    assert PayloadsBounded(t.held) && ScopeWithin(t.held, limits, legacy, OfMailbox(mailbox)) by {
      GoodParts(t, limits, legacy, nows[0], OfMailbox(mailbox));
    }
    DrainCountsDown(helds, rounds, nows, mailbox, n);
    BacklogWithin(t, limits, legacy, mailbox, nows[0]);
  }

  // ---- rounds that are cut short may each take a single envelope ----

  function Name(i: nat): (name: string)
    ensures |name| == i
  {
    seq(i, _ => 'x')
  }

  /** Rows k to n of a mailbox, each of one byte and younger than the one before. */
  function Slowly(mailbox: string, k: nat, n: nat): (held: map<string, HeldRow>)
    ensures forall id :: id in held <==> k <= |id| <= n && id == Name(|id|)
    ensures forall id :: id in held ==> held[id] == HeldRow(mailbox, [0], 1, |id|, None)
  {
    map i: nat | k <= i <= n :: Name(i) := HeldRow(mailbox, [0], 1, i, None)
  }

  function Next(k: nat, n: nat): (ids: seq<string>)
    requires k <= n
    ensures |ids| == if n + 1 - k < MAX_HELD_MESSAGE_BATCH then n + 1 - k else MAX_HELD_MESSAGE_BATCH
    ensures forall j :: 0 <= j < |ids| ==> ids[j] == Name(k + j)
  {
    seq(if n + 1 - k < MAX_HELD_MESSAGE_BATCH then n + 1 - k else MAX_HELD_MESSAGE_BATCH,
        j requires 0 <= j => Name(k + j))
  }

  lemma {:induction false} OneByteEach(ids: seq<string>, rows: map<string, HeldRow>)
    requires forall id :: id in ids ==> id in rows && |rows[id].payload| == 1
    ensures ListedBytes(ids, rows) == |ids|
  {
    if ids != [] {
      OneByteEach(ids[..|ids| - 1], rows);
    }
  }

  lemma NextIsOldest(mailbox: string, k: nat, n: nat)
    requires k <= n
    ensures OldestPrefix(Next(k, n), StoredTimes(Slowly(mailbox, k, n)))
    ensures forall id :: id in Next(k, n) <==> id in Slowly(mailbox, k, n) && |id| < k + |Next(k, n)|
  {
    hide Name, Slowly, Next;
    var ids, rows := Next(k, n), Slowly(mailbox, k, n);
    forall id | id in rows && |id| < k + |ids| ensures id in ids {
      assert ids[|id| - k] == id;
    }
  }

  lemma NextIsListing(mailbox: string, k: nat, n: nat)
    requires k <= n
    ensures IsListing(Next(k, n), Slowly(mailbox, k, n), MAX_HELD_MESSAGE_BATCH)
  {
    hide Name, Slowly, Next, OldestPrefix;
    NextIsOldest(mailbox, k, n);
    OneByteEach(Next(k, n), Slowly(mailbox, k, n));
    assert Next(k, n)[0] in Next(k, n);
  }

  lemma OneIsTaken(mailbox: string, k: nat, n: nat)
    requires k < n
    ensures DrainRound(Slowly(mailbox, k, n), Slowly(mailbox, k + 1, n), Round(Next(k, n), CutShort), 0, 0, mailbox)
  {
    hide Name, Slowly, Next, IsListing;
    NextIsListing(mailbox, k, n);
    AllLive(mailbox, k, n);
    AllLive(mailbox, k + 1, n);
    assert |Next(k, n)[0]| == k;
  }

  lemma AllLive(mailbox: string, k: nat, n: nat)
    ensures Live(Slowly(mailbox, k, n), mailbox, 0) == Slowly(mailbox, k, n)
  {
    hide Name, Slowly;
  }

  /**
   The bound for rounds that are cut short is met: for any n, rounds that lose the first listed envelope
   and no more leave one envelope of n + 1 after n rounds.
   */
  lemma CutShortRoundsMeetBound(mailbox: string, n: nat)
    ensures exists helds, rounds, nows ::
      && DrainRun(helds, rounds, nows, mailbox) && |rounds| == NotLost(rounds) == n
      && |LiveAt(helds, nows, mailbox, 0)| == n + 1 && LiveAt(helds, nows, mailbox, n) != map[]
  {
    hide Name, Slowly, Next, DrainRound, Live, NotLost;
    var helds := seq(n + 1, k requires 0 <= k => Slowly(mailbox, k, n));
    var rounds := seq(n, k requires 0 <= k < n => Round(Next(k, n), CutShort));
    var nows := seq(n + 1, k => 0);
    forall k | 0 <= k < n ensures DrainRound(helds[k], helds[k + 1], rounds[k], nows[k], nows[k + 1], mailbox) {
      OneIsTaken(mailbox, k, n);
    }
    CutShortIsNotLost(rounds);
    AllLive(mailbox, 0, n);
    AllLive(mailbox, n, n);
    HowMany(mailbox, n);
    HasLast(mailbox, n);
    assert DrainRun(helds, rounds, nows, mailbox);
  }

  lemma HasLast(mailbox: string, n: nat)
    ensures Slowly(mailbox, n, n) != map[]
  {
    assert Name(n) in Slowly(mailbox, n, n);
  }

  lemma {:induction false} CutShortIsNotLost(rounds: seq<Round>)
    requires forall k :: 0 <= k < |rounds| ==> rounds[k].reach == CutShort
    ensures NotLost(rounds) == |rounds|
  {
    if rounds != [] {
      CutShortIsNotLost(rounds[..|rounds| - 1]);
    }
  }

  lemma {:induction false} HowMany(mailbox: string, n: nat)
    ensures |Slowly(mailbox, 0, n)| == n + 1
  {
    hide Name, Slowly;
    if n == 0 {
      SlowlyGrows({}, Slowly(mailbox, 0, 0).Keys, 0);
    } else {
      HowMany(mailbox, n - 1);
      SlowlyGrows(Slowly(mailbox, 0, n - 1).Keys, Slowly(mailbox, 0, n).Keys, n);
    }
  }

  lemma SlowlyGrows(before: set<string>, after: set<string>, n: nat)
    requires forall id :: id in before <==> |id| < n && id == Name(|id|)
    requires forall id :: id in after <==> |id| <= n && id == Name(|id|)
    ensures |after| == |before| + 1
  {
    hide Name;
    assert Name(n) !in before && after == before + {Name(n)};
  }

  lemma GoodParts(t: Tables, limits: Limits, legacy: Legacy, now: int, s: Scope)
    requires Good(t, limits, legacy, now)
    ensures PayloadsBounded(t.held) && ScopeWithin(t.held, limits, legacy, s)
  {
  }

  lemma BacklogWithin(t: Tables, limits: Limits, legacy: Legacy, mailbox: string, now: int)
    requires ScopeWithin(t.held, limits, legacy, OfMailbox(mailbox))
    ensures Backlog(Live(t.held, mailbox, now)) <= 4096 * limits.heldMessagesPerMailbox + limits.heldBytesPerMailbox
  {
    var first, all := Live(t.held, mailbox, now), HeldIn(t.held, OfMailbox(mailbox));
    Sums.CardinalityMonotone(first, all);
    Sums.SumMonotone(Sizes(first), Sizes(all));
  }
}
