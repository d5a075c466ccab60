/** Relay selection: bands of equal priority in order, shuffled within each band, and the dial list. */
module Relays {
  import opened Tokens

  const DEFAULT_DADDY_ADDRESS := "129.150.63.22:25565"

  datatype Relay = Relay(name: string, address: string, priority: int)

  // ---- the order of OrderRelays ----

  /** Byte-wise order of strings. */
  predicate StringLess(a: string, b: string) {
    if a == "" then b != ""
    else if b == "" then false
    else a[0] < b[0] || (a[0] == b[0] && StringLess(a[1..], b[1..]))
  }

  predicate Before(a: Relay, b: Relay) {
    if a.priority != b.priority then a.priority < b.priority
    else if a.name != b.name then StringLess(a.name, b.name)
    else StringLess(a.address, b.address)
  }

  lemma {:induction false} StringLessAsymmetric(a: string, b: string)
    ensures !(StringLess(a, b) && StringLess(b, a))
    ensures a != b ==> StringLess(a, b) || StringLess(b, a)
  {
    if a != "" && b != "" {
      StringLessAsymmetric(a[1..], b[1..]);
      assert a == [a[0]] + a[1..] && b == [b[0]] + b[1..];
    }
  }

  /** A string comes before another if it is a proper prefix of it or has the smaller byte where they first differ. */
  lemma {:induction false} StringLessIsLexicographic(a: string, b: string)
    ensures StringLess(a, b) <==>
            || (|a| < |b| && a == b[..|a|])
            || exists k :: 0 <= k < |a| && k < |b| && a[..k] == b[..k] && a[k] < b[k]
  {
    if a != "" && b != "" && a[0] == b[0] {
      var s, t := a[1..], b[1..];
      StringLessIsLexicographic(s, t);
      assert a == [a[0]] + s && b == [b[0]] + t;
      if |a| < |b| {
        assert b[..|a|] == [b[0]] + t[..|s|];
      }
      if k :| 0 <= k < |s| && k < |t| && s[..k] == t[..k] && s[k] < t[k] {
        assert a[..k + 1] == [a[0]] + s[..k] && b[..k + 1] == [b[0]] + t[..k];
        assert a[k + 1] < b[k + 1];
      }
      if k :| 0 <= k < |a| && k < |b| && a[..k] == b[..k] && a[k] < b[k] {
        assert s[..k - 1] == a[..k][1..] && t[..k - 1] == b[..k][1..];
        assert s[k - 1] < t[k - 1];
      }
    } else if a != "" && b != "" && a[0] < b[0] {
      assert a[..0] == b[..0];
    }
  }

  lemma {:induction false} StringLessTransitive(a: string, b: string, c: string)
    requires StringLess(a, b) && StringLess(b, c)
    ensures StringLess(a, c)
  {
    if a != "" && a[0] == b[0] == c[0] {
      StringLessTransitive(a[1..], b[1..], c[1..]);
    }
  }

  lemma BeforeAsymmetric(a: Relay, b: Relay)
    ensures !(Before(a, b) && Before(b, a))
  {
    StringLessAsymmetric(a.name, b.name);
    StringLessAsymmetric(a.address, b.address);
  }

  /** Not being after is transitive, which is what sorting needs of the order. */
  lemma NotAfterTransitive(a: Relay, b: Relay, c: Relay)
    requires !Before(b, a) && !Before(c, b)
    ensures !Before(c, a)
  {
    StringLessAsymmetric(a.name, b.name);
    StringLessAsymmetric(b.name, c.name);
    StringLessAsymmetric(a.address, b.address);
    StringLessAsymmetric(b.address, c.address);
    StringLessAsymmetric(a.name, c.name);
    StringLessAsymmetric(a.address, c.address);
    if a.name != b.name && b.name != c.name && StringLess(a.name, b.name) && StringLess(b.name, c.name) {
      StringLessTransitive(a.name, b.name, c.name);
    }
    if a.address != b.address && b.address != c.address && StringLess(a.address, b.address) &&
      StringLess(b.address, c.address) {
      StringLessTransitive(a.address, b.address, c.address);
    }
  }

  ghost predicate Ordered(rs: seq<Relay>) {
    forall i, j :: 0 <= i < j < |rs| ==> !Before(rs[j], rs[i])
  }

  /** Puts r behind everything it is not before. */
  function Insert(rs: seq<Relay>, r: Relay): (out: seq<Relay>)
    ensures multiset(out) == multiset(rs) + multiset{r}
  {
    if rs == [] then [r]
    else
      var last := rs[|rs| - 1];
      assert rs == rs[..|rs| - 1] + [last];
      if Before(r, last) then Insert(rs[..|rs| - 1], r) + [last] else rs + [r]
  }

  /** The stable sort, one relay after the other. */
  function OrderRelays(rs: seq<Relay>): (out: seq<Relay>)
    ensures multiset(out) == multiset(rs)
  {
    if rs == [] then []
    else
      assert rs == rs[..|rs| - 1] + [rs[|rs| - 1]];
      Insert(OrderRelays(rs[..|rs| - 1]), rs[|rs| - 1])
  }

  lemma {:induction false} InsertKeepsOrder(rs: seq<Relay>, r: Relay)
    requires Ordered(rs)
    ensures Ordered(Insert(rs, r))
  {
    if rs != [] {
      var front, last := rs[..|rs| - 1], rs[|rs| - 1];
      var out := Insert(rs, r);
      if Before(r, last) {
        InsertKeepsOrder(front, r);
        BeforeAsymmetric(r, last);
        forall i | 0 <= i < |out| - 1 ensures !Before(last, out[i]) {
          assert out[i] in multiset(Insert(front, r));
          assert out[i] in multiset(front) || out[i] == r;
          if out[i] in front {
            var k :| 0 <= k < |front| && front[k] == out[i];
            assert rs[k] == out[i];
          }
        }
      } else {
        forall i | 0 <= i < |rs| ensures !Before(r, rs[i]) {
          if i < |rs| - 1 {
            NotAfterTransitive(rs[i], last, r);
          }
        }
      }
    }
  }

  lemma {:induction false} SortIsOrdered(rs: seq<Relay>)
    ensures Ordered(OrderRelays(rs))
  {
    if rs != [] {
      SortIsOrdered(rs[..|rs| - 1]);
      InsertKeepsOrder(OrderRelays(rs[..|rs| - 1]), rs[|rs| - 1]);
    }
  }

  lemma OrderRelaysOrders(rs: seq<Relay>)
    ensures var out := OrderRelays(rs);
            forall i, j :: 0 <= i < j < |out| ==>
              || out[i].priority < out[j].priority
              || (out[i].priority == out[j].priority && StringLess(out[i].name, out[j].name))
              || (out[i].priority == out[j].priority && out[i].name == out[j].name
                  && !StringLess(out[j].address, out[i].address))
  {
    hide OrderRelays, StringLess;
    SortIsOrdered(rs);
    var out := OrderRelays(rs);
    forall i, j | 0 <= i < j < |out|
      ensures || out[i].priority < out[j].priority
              || (out[i].priority == out[j].priority && StringLess(out[i].name, out[j].name))
              || (out[i].priority == out[j].priority && out[i].name == out[j].name
                  && !StringLess(out[j].address, out[i].address))
    {
      assert !Before(out[j], out[i]);
      StringLessAsymmetric(out[i].name, out[j].name);
    }
  }

  // ---- the shuffle ----

  method Swap(a: array<Relay>, i: nat, j: nat)
    requires i < a.Length && j < a.Length && a[i].priority == a[j].priority
    modifies a
    ensures multiset(a[..]) == multiset(old(a[..]))
    ensures forall k :: 0 <= k < a.Length ==> a[k].priority == old(a[k].priority)
    ensures forall k :: 0 <= k < a.Length && k != i && k != j ==> a[k] == old(a[k])
    ensures a[i] == old(a[j]) && a[j] == old(a[i])
  {
    a[i], a[j] := a[j], a[i];
  }

  /** The relays after the draws, each of which exchanges the start of the band with the place drawn. */
  function Shuffled(rs: seq<Relay>, start: nat, draws: seq<nat>): (out: seq<Relay>)
    requires start < |rs| && forall k :: 0 <= k < |draws| ==> draws[k] < |rs|
    ensures |out| == |rs|
  {
    if draws == [] then rs
    else
      var before := Shuffled(rs, start, draws[..|draws| - 1]);
      var j := draws[|draws| - 1];
      before[start := before[j]][j := before[start]]
  }

  /** The draws a band allows: one for each place but the first, from the last place down, at or before that place. */
  predicate AreDraws(draws: seq<nat>, start: nat, end: nat) {
    |draws| == end - 1 - start && forall k :: 0 <= k < |draws| ==> start <= draws[k] <= end - 1 - k
  }

  /** So any relay of a band may come first: drawn at its own place, and the start at every other. */
  lemma AnyMayLead(rs: seq<Relay>, start: nat, end: nat, p: nat) returns (draws: seq<nat>)
    requires start <= p < end <= |rs|
    ensures AreDraws(draws, start, end) && (forall k :: 0 <= k < |draws| ==> draws[k] < |rs|)
    ensures Shuffled(rs, start, draws)[start] == rs[p]
  {
    draws := seq(end - 1 - start, k requires 0 <= k => if end - 1 - k == p then p else start);
    LeaderStays(rs, start, end, p, draws, |draws|);
    assert draws[..|draws|] == draws;
  }

  lemma {:induction false} LeaderStays(rs: seq<Relay>, start: nat, end: nat, p: nat, draws: seq<nat>, n: nat)
    requires start <= p < end <= |rs| && n <= |draws| == end - 1 - start
    requires forall k :: 0 <= k < |draws| ==> draws[k] == if end - 1 - k == p then p else start
    ensures forall k :: 0 <= k < |draws[..n]| ==> draws[..n][k] < |rs|
    ensures Shuffled(rs, start, draws[..n])[start] == if end - 1 - p < n then rs[p] else rs[start]
    ensures end - 1 - p >= n ==> Shuffled(rs, start, draws[..n]) == rs
  {
    if n > 0 {
      LeaderStays(rs, start, end, p, draws, n - 1);
      assert draws[..n][..n - 1] == draws[..n - 1];
    }
  }

  /** Each j is a fresh draw from start to i; the swap is always with start. */
  method ShuffleBand(a: array<Relay>, start: nat, end: nat) returns (ghost draws: seq<nat>)
    requires start < end <= a.Length
    requires forall k :: start <= k < end ==> a[k].priority == a[start].priority
    modifies a
    ensures multiset(a[..]) == multiset(old(a[..]))
    ensures forall k :: 0 <= k < a.Length ==> a[k].priority == old(a[k].priority)
    ensures forall k :: 0 <= k < a.Length && !(start <= k < end) ==> a[k] == old(a[k])
    ensures AreDraws(draws, start, end) && (forall k :: 0 <= k < |draws| ==> draws[k] < a.Length)
    ensures a[..] == Shuffled(old(a[..]), start, draws)
  {
    draws := [];
    var i := end - 1;
    while i > start
      invariant start <= i < end
      invariant multiset(a[..]) == multiset(old(a[..]))
      invariant forall k :: 0 <= k < a.Length ==> a[k].priority == old(a[k].priority)
      invariant forall k :: 0 <= k < a.Length && !(start <= k < end) ==> a[k] == old(a[k])
      invariant |draws| == end - 1 - i
      invariant forall k :: 0 <= k < |draws| ==> start <= draws[k] <= end - 1 - k && draws[k] < a.Length
      invariant a[..] == Shuffled(old(a[..]), start, draws)
    {
      var j: nat :| start <= j <= i;
      ghost var before := a[..];
      Swap(a, start, j);
      assert a[..] == before[start := before[j]][j := before[start]];
      assert (draws + [j])[..|draws|] == draws;
      draws := draws + [j];
      i := i - 1;
    }
  }

  /** A band of equal priority, and what was drawn for it. */
  datatype Band = Band(start: nat, end: nat, draws: seq<nat>)

  ghost predicate IsBand(b: Band, rs: seq<Relay>) {
    && b.start < b.end <= |rs| && AreDraws(b.draws, b.start, b.end)
    && (forall k :: b.start <= k < b.end ==> rs[k].priority == rs[b.start].priority)
    && (b.end < |rs| ==> rs[b.end].priority != rs[b.start].priority)
  }

  /** The bands follow each other from the first relay up to n. */
  ghost predicate AreBands(bands: seq<Band>, rs: seq<Relay>, n: nat) {
    && (forall k :: 0 <= k < |bands| ==> IsBand(bands[k], rs))
    && (if bands == [] then n == 0 else bands[0].start == 0 && bands[|bands| - 1].end == n)
    && (forall k, next :: 0 <= k < next < |bands| && next == k + 1 ==> bands[next].start == bands[k].end)
  }

  predicate InRange(b: Band, n: nat) {
    b.start < n && forall k :: 0 <= k < |b.draws| ==> b.draws[k] < n
  }

  /** The relays after every band was shuffled. */
  function AllShuffled(rs: seq<Relay>, bands: seq<Band>): (out: seq<Relay>)
    requires forall b :: b in bands ==> InRange(b, |rs|)
    ensures |out| == |rs|
  {
    if bands == [] then rs
    else
      var b := bands[|bands| - 1];
      var before := AllShuffled(rs, bands[..|bands| - 1]);
      assert b in bands && InRange(b, |rs|) && b.start < |before|;
      Shuffled(before, b.start, b.draws)
  }

  lemma BandAdded(rs: seq<Relay>, bands: seq<Band>, b: Band)
    requires AreBands(bands, rs, b.start) && IsBand(b, rs) && InRange(b, |rs|)
    requires forall other :: other in bands ==> InRange(other, |rs|)
    ensures AreBands(bands + [b], rs, b.end) && forall other :: other in bands + [b] ==> InRange(other, |rs|)
    ensures AllShuffled(rs, bands + [b]) == Shuffled(AllShuffled(rs, bands), b.start, b.draws)
  {
    hide Shuffled, IsBand;
    assert (bands + [b])[..|bands|] == bands;
  }

  /** Whatever is drawn: a permutation of the relays, each place keeping the priority it has in order. */
  method SelectRelays(relays: seq<Relay>) returns (ordered: array<Relay>, ghost bands: seq<Band>)
    ensures fresh(ordered)
    ensures AreBands(bands, OrderRelays(relays), |relays|)
    ensures forall b :: b in bands ==> InRange(b, |OrderRelays(relays)|)
    ensures ordered[..] == AllShuffled(OrderRelays(relays), bands)
    ensures multiset(ordered[..]) == multiset(relays)
    ensures ordered.Length == |OrderRelays(relays)|
    ensures forall k :: 0 <= k < ordered.Length ==> ordered[k].priority == OrderRelays(relays)[k].priority
    ensures forall i, j :: 0 <= i < j < ordered.Length ==> ordered[i].priority <= ordered[j].priority
  {
    hide Ordered, Before, Shuffled, AreDraws, AreBands, InRange;
    ghost var sorted := OrderRelays(relays);
    assert |sorted| == |relays| by {
      assert |multiset(sorted)| == |multiset(relays)|;
    }
    bands := NoBands(sorted);
    SortIsOrdered(relays);
    var source := OrderRelays(relays);
    ordered := new Relay[|source|](i requires 0 <= i < |source| => source[i]);
    assert ordered[..] == sorted;
    PrioritiesAscend(sorted);
    var start := 0;
    while start < ordered.Length
      invariant start <= ordered.Length
      invariant multiset(ordered[..]) == multiset(relays)
      invariant forall k :: 0 <= k < ordered.Length ==> ordered[k].priority == sorted[k].priority
      invariant AreBands(bands, sorted, start) && forall b :: b in bands ==> InRange(b, |sorted|)
      invariant ordered[..] == AllShuffled(sorted, bands)
    {
      var end := start + 1;
      while end < ordered.Length && ordered[end].priority == ordered[start].priority
        invariant start < end <= ordered.Length
        invariant forall k :: start <= k < end ==> ordered[k].priority == ordered[start].priority
      {
        end := end + 1;
      }
      ghost var draws := ShuffleBand(ordered, start, end);
      ghost var b := Band(start, end, draws);
      BandInRange(b, |sorted|);
      BandAdded(sorted, bands, b);
      bands := bands + [b];
      start := end;
    }
  }

  lemma NoBands(rs: seq<Relay>) returns (bands: seq<Band>)
    ensures bands == [] && AreBands([], rs, 0) && AllShuffled(rs, []) == rs
  {
    bands := [];
  }

  lemma BandInRange(b: Band, n: nat)
    requires b.start < n && forall k :: 0 <= k < |b.draws| ==> b.draws[k] < n
    ensures InRange(b, n)
  {
  }

  lemma PrioritiesAscend(rs: seq<Relay>)
    requires Ordered(rs)
    ensures forall i, j :: 0 <= i < j < |rs| ==> rs[i].priority <= rs[j].priority
  {
    forall i, j | 0 <= i < j < |rs| ensures rs[i].priority <= rs[j].priority {
      assert !Before(rs[j], rs[i]);
    }
  }

  // ---- the dial list ----

  /** The values of xs, each at the place it first occurs. */
  function FirstOccurrences(xs: seq<string>): seq<string> {
    if xs == [] then []
    else
      var front, last := xs[..|xs| - 1], xs[|xs| - 1];
      FirstOccurrences(front) + if last in front then [] else [last]
  }

  function FirstIndex(xs: seq<string>, x: string): (i: nat)
    requires x in xs
    ensures i < |xs| && xs[i] == x && x !in xs[..i]
  {
    if xs[0] == x then 0
    else
      assert xs == [xs[0]] + xs[1..];
      var rest := FirstIndex(xs[1..], x);
      assert xs[..rest + 1] == [xs[0]] + xs[1..][..rest];
      rest + 1
  }

  /** Every value is kept, none is repeated, and they stand in the order of their first occurrence. */
  lemma {:induction false} FirstOccurrencesKeepOrder(xs: seq<string>)
    ensures var out := FirstOccurrences(xs);
            && (forall x :: x in out <==> x in xs)
            && (forall i, j :: 0 <= i < j < |out| ==> FirstIndex(xs, out[i]) < FirstIndex(xs, out[j]))
  {
    if xs != [] {
      var front, last := xs[..|xs| - 1], xs[|xs| - 1];
      assert xs == front + [last];
      FirstOccurrencesKeepOrder(front);
      var out := FirstOccurrences(xs);
      forall x | x in front ensures FirstIndex(xs, x) == FirstIndex(front, x) {
        FirstIndexPrefix(front, last, x);
      }
    }
  }

  lemma {:induction false} FirstIndexPrefix(front: seq<string>, last: string, x: string)
    requires x in front
    ensures FirstIndex(front + [last], x) == FirstIndex(front, x)
  {
    if front[0] != x {
      assert front == [front[0]] + front[1..];
      assert (front + [last])[1..] == front[1..] + [last];
      FirstIndexPrefix(front[1..], last, x);
    }
  }

  function NonBlank(rs: seq<Relay>): seq<string> {
    if rs == [] then []
    else
      var address := Trim(rs[|rs| - 1].address);
      NonBlank(rs[..|rs| - 1]) + if address == "" then [] else [address]
  }

  function WithLegacy(addresses: seq<string>, legacy: string): seq<string> {
    addresses + if Trim(legacy) == "" then [] else [Trim(legacy)]
  }

  lemma NonBlankStep(rs: seq<Relay>, i: nat)
    requires i < |rs|
    ensures var address := Trim(rs[i].address);
            NonBlank(rs[..i + 1]) == if address == "" then NonBlank(rs[..i]) else NonBlank(rs[..i]) + [address]
  {
    assert rs[..i + 1][..i] == rs[..i];
  }

  lemma FirstOccurrencesStep(xs: seq<string>, x: string)
    ensures FirstOccurrences(xs + [x]) == if x in xs then FirstOccurrences(xs) else FirstOccurrences(xs) + [x]
  {
    assert (xs + [x])[..|xs|] == xs;
  }

  /** The loop over the selected relays, with the set of addresses it has listed. */
  method ListAddresses(selected: array<Relay>) returns (addresses: seq<string>, seen: set<string>)
    ensures addresses == FirstOccurrences(NonBlank(selected[..]))
    ensures forall x :: x in seen <==> x in NonBlank(selected[..])
  {
    addresses, seen := [], {};
    for i := 0 to selected.Length
      invariant addresses == FirstOccurrences(NonBlank(selected[..i]))
      invariant forall x :: x in seen <==> x in NonBlank(selected[..i])
    {
      assert selected[..][..i] == selected[..i] && selected[..][..i + 1] == selected[..i + 1];
      NonBlankStep(selected[..], i);
      var address := Trim(selected[i].address);
      if address == "" {
        continue;
      }
      FirstOccurrencesStep(NonBlank(selected[..i]), address);
      if address in seen {
        continue;
      }
      seen := seen + {address};
      addresses := addresses + [address];
    }
    assert selected[..selected.Length] == selected[..];
  }

  /**
   Every configured address in dial order, then the single address older versions stored, with
   repetitions left out; the built-in address when there is none at all.
   */
  method DaddyAddresses(configured: seq<Relay>, legacy: string)
    returns (addresses: seq<string>, ghost ordered: seq<Relay>)
    ensures multiset(ordered) == multiset(configured)
    ensures forall i, j :: 0 <= i < j < |ordered| ==> ordered[i].priority <= ordered[j].priority
    ensures addresses != []
    ensures var all := FirstOccurrences(WithLegacy(NonBlank(ordered), legacy));
            addresses == if all == [] then [DEFAULT_DADDY_ADDRESS] else all
  {
    hide OrderRelays, NonBlank, FirstOccurrences, Trim;
    var selected, _ := SelectRelays(configured);
    ordered := selected[..];
    var seen;
    addresses, seen := ListAddresses(selected);
    var legacyAddress := Trim(legacy);
    if legacyAddress != "" {
      FirstOccurrencesStep(NonBlank(ordered), legacyAddress);
      if legacyAddress !in seen {
        addresses := addresses + [legacyAddress];
      }
    } else {
      assert WithLegacy(NonBlank(ordered), legacy) == NonBlank(ordered);
    }
    if |addresses| == 0 {
      addresses := [DEFAULT_DADDY_ADDRESS];
    }
  }
}
