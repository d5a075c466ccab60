/**
 Counted slots with a global and a per-key cap. A node keeps two of these: inbound
 connections by source address, and requests in flight by identity ("unknown" for an empty one).
 */
module Slots {
  import Sums

  /** The map counts what is outstanding for each key, with no key kept at zero. */
  ghost predicate Counts(active: map<string, nat>, outstanding: multiset<string>) {
    && (forall k :: k in active <==> k in outstanding)
    && (forall k :: k in active ==> active[k] == outstanding[k] > 0)
    && |outstanding| == Sums.Sum(active)
  }

  lemma CountsTake(active: map<string, nat>, outstanding: multiset<string>, key: string)
    requires Counts(active, outstanding)
    ensures Counts(active[key := outstanding[key] + 1], outstanding + multiset{key})
  {
    hide Sums.Sum;
    SumUpdate(active, key, outstanding[key] + 1);
  }

  lemma CountsGive(active: map<string, nat>, outstanding: multiset<string>, key: string)
    requires Counts(active, outstanding) && key in outstanding
    ensures key in active && active[key] == outstanding[key]
    ensures Counts(if outstanding[key] == 1 then active - {key} else active[key := (outstanding[key] - 1) as nat],
                   outstanding - multiset{key})
  {
    hide Sums.Sum;
    if outstanding[key] == 1 {
      Sums.SumRemove(active, key);
    } else {
      SumUpdate(active, key, outstanding[key] - 1);
    }
  }

  class CountedSlots {
    const globalCap: int
    const perKeyCap: int
    var active: map<string, nat>
    var global: int
    /** The keys of the acquires that have not been released. */
    ghost var outstanding: multiset<string>

    ghost predicate Valid()
      reads this
    {
      && Counts(active, outstanding)
      && global == |outstanding| <= globalCap
      && (forall k :: k in active ==> active[k] <= perKeyCap)
    }

    constructor (globalCap: int, perKeyCap: int)
      requires 1 <= perKeyCap && 1 <= globalCap
      ensures Valid() && outstanding == multiset{} && active == map[]
      ensures this.globalCap == globalCap && this.perKeyCap == perKeyCap
    {
      this.globalCap, this.perKeyCap := globalCap, perKeyCap;
      active, global, outstanding := map[], 0, multiset{};
    }

    method Acquire(key: string) returns (ok: bool)
      requires Valid()
      modifies this
      ensures Valid()
      ensures ok <==> |old(outstanding)| < globalCap && old(outstanding)[key] < perKeyCap
      ensures outstanding == if ok then old(outstanding) + multiset{key} else old(outstanding)
      ensures !ok ==> active == old(active) && global == old(global)
    {
      var current := if key in active then active[key] else 0;
      if global >= globalCap || current >= perKeyCap {
        return false;
      }
      CountsTake(active, outstanding, key);
      active := active[key := current + 1];
      global := global + 1;
      outstanding := outstanding + multiset{key};
      return true;
    }

    /** Gives back one slot, once for each acquire that succeeded. */
    method Release(key: string)
      requires Valid() && key in outstanding
      modifies this
      ensures Valid()
      ensures outstanding == old(outstanding) - multiset{key}
    {
      hide Counts;
      CountsGive(active, outstanding, key);
      active := active[key := active[key] - 1];
      global := global - 1;
      if active[key] <= 0 {
        assert active - {key} == old(active) - {key};
        active := active - {key};
      }
      outstanding := outstanding - multiset{key};
    }
  }

  lemma SumUpdate(m: map<string, nat>, key: string, n: nat)
    ensures Sums.Sum(m[key := n]) == Sums.Sum(m) - (if key in m then m[key] else 0) + n
  {
    Sums.SumRemove(m[key := n], key);
    assert m[key := n] - {key} == m - {key};
    if key in m {
      Sums.SumRemove(m, key);
    } else {
      assert m - {key} == m;
    }
  }

  // ---- interleavings ----

  datatype Act = Attempt(key: string) | Return(key: string)

  /** An attempt is granted when fewer than globalCap slots are out and fewer than perKeyCap of them to its key. */
  function After(before: multiset<string>, act: Act, globalCap: int, perKeyCap: int): multiset<string> {
    if act.Return? then before - multiset{act.key}
    else if |before| < globalCap && before[act.key] < perKeyCap then before + multiset{act.key}
    else before
  }

  /** The slots in use after the first i acts of an interleaving, by the admission rule alone. */
  function InUse(acts: seq<Act>, i: nat, globalCap: int, perKeyCap: int): multiset<string>
    requires i <= |acts|
  {
    if i == 0 then multiset{} else After(InUse(acts, i - 1, globalCap, perKeyCap), acts[i - 1], globalCap, perKeyCap)
  }

  /** Every return gives back a slot that is in use. */
  ghost predicate Matched(acts: seq<Act>, globalCap: int, perKeyCap: int) {
    forall i :: 0 <= i < |acts| && acts[i].Return? ==>
      acts[i].key in InUse(acts, i, globalCap, perKeyCap)
  }

  /** Whatever the interleaving, the counters are those of the slots in use, and none is left when all are back. */
  method Replay(acts: seq<Act>, globalCap: int, perKeyCap: int) returns (slots: CountedSlots)
    requires 1 <= perKeyCap && 1 <= globalCap && Matched(acts, globalCap, perKeyCap)
    ensures fresh(slots) && slots.Valid()
    ensures slots.outstanding == InUse(acts, |acts|, globalCap, perKeyCap)
    ensures slots.global == |InUse(acts, |acts|, globalCap, perKeyCap)|
    ensures InUse(acts, |acts|, globalCap, perKeyCap) == multiset{} ==> slots.active == map[] && slots.global == 0
  {
    slots := new CountedSlots(globalCap, perKeyCap);
    for i := 0 to |acts|
      invariant fresh(slots) && slots.Valid() && slots.outstanding == InUse(acts, i, globalCap, perKeyCap)
      invariant slots.globalCap == globalCap && slots.perKeyCap == perKeyCap
    {
      Perform(slots, acts[i]);
    }
  }

  method Perform(slots: CountedSlots, act: Act)
    requires slots.Valid() && (act.Return? ==> act.key in slots.outstanding)
    modifies slots
    ensures slots.Valid()
    ensures slots.outstanding == After(old(slots.outstanding), act, slots.globalCap, slots.perKeyCap)
  {
    match act {
      case Attempt(key) => var ok := slots.Acquire(key);
      case Return(key) => slots.Release(key);
    }
  }
}
