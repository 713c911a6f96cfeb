/** sync/crdt.py: the grow-only counter, the simple specification the Redis merge is held against. */
module GCounters {
  import opened Sums
  import opened Wrappers

  // A slot that is absent reads as 0.
  function Get(slots: map<string, int>, region: string): int {
    if region in slots then slots[region] else 0
  }

  /** The slots after merging `other`: only strictly larger values are stored, so a 0 never is. */
  function Merged(slots: map<string, int>, other: map<string, int>): map<string, int> {
    slots + map r | r in other && other[r] > Get(slots, r) :: other[r]
  }

  class GCounter {
    const region: string
    var slots: map<string, int>

    constructor (region: string)
      ensures this.region == region && slots == map[]
    {
      this.region := region;
      slots := map[];
    }

    constructor FromSlots(region: string, slots: map<string, int>)
      ensures this.region == region && this.slots == slots
    {
      this.region := region;
      this.slots := slots;
    }

    // Returns false, changing nothing, where the source raises ValueError.
    method Increment(n: int) returns (ok: bool)
      modifies this
      ensures ok <==> n >= 0
      ensures !ok ==> slots == old(slots)
      ensures ok ==> Get(slots, region) == Get(old(slots), region) + n
      ensures ok ==> slots.Keys == old(slots).Keys + {region}
      ensures ok ==> Sum(slots) == Sum(old(slots)) + n
      ensures forall r | r != region :: Get(slots, r) == Get(old(slots), r)
    {
      if n < 0 {
        return false;
      }
      SumUpdate(slots, region, Get(slots, region) + n);
      slots := slots[region := Get(slots, region) + n];
      return true;
    }

    // The loop visits the items in an arbitrary order.
    method Merge(other: map<string, int>)
      modifies this
      ensures slots == Merged(old(slots), other)
    {
      ghost var was, goal := slots, Merged(slots, other);
      var rest := other.Keys;
      while rest != {}
        invariant rest <= other.Keys
        invariant forall r | r in rest :: Get(slots, r) == Get(was, r) && (r in slots <==> r in was)
        invariant forall r | r !in rest :: r in slots <==> r in goal
        invariant forall r | r !in rest && r in goal :: slots[r] == goal[r]
        decreases rest
      {
        var r :| r in rest;
        var value, cur := other[r], Get(slots, r);
        if value > cur {
          slots := slots[r := value];
        }
        rest := rest - {r};
      }
    }

    method Value() returns (total: int)
      ensures total == Sum(slots)
    {
      total := 0;
      var rest := slots;
      while rest != map[]
        invariant Sum(slots) == total + Sum(rest)
        decreases |rest|
      {
        var r :| r in rest;
        SumRemove(rest, r);
        total := total + rest[r];
        rest := rest - {r};
      }
    }
  }

  /** Merging is the pointwise maximum when absent is read as 0. */
  lemma MergedIsMax(slots: map<string, int>, other: map<string, int>, r: string)
    ensures Get(Merged(slots, other), r) == if r in other then Max(Get(slots, r), other[r]) else Get(slots, r)
  {
  }

  /** Merging is idempotent, and commutative as maps; neither is lost by the rule that skips zeros. */
  lemma MergeIdempotentCommutative(s: map<string, int>, a: map<string, int>, b: map<string, int>)
    ensures Merged(Merged(s, a), a) == Merged(s, a)
    ensures Merged(Merged(s, a), b) == Merged(Merged(s, b), a)
  {
    MergeCommutes(s, a, b);
  }

  lemma MergeCommutes(s: map<string, int>, a: map<string, int>, b: map<string, int>)
    ensures Merged(Merged(s, a), b) == Merged(Merged(s, b), a)
  {
    var ab, ba := Merged(Merged(s, a), b), Merged(Merged(s, b), a);
    forall r
      ensures r in ab <==> r in ba
      ensures r in ab ==> ab[r] == ba[r]
    {
      MergeOrder(s, a, b, r);
    }
  }

  lemma MergeOrder(s: map<string, int>, a: map<string, int>, b: map<string, int>, r: string)
    ensures r in Merged(Merged(s, a), b) <==> r in Merged(Merged(s, b), a)
    ensures Get(Merged(Merged(s, a), b), r) == Get(Merged(Merged(s, b), a), r)
  {
    MergedIsMax(s, a, r);
    MergedIsMax(Merged(s, a), b, r);
    MergedIsMax(s, b, r);
    MergedIsMax(Merged(s, b), a, r);
  }

  /** A merge never lowers the value of the counter, and never moves a slot down. */
  lemma MergeGrows(s: map<string, int>, other: map<string, int>)
    requires forall r | r in s :: s[r] >= 0
    ensures forall r :: Get(Merged(s, other), r) >= Get(s, r)
    ensures Sum(Merged(s, other)) >= Sum(s)
  {
    var t := Merged(s, other);
    assert forall r | r in t :: t[r] >= 0;
    SumMonotone(s, t);
  }
}
