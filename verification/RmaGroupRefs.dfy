// Reference counts of the release group (flagcx/core/flagcx_hetero.cc): the API call that creates the
// group holds one reference, every descriptor that refers to it holds one, and whoever drops the
// last one frees it.

module RmaGroupRefs {
  import opened Results

  /** Holder 0 is the creating call, holder i > 0 the i-th descriptor. */
  const CREATOR: nat := 0

  class ReleaseGroup {
    var refs: nat
    /** How often the memory was freed. */
    var frees: nat
    ghost var holders: set<nat>

    ghost predicate Valid()
      reads this
    {
      && refs == |holders|
      && frees == (if holders == {} then 1 else 0)
    }

    constructor ()
      ensures Valid() && holders == {CREATOR} && frees == 0
    {
      refs, frees, holders := 1, 0, {CREATOR};
    }

    /** flagcxRmaReleaseGroupRetain, from a thread that itself holds a reference. */
    method Retain(h: nat)
      requires Valid() && holders != {} && h !in holders
      modifies this
      ensures Valid() && holders == old(holders) + {h} && frees == 0
    {
      refs := refs + 1;
      holders := holders + {h};
    }

    /** flagcxRmaReleaseGroupRelease: an atomic decrement; the thread that reaches zero frees. */
    method Release(h: nat)
      requires Valid() && h in holders
      modifies this
      ensures Valid() && holders == old(holders) - {h}
      ensures frees == (if old(holders) == {h} then 1 else 0)
    {
      refs := refs - 1;
      holders := holders - {h};
      if refs == 0 { frees := frees + 1; }
    }

    /** Attaches the data descriptors; stops at the first one that cannot be allocated. */
    method AttachData(count: nat, available: nat) returns (attached: nat, st: Status)
      requires Valid() && holders == Range(0, 2) && available <= count
      modifies this
      ensures Valid() && frees == 0
      ensures attached == available && holders == Range(0, attached + 2)
      ensures st == if available == count then Success else SystemError
    {
      attached, st := 0, Success;
      while attached < count
        invariant attached <= available && Valid() && holders == Range(0, attached + 2)
      {
        if attached == available { return attached, SystemError; }
        Retain(attached + 2);
        attached := attached + 1;
      }
    }

    /** flagcxRmaDescDestroy on every attached data descriptor. */
    method DestroyData(attached: nat)
      requires Valid() && holders == Range(0, attached + 2)
      modifies this
      ensures Valid() && holders == Range(0, 2) && frees == 0
    {
      hide Range;
      var j := 0;
      while j < attached
        invariant 0 <= j <= attached && Valid()
        invariant forall h: nat :: h in holders <==> h < 2 || j + 2 <= h < attached + 2
      {
        Release(j + 2);
        j := j + 1;
      }
      assert CREATOR in holders && holders == Range(0, 2);
    }

    /** flagcxHeteroBatchPutSignal after its first allocations: attaches the release and the data
        descriptors, enqueues them all or destroys them all, and drops the creating reference.
        `available` is how many data descriptors can be allocated. */
    method PutSignal(count: nat, available: nat, init: Status, enqueued: Status) returns (st: Status)
      requires Valid() && holders == {CREATOR} && available <= count
      modifies this
      ensures Valid()
      ensures st == Success <==> init == Success && available == count && enqueued == Success
      ensures st == Success ==> holders == Range(1, count + 1) && frees == 0
      ensures st != Success ==> holders == {} && frees == 1
    {
      hide Range;
      Retain(1);
      assert holders == Range(0, 2);
      var attached := 0;
      st := init;
      if st == Success { attached, st := AttachData(count, available); }
      if st == Success { st := enqueued; }
      if st != Success {
        DestroyData(attached);
        Release(1);
      }
      Release(CREATOR);
    }
  }

  /** Whatever the order in which the holders let go, the group is freed exactly once, by the last
      one, and not before. */
  method ReleaseInAnyOrder(group: ReleaseGroup, order: seq<nat>)
    requires group.Valid() && group.holders != {}
    requires forall h :: h in order <==> h in group.holders
    requires forall i, j :: 0 <= i < j < |order| ==> order[i] != order[j]
    modifies group
    ensures group.Valid() && group.holders == {} && group.frees == 1
  {
    var i := 0;
    while i < |order|
      invariant 0 <= i <= |order| && group.Valid()
      invariant forall h :: h in group.holders <==> h in order[i..]
      invariant i < |order| ==> group.frees == 0
    {
      assert order[i] in order[i..];
      group.Release(order[i]);
      assert order[i..] == [order[i]] + order[i + 1..];
      i := i + 1;
      if i < |order| { assert order[i] in order[i..]; }
    }
  }
}
