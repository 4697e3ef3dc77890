// The completion scoreboard as it runs: a fixed array indexed by sequence modulo capacity,
// updated in place (flagcx/adaptor/net/net_transport.cc).

module Scoreboards {
  import opened Results
  import opened NetTransport

  /** The slot of a sequence. */
  function Index(s: nat, c: nat): (i: nat)
    requires c > 0
    ensures i < c
  {
    s % c
  }

  // ------------------------------------------------------------ the array read as a map

  /** The slots of a window that starts at `next`, by sequence number. */
  ghost function Slots(es: seq<Slot>, next: nat): (m: map<nat, Slot>)
    requires |es| > 0
  {
    map s | next <= s < next + |es| && !es[Index(s, |es|)].Free? && es[Index(s, |es|)].context.sequence == s
      :: es[Index(s, |es|)]
  }

  /** Every used slot holds a sequence of the window that belongs at its index. */
  ghost predicate Placed(es: seq<Slot>, next: nat)
    requires |es| > 0
  {
    forall i :: 0 <= i < |es| && !es[i].Free? ==>
      && next <= es[i].context.sequence < next + |es|
      && Index(es[i].context.sequence, |es|) == i
  }

  /** Two sequences of one window with the same slot index are equal. */
  lemma ModWindow(a: nat, b: nat, lo: nat, c: nat)
    requires c > 0 && lo <= a < lo + c && lo <= b < lo + c
    requires a % c == b % c
    ensures a == b
  {
    MultipleBelow(c, a / c - b / c, a - b);
  }

  lemma AddModulus(a: nat, c: nat)
    requires c > 0
    ensures (a + c) % c == a % c
  {
    MultipleBelow(c, (a + c) / c - (a / c + 1), a % c - (a + c) % c);
  }

  /** Inside the window, slot s % capacity is free exactly when s is untracked. */
  lemma SlotOf(es: seq<Slot>, next: nat, s: nat)
    requires |es| > 0 && Placed(es, next) && next <= s < next + |es|
    ensures s in Slots(es, next) <==> !es[Index(s, |es|)].Free?
    ensures s in Slots(es, next) ==> Slots(es, next)[s] == es[Index(s, |es|)]
  {
    if !es[Index(s, |es|)].Free? {
      ModWindow(es[Index(s, |es|)].context.sequence, s, next, |es|);
    }
  }

  lemma OtherSlots(next: nat, s: nat, c: nat)
    requires c > 0 && next <= s < next + c
    ensures forall t :: next <= t < next + c && t != s ==> t % c != s % c
  {
    forall t | next <= t < next + c && t != s ensures t % c != s % c {
      if t % c == s % c { ModWindow(t, s, next, c); }
    }
  }

  lemma OtherIndex(next: nat, s: nat, c: nat)
    requires c > 0 && next <= s < next + c
    ensures forall t :: next <= t < next + c && t != s ==> Index(t, c) != Index(s, c)
  {
    OtherSlots(next, s, c);
  }

  /** Writing the slot of s changes the map at s only. */
  lemma StoreSlot(es: seq<Slot>, next: nat, s: nat, slot: Slot)
    requires |es| > 0 && Placed(es, next) && next <= s < next + |es|
    requires !slot.Free? && slot.context.sequence == s
    ensures var es' := es[Index(s, |es|) := slot];
      && Placed(es', next)
      && Slots(es', next) == Slots(es, next)[s := slot]
      && |Slots(es', next)| == |Slots(es, next)| + (if s in Slots(es, next) then 0 else 1)
  {
    var es' := es[Index(s, |es|) := slot];
    OtherIndex(next, s, |es|);
    hide Index;
    assert Slots(es', next) == Slots(es, next)[s := slot];
    assert Slots(es, next)[s := slot].Keys == Slots(es, next).Keys + {s};
  }

  /** Freeing the slot of a tracked s removes s only. */
  lemma FreeSlot(es: seq<Slot>, next: nat, s: nat)
    requires |es| > 0 && Placed(es, next) && s in Slots(es, next)
    ensures var es' := es[Index(s, |es|) := Free];
      && Placed(es', next)
      && Slots(es', next) == Slots(es, next) - {s}
      && |Slots(es', next)| == |Slots(es, next)| - 1
  {
    var es' := es[Index(s, |es|) := Free];
    OtherIndex(next, s, |es|);
    hide Index;
    assert Slots(es', next) == Slots(es, next) - {s};
    assert (Slots(es, next) - {s}).Keys == Slots(es, next).Keys - {s};
  }

  /** Once its first slot is free, the window can slide by one. */
  lemma SlideWindow(es: seq<Slot>, next: nat)
    requires |es| > 0 && Placed(es, next) && es[Index(next, |es|)].Free?
    ensures Placed(es, next + 1) && Slots(es, next + 1) == Slots(es, next)
  {
    AddModulus(next, |es|);
  }

  lemma UnfoldAdvance(b: Board)
    requires b.next in b.entries && b.entries[b.next].Retired?
    ensures Advance(b) == Advance(b.(entries := b.entries - {b.next}, next := b.next + 1))
  {}

  lemma SlideKeepsOk(b: Board)
    requires BoardOk(b)
    ensures BoardOk(b.(entries := b.entries - {b.next}, next := b.next + 1))
  {}

  lemma AdvanceStops(b: Board)
    requires b.next in b.entries ==> !b.entries[b.next].Retired?
    ensures Advance(b) == b
  {}

  // ---------------------------------------------------------------------- the scoreboard

  class Scoreboard {
    const entries: array<Slot>
    const generation: nat
    var inFlight: nat
    var next: nat
    var firstError: Status
    var groups: map<nat, Group>

    ghost predicate Valid()
      reads this, entries
    {
      && entries.Length > 0
      && Placed(entries[..], next)
      && inFlight == |Slots(entries[..], next)|
      && BoardOk(View())
    }

    ghost function View(): (b: Board)
      requires entries.Length > 0
      reads this, entries
    {
      Board(entries.Length, generation, next, Slots(entries[..], next), firstError, groups)
    }

    constructor (capacity: nat, gen: nat, initialSequence: nat)
      requires capacity > 0
      ensures Valid() && fresh(entries)
      ensures View() == Board(capacity, gen, initialSequence, map[], Success, map[])
    {
      entries := new Slot[capacity](_ => Free);
      generation := gen;
      inFlight, next, firstError, groups := 0, initialSequence, Success, map[];
      new;
      assert Slots(entries[..], next) == map[];
    }

    /** Makes a group known before any of its members is tracked. */
    method AddGroup(groupId: nat)
      requires Valid() && groupId !in groups
      modifies this`groups
      ensures Valid()
      ensures View() == old(View()).(groups := old(groups)[groupId := NewGroup(generation)])
    {
      groups := groups[groupId := NewGroup(generation)];
    }

    method SealGroup(groupId: nat) returns (st: Status)
      requires Valid() && groupId in groups
      modifies this`groups
      ensures Valid()
      ensures st == GroupSeal(old(groups)[groupId]).1
      ensures View() == old(View()).(groups := old(groups)[groupId := GroupSeal(old(groups)[groupId]).0])
    {
      st := GroupSeal(groups[groupId]).1;
      groups := groups[groupId := GroupSeal(groups[groupId]).0];
    }

    method TrackSubmit(c: Context, grouped: bool) returns (st: Status)
      requires Valid()
      modifies this, entries
      ensures Valid()
      ensures (View(), st) == NetTransport.TrackSubmit(old(View()), c, grouped)
    {
      hide Slots, Placed;
      if c.sequence == UINT64_MAX { return InvalidArgument; }
      if c.generation != generation || c.sequence < next { return InvalidArgument; }
      if c.sequence - next >= entries.Length { return InProgress; }
      var i := c.sequence % entries.Length;
      SlotOf(entries[..], next, c.sequence);
      if !entries[i].Free? { return InvalidArgument; }
      if grouped != (c.groupId != 0) { return InvalidArgument; }
      if grouped {
        if c.groupId !in groups { return InvalidArgument; }
        var tracked := GroupTrack(groups[c.groupId], c);
        if tracked.1 != Success { return tracked.1; }
        groups := groups[c.groupId := tracked.0];
      }
      StoreSlot(entries[..], next, c.sequence, Pending(c, grouped));
      entries[i] := Pending(c, grouped);
      assert entries[..] == old(entries[..])[i := Pending(c, grouped)];
      inFlight := inFlight + 1;
      return Success;
    }

    method TrackCancel(c: Context) returns (st: Status)
      requires Valid()
      modifies this, entries
      ensures Valid()
      ensures (View(), st) == NetTransport.TrackCancel(old(View()), c)
    {
      hide Slots, Placed;
      if c.generation != generation || c.sequence < next || c.sequence - next >= entries.Length {
        return InvalidArgument;
      }
      var i := c.sequence % entries.Length;
      SlotOf(entries[..], next, c.sequence);
      if !entries[i].Pending? || entries[i].context != c { return InvalidArgument; }
      if entries[i].grouped {
        var g := groups[c.groupId];
        if g.state != Open || g.pending == 0 || g.members == 0 { return InvalidArgument; }
        groups := groups[c.groupId := g.(pending := g.pending - 1, members := g.members - 1)];
      }
      FreeSlot(entries[..], next, c.sequence);
      entries[i] := Free;
      assert entries[..] == old(entries[..])[i := Free];
      inFlight := inFlight - 1;
      return Success;
    }

    /** `advanced` is how far the published prefix moved. */
    method TrackCompletion(c: Context, result: Status) returns (st: Status, advanced: nat)
      requires Valid()
      modifies this, entries
      ensures Valid()
      ensures (View(), st) == NetTransport.TrackCompletion(old(View()), c, result)
      ensures next == old(next) + advanced
    {
      hide Slots, Placed;
      advanced := 0;
      if c.generation != generation || c.sequence < next || c.sequence - next >= entries.Length {
        return InvalidArgument, 0;
      }
      var i := c.sequence % entries.Length;
      SlotOf(entries[..], next, c.sequence);
      if !entries[i].Pending? || entries[i].context != c { return InvalidArgument, 0; }
      if result == InProgress { return Success, 0; }
      if entries[i].grouped {
        var done := GroupComplete(groups[c.groupId], result);
        if done.1 != Success { return done.1, 0; }
        groups := groups[c.groupId := done.0];
      }
      MarkEntry(c, result);
      advanced := PublishPrefix();
      return Success, advanced;
    }

    /** A pending entry becomes a retired one, and the first error is kept. */
    method MarkEntry(c: Context, result: Status)
      requires Valid() && Tracks(View(), c)
      modifies this`firstError, entries
      ensures Valid() && View() == MarkRetired(old(View()), c, result)
    {
      hide Slots, Placed;
      var i := c.sequence % entries.Length;
      SlotOf(entries[..], next, c.sequence);
      var slot := Retired(c, entries[i].grouped, result);
      StoreSlot(entries[..], next, c.sequence, slot);
      if result != Success && firstError == Success { firstError := result; }
      entries[i] := slot;
      assert entries[..] == old(entries[..])[i := slot];
    }

    /** The retired entry at the head leaves, and the window slides by one. */
    method SlideOne()
      requires Valid() && next in View().entries && View().entries[next].Retired?
      modifies this`inFlight, this`next, entries
      ensures Valid() && next == old(next) + 1 && inFlight == old(inFlight) - 1
      ensures Advance(View()) == Advance(old(View()))
    {
      hide Slots, Placed, Advance, BoardOk;
      var head := next % entries.Length;
      SlideKeepsOk(View());
      SlotOf(entries[..], next, next);
      UnfoldAdvance(View());
      FreeSlot(entries[..], next, next);
      ghost var es := entries[..];
      entries[head] := Free;
      assert entries[..] == es[head := Free];
      SlideWindow(entries[..], next);
      inFlight, next := inFlight - 1, next + 1;
    }

    /** Slides the window over the contiguous retired prefix. */
    method PublishPrefix() returns (advanced: nat)
      requires Valid()
      modifies this`inFlight, this`next, entries
      ensures Valid()
      ensures View() == Advance(old(View()))
      ensures next == old(next) + advanced
    {
      hide Slots, Placed, Advance;
      advanced := 0;
      while inFlight != 0
        invariant Valid()
        invariant Advance(View()) == Advance(old(View()))
        invariant next == old(next) + advanced
        decreases inFlight
      {
        var head := next % entries.Length;
        SlotOf(entries[..], next, next);
        if !entries[head].Retired? || entries[head].context.generation != generation
           || entries[head].context.sequence != next {
          break;
        }
        SlideOne();
        advanced := advanced + 1;
      }
      AdvanceStops(View());
    }

    method Query() returns (nextSequence: nat, live: nat, first: Status)
      requires Valid()
      ensures nextSequence == View().next && live == |View().entries| && first == View().firstError
    {
      return next, inFlight, firstError;
    }
  }
}
