// The producer ring as it runs: wrapped 32-bit indices into a fixed array, sequence numbers and
// the scoreboard, updated in place under the producer mutex (flagcx/core/flagcx_hetero.cc). Every
// method is one attempt; InProgress means that the caller releases the mutex and tries again.

module RmaRing {
  import opened Results
  import opened NetTransport
  import opened RmaIndex
  import opened RmaPeer
  import Scoreboards
  import RmaAccept

  /** A power of two from 2 to 2^31: what flagcxHeteroRmaProxyStart accepts. */
  predicate ValidSize(queueSize: nat) { 2 <= queueSize <= UINT32_MAX / 2 && WRAP % queueSize == 0 }

  // -------------------------------------------------------------------- wrapped indices

  /** The index mask sees the unwrapped index. */
  lemma MaskOfWrapped(i: nat, queueSize: nat)
    requires ValidSize(queueSize)
    ensures (i % WRAP) % queueSize == i % queueSize
  {
    var m := WRAP / queueSize;
    assert WRAP == m * queueSize;
    assert i == (i / WRAP) * WRAP + i % WRAP;
    MultipleAway(i % WRAP, (i / WRAP) * m, queueSize);
    assert (i / WRAP) * m * queueSize == (i / WRAP) * WRAP;
  }

  lemma {:induction false} MultipleAway(r: nat, k: nat, q: nat)
    requires q > 0
    ensures (r + k * q) % q == r % q
    decreases k
  {
    if k > 0 {
      MultipleAway(r, k - 1, q);
      Scoreboards.AddModulus(r + (k - 1) * q, q);
      assert r + k * q == r + (k - 1) * q + q;
    }
  }

  // --------------------------------------------------------------------- board lemmas

  lemma TrackKeepsOk(b: Board, c: Context, grouped: bool)
    requires BoardOk(b)
    ensures BoardOk(TrackSubmit(b, c, grouped).0)
  {}

  lemma {:induction false} TrackAllKeepsOk(b: Board, ds: seq<Desc>)
    requires BoardOk(b)
    ensures BoardOk(TrackAll(b, ds).0) && TrackAll(b, ds).0.generation == b.generation
    decreases |ds|
  {
    if ds != [] {
      hide BoardOk;
      TrackAllKeepsOk(b, ds[..|ds| - 1]);
      TrackKeepsOk(TrackAll(b, ds[..|ds| - 1]).0, ContextOf(ds[|ds| - 1]), Member(ds[|ds| - 1]));
    }
  }

  /** The first refusal decides the whole run. */
  lemma {:induction false} FirstRefusalDecides(b: Board, ds: seq<Desc>, k: nat)
    requires k < |ds| && TrackAll(b, ds[..k]).1 == Success
    requires TrackSubmit(TrackAll(b, ds[..k]).0, ContextOf(ds[k]), Member(ds[k])).1 != Success
    ensures TrackAll(b, ds).1 == TrackSubmit(TrackAll(b, ds[..k]).0, ContextOf(ds[k]), Member(ds[k])).1
    decreases |ds|
  {
    var n := |ds| - 1;
    if k < n {
      assert ds[..n][..k] == ds[..k];
      FirstRefusalDecides(b, ds[..n], k);
    }
  }

  lemma TrackOneMore(b: Board, ds: seq<Desc>, k: nat)
    requires k < |ds|
    ensures TrackAll(b, ds[..k + 1]) ==
      if TrackAll(b, ds[..k]).1 != Success then TrackAll(b, ds[..k])
      else TrackSubmit(TrackAll(b, ds[..k]).0, ContextOf(ds[k]), Member(ds[k]))
  {
    assert ds[..k + 1][..k] == ds[..k];
  }

  // --------------------------------------------------------------------------- the ring

  /** The array holds the ring entries from index `consumed` on. */
  ghost predicate Holds(a: seq<Desc>, consumed: nat, ring: seq<Desc>) {
    |a| > 0 && |ring| <= |a| && forall k :: 0 <= k < |ring| ==> a[(consumed + k) % |a|] == ring[k]
  }

  lemma StoreHolds(a: seq<Desc>, consumed: nat, ring: seq<Desc>, d: Desc)
    requires Holds(a, consumed, ring) && |ring| < |a|
    ensures Holds(a[(consumed + |ring|) % |a| := d], consumed, ring + [d])
  {
    Scoreboards.OtherSlots(consumed, consumed + |ring|, |a|);
  }

  lemma TakeHolds(a: seq<Desc>, consumed: nat, ring: seq<Desc>)
    requires Holds(a, consumed, ring) && ring != []
    ensures a[consumed % |a|] == ring[0] && Holds(a, consumed + 1, ring[1..])
  {
    assert a[(consumed + 0) % |a|] == ring[0];
    forall k | 0 <= k < |ring| - 1 ensures a[(consumed + 1 + k) % |a|] == ring[1..][k] {
      assert a[(consumed + (k + 1)) % |a|] == ring[k + 1];
      assert consumed + (k + 1) == consumed + 1 + k;
    }
  }

  class Ring {
    const queueSize: nat
    const slots: array<Desc>
    const board: Scoreboards.Scoreboard
    var pi: nat
    var ci: nat
    var opSeq: nat
    var done: nat
    var completions: nat
    ghost var peer: Peer

    /** The ring proper; a producer changes the sequence number and the board first. */
    ghost predicate RingOk()
      reads this, slots
    {
      && ValidSize(queueSize) && slots.Length == queueSize
      && peer.queueSize == queueSize
      && |peer.ring| <= queueSize && |peer.ring| <= peer.opSeq
      && pi == peer.opSeq % WRAP
      && ci == (peer.opSeq - |peer.ring|) % WRAP
      && Holds(slots[..], peer.opSeq - |peer.ring|, peer.ring)
      && done == peer.done && completions == peer.completions
    }

    ghost predicate Valid()
      reads this, slots, board, board.entries
    {
      && RingOk()
      && board.Valid() && board.generation == GENERATION
      && opSeq == peer.opSeq && board.View() == peer.board
    }

    constructor (size: nat)
      requires ValidSize(size)
      ensures Valid() && peer == NewPeer(size)
      ensures fresh(slots) && fresh(board) && fresh(board.entries)
    {
      queueSize := size;
      slots := new Desc[size](_ => Desc(Put, 0, 0, 0, 0, false, false, false));
      board := new Scoreboards.Scoreboard(2 * size, GENERATION, 1);
      pi, ci, opSeq, done, completions := 0, 0, 0, 0, 0;
      peer := NewPeer(size);
    }

    /** How many entries the ring holds, from the wrapped indices. */
    method Used() returns (n: nat)
      requires RingOk()
      ensures n == |peer.ring|
    {
      WrappedDistance(peer.opSeq - |peer.ring|, |peer.ring|);
      n := (pi - ci) % WRAP;
    }

    /** flagcxRmaProxyCircularBufFull. */
    method Full() returns (full: bool)
      requires RingOk()
      ensures full == (|peer.ring| >= queueSize)
    {
      var n := Used();
      full := n >= queueSize;
    }

    /** The rollback loop: cancels the newest tracked descriptors one after the other. */
    method Rollback(run: seq<Desc>, ghost b: Board)
      requires board.Valid() && board.generation == GENERATION && opSeq >= |run|
      requires BoardOk(b) && b.generation == GENERATION
      requires TrackAll(b, run) == (board.View(), Success)
      modifies this`opSeq, board, board.entries
      ensures board.Valid() && board.View() == b && opSeq == old(opSeq) - |run|
    {
      hide BoardOk, TrackCancel, TrackSubmit, Scoreboards.Slots, Scoreboards.Placed;
      var n := |run|;
      assert run[..n] == run;
      while n != 0
        invariant 0 <= n <= |run| && opSeq == old(opSeq) - (|run| - n)
        invariant board.Valid() && TrackAll(b, run[..n]) == (board.View(), Success)
      {
        n := n - 1;
        TrackOneMore(b, run, n);
        TrackAllKeepsOk(b, run[..n]);
        RmaAccept.CancelUndoesTrack(TrackAll(b, run[..n]).0, run[n]);
        var st := board.TrackCancel(ContextOf(run[n]));
        opSeq := opSeq - 1;
      }
      assert run[..0] == [];
    }

    /** Stamps and tracks a run of descriptors; on a refusal nothing stays tracked. */
    method TrackRun(ds: seq<Desc>) returns (run: seq<Desc>, st: Status)
      requires Valid()
      modifies this`opSeq, board, board.entries
      ensures board.Valid()
      ensures st == TrackAll(peer.board, Stamp(ds, old(opSeq))).1
      ensures st == Success ==>
        run == Stamp(ds, old(opSeq)) && opSeq == old(opSeq) + |ds|
        && board.View() == TrackAll(peer.board, run).0
      ensures st != Success ==> opSeq == old(opSeq) && board.View() == peer.board
    {
      hide BoardOk, TrackCancel, TrackSubmit, Scoreboards.Slots, Scoreboards.Placed, RingOk;
      ghost var b := peer.board;
      ghost var all := Stamp(ds, opSeq);
      var prepared := 0;
      run, st := [], Success;
      while prepared < |ds|
        invariant 0 <= prepared <= |ds| && opSeq == old(opSeq) + prepared
        invariant run == all[..prepared]
        invariant board.Valid() && TrackAll(b, all[..prepared]) == (board.View(), Success)
        invariant st == Success
      {
        opSeq := opSeq + 1;
        var d := ds[prepared].(opSeq := opSeq);
        TrackOneMore(b, all, prepared);
        st := board.TrackSubmit(ContextOf(d), Member(d));
        if st != Success {
          opSeq := opSeq - 1;
          FirstRefusalDecides(b, all, prepared);
          RefusedUnchanged(TrackAll(b, all[..prepared]).0, ContextOf(d), Member(d));
          Rollback(run, b);
          return;
        }
        run := run + [d];
        prepared := prepared + 1;
      }
      assert all[..|ds|] == all;
    }

    /** The store loop: writes the run behind the last entry. */
    method Store(run: seq<Desc>)
      requires RingOk() && |peer.ring| + |run| <= queueSize
      modifies slots
      ensures Holds(slots[..], peer.opSeq - |peer.ring|, peer.ring + run)
    {
      ghost var c := peer.opSeq - |peer.ring|;
      var i := 0;
      assert peer.ring + run[..0] == peer.ring;
      while i < |run|
        invariant 0 <= i <= |run|
        invariant Holds(slots[..], c, peer.ring + run[..i])
      {
        MaskOfWrapped(peer.opSeq + i, queueSize);
        NextIndex(peer.opSeq, i);
        StoreHolds(slots[..], c, peer.ring + run[..i], run[i]);
        var index := ((pi + i) % WRAP) % queueSize;
        ghost var a := slots[..];
        slots[index] := run[i];
        assert slots[..] == a[index := run[i]];
        assert peer.ring + run[..i] + [run[i]] == peer.ring + run[..i + 1];
        i := i + 1;
      }
      assert run[..|run|] == run;
    }

    /** One attempt of flagcxRmaProxyEnqueueDescBatch. */
    method EnqueueBatch(ds: seq<Desc>) returns (st: Status)
      requires Valid()
      modifies this, slots, board, board.entries
      ensures Valid() && (peer, st) == RmaPeer.EnqueueBatch(old(peer), ds)
    {
      hide TrackAll, Holds, Scoreboards.Slots, Scoreboards.Placed, BoardOk;
      if ds == [] { return Success; }
      if |ds| > queueSize { return InvalidArgument; }
      var used := Used();
      if queueSize - used < |ds| { return InProgress; }
      var run;
      run, st := TrackRun(ds);
      if st != Success { return; }
      Publish(run);
    }

    /** Makes a tracked run visible to the progress thread. */
    method Publish(run: seq<Desc>)
      requires RingOk() && board.Valid() && board.generation == GENERATION
      requires |peer.ring| + |run| <= queueSize && opSeq == peer.opSeq + |run|
      modifies this`pi, this`peer, slots
      ensures Valid() && peer == Accept(old(peer), run, board.View())
    {
      hide Holds, Scoreboards.Slots, Scoreboards.Placed, BoardOk;
      Store(run);
      NextIndex(peer.opSeq, |run|);
      pi := (pi + |run|) % WRAP;
      peer := Accept(peer, run, board.View());
    }

    /** A new release group, before anything is enqueued for it. */
    method OpenGroup(groupId: nat)
      requires Valid() && groupId !in peer.board.groups
      modifies this`peer, board`groups
      ensures Valid() && peer == InitGroup(old(peer), groupId)
    {
      hide Holds, Scoreboards.Slots, Scoreboards.Placed, BoardOk;
      board.AddGroup(groupId);
      peer := InitGroup(peer, groupId);
    }

    /** One attempt of flagcxRmaProxyEnqueueDesc: the full test comes before the tracking. */
    method Enqueue(d: Desc) returns (st: Status)
      requires Valid()
      modifies this, slots, board, board.entries
      ensures Valid() && (peer, st) == RmaPeer.EnqueueBatch(old(peer), [d])
    {
      hide TrackAll, Holds, Scoreboards.Slots, Scoreboards.Placed, BoardOk;
      var full := Full();
      if full { return InProgress; }
      var run;
      run, st := TrackRun([d]);
      if st != Success { return; }
      Publish(run);
    }

    /** One attempt of flagcxRmaProxyEnqueueReleaseGroup. */
    method EnqueueReleaseGroup(data: seq<Desc>, release: Desc) returns (st: Status)
      requires Valid() && release.group in board.groups
      modifies this, slots, board, board.entries
      ensures Valid() && (peer, st) == RmaPeer.EnqueueReleaseGroup(old(peer), data, release)
    {
      hide TrackAll, Holds, Scoreboards.Slots, Scoreboards.Placed;
      if |data| >= queueSize { return InvalidArgument; }
      var used := Used();
      if queueSize - used < |data| + 1 { return InProgress; }
      var run;
      assert BoardOk(peer.board);
      run, st := TrackRun(data + [release]);
      if st != Success { return; }
      TrackAllKeepsGroups(peer.board, run);
      st := board.SealGroup(release.group);
      if st != Success {
        SealRefused(TrackAll(peer.board, run).0, release.group);
        Rollback(run, peer.board);
        return;
      }
      Publish(run);
    }

    /** flagcxRmaProxyCompleteDesc and flagcxRmaProxyPublishScoreboard; `raise` is whether a
        pending error is recorded. */
    method CompleteDesc(d: Desc, result: Status) returns (raise: bool)
      requires Valid()
      modifies this`done, this`completions, this`peer, board, board.entries
      ensures Valid() && (peer, raise) == Retire(old(peer), d, result)
    {
      hide TrackCompletion, Holds, Scoreboards.Slots, Scoreboards.Placed, BoardOk, Retire;
      RetireByParts(peer, d, result);
      var st, advanced := board.TrackCompletion(ContextOf(d), result);
      raise := st != Success;
      var next, live, first := board.Query();
      if next > 0 && next - 1 > done { done := next - 1; }
      if result == Success && CompletesApiOperation(d) { completions := completions + 1; }
      if first != Success { raise := true; }
      if result != Success { raise := true; }
      peer := Retire(peer, d, result).0;
    }

    /** Consumes the ring head. */
    method TakeHead() returns (d: Desc)
      requires Valid() && peer.ring != []
      modifies this`ci, this`peer
      ensures Valid() && d == old(peer).ring[0]
      ensures peer == old(peer).(ring := old(peer).ring[1..])
    {
      hide Holds, Scoreboards.Slots, Scoreboards.Placed, BoardOk;
      ghost var c := peer.opSeq - |peer.ring|;
      MaskOfWrapped(c, queueSize);
      TakeHolds(slots[..], c, peer.ring);
      NextIndex(c, 1);
      d := slots[ci % queueSize];
      ci := (ci + 1) % WRAP;
      peer := peer.(ring := peer.ring[1..]);
    }

    /** flagcxRmaProxyDrainRing: retires the entries with an error until the ring looks empty. */
    method DrainRing()
      requires Valid()
      modifies this`ci, this`done, this`completions, this`peer, board, board.entries
      ensures Valid() && peer == RmaPeer.DrainRing(old(peer))
    {
      hide Holds, Scoreboards.Slots, Scoreboards.Placed, BoardOk, RmaPeer.DrainRing, Retire;
      while !EmptyTest(ci, pi)
        invariant Valid() && RmaPeer.DrainRing(peer) == RmaPeer.DrainRing(old(peer))
        decreases |peer.ring|
      {
        UnfoldDrain(peer);
        var d := TakeHead();
        ghost var p := peer;
        var raise := CompleteDesc(d, RemoteError);
        RetireKeepsRing(p, d, RemoteError);
      }
      UnfoldDrain(peer);
    }
  }

  lemma UnfoldDrain(p: Peer)
    ensures !LooksEmpty(p) ==>
      p.ring != []
      && RmaPeer.DrainRing(p) == RmaPeer.DrainRing(Retire(p.(ring := p.ring[1..]), p.ring[0], RemoteError).0)
    ensures LooksEmpty(p) ==> RmaPeer.DrainRing(p) == p
  {
    hide Retire;
  }

  lemma RetireByParts(p: Peer, d: Desc, result: Status)
    ensures var (b, st) := TrackCompletion(p.board, ContextOf(d), result);
      var (q, raise) := Retire(p, d, result);
      && q.board == b && q.ring == p.ring && q.opSeq == p.opSeq && q.queueSize == p.queueSize
      && q.done == (if b.next > 0 && b.next - 1 > p.done then b.next - 1 else p.done)
      && q.completions == p.completions + (if result == Success && CompletesApiOperation(d) then 1 else 0)
      && raise == (st != Success || b.firstError != Success || result != Success)
  {
    hide TrackCompletion;
  }

  lemma RetireKeepsRing(p: Peer, d: Desc, result: Status)
    ensures var q := Retire(p, d, result).0;
      q.ring == p.ring && q.opSeq == p.opSeq && q.queueSize == p.queueSize
  {}

  lemma RefusedUnchanged(b: Board, c: Context, grouped: bool)
    requires TrackSubmit(b, c, grouped).1 != Success
    ensures TrackSubmit(b, c, grouped).0 == b
  {}

  lemma {:induction false} TrackAllKeepsGroups(b: Board, ds: seq<Desc>)
    ensures TrackAll(b, ds).0.groups.Keys == b.groups.Keys
    decreases |ds|
  {
    if ds != [] { TrackAllKeepsGroups(b, ds[..|ds| - 1]); }
  }

  lemma SealRefused(b: Board, g: nat)
    requires g in b.groups && GroupSeal(b.groups[g]).1 != Success
    ensures b.(groups := b.groups[g := GroupSeal(b.groups[g]).0]) == b
  {
    assert b.groups[g := b.groups[g]] == b.groups;
  }
}
