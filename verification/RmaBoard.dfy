// What every step keeps about one peer's scoreboard and release groups: the board is determined
// by which descriptors were accepted and how they were retired.

module RmaBoard {
  import opened Results
  import opened NetTransport
  import opened RmaPeer

  /** Retired for the scoreboard. A descriptor whose completion result is InProgress leaves the
      proxy but not the board: flagcxNetTrackCompletion ignores that result. */
  predicate IsSettled(p: Peer, s: nat) { s in p.retired && p.retired[s] != InProgress }

  ghost predicate InvAccepted(p: Peer) {
    && |p.accepted| == p.opSeq < UINT64_MAX
    && (forall k :: 0 <= k < p.opSeq ==> p.accepted[k].opSeq == k + 1 && WellFormed(p.accepted[k]))
  }

  /** Slot of an accepted descriptor. */
  ghost predicate SlotMatches(p: Peer, s: nat)
    requires |p.accepted| == p.opSeq && 1 <= s <= p.opSeq && s in p.board.entries
  {
    var slot := p.board.entries[s];
    && !slot.Free?
    && slot.context == ContextOf(p.accepted[s - 1])
    && slot.grouped == Member(p.accepted[s - 1])
    && (slot.Retired? <==> IsSettled(p, s))
  }

  ghost predicate InvBoard(p: Peer) {
    && InvAccepted(p)
    && 2 <= p.queueSize <= UINT32_MAX / 2 && p.board.capacity == 2 * p.queueSize
    && p.board.generation == GENERATION
    && 1 <= p.board.next <= p.opSeq + 1
    && p.opSeq < p.board.next + p.board.capacity
    && (forall s :: s in p.board.entries <==> p.board.next <= s <= p.opSeq)
    && (forall s :: p.board.next <= s <= p.opSeq ==> SlotMatches(p, s))
    && (forall s :: 1 <= s < p.board.next ==> IsSettled(p, s))
    && !IsSettled(p, p.board.next)
    && p.done == p.board.next - 1
    && (forall s <- p.retired :: 1 <= s <= p.opSeq)
    && (p.board.firstError == Success <==>
        forall s :: s in p.retired ==> p.retired[s] == Success || p.retired[s] == InProgress)
  }

  // --------------------------------------------------------------------- groups

  /** Data members of group g. */
  ghost function Members(p: Peer, g: nat): set<nat> {
    set k | 0 <= k < |p.accepted| && Member(p.accepted[k]) && p.accepted[k].group == g :: k + 1
  }

  ghost function OpenMembers(p: Peer, g: nat): set<nat> {
    set s | s in Members(p, g) && !IsSettled(p, s)
  }

  ghost predicate GroupMatches(p: Peer, g: nat)
    requires g in p.board.groups
  {
    var G := p.board.groups[g];
    && G.generation == GENERATION
    && G.pending == |OpenMembers(p, g)|
    && (G.state == Open ==> G == NewGroup(GENERATION) && Members(p, g) == {})
    && (G.state == Sealed ==> G.pending > 0)
    && (G.state == Complete ==> G.pending == 0 && G.releaseAllowed == (G.firstError == Success))
    && (G.firstError == Success <==>
        forall s :: s in Members(p, g) && IsSettled(p, s) ==> p.retired[s] == Success)
  }

  ghost predicate InvGroups(p: Peer) {
    && 0 !in p.board.groups
    && (forall g :: g in p.board.groups ==> GroupMatches(p, g))
    && (forall k :: 0 <= k < |p.accepted| && p.accepted[k].group != 0 ==>
          p.accepted[k].group in p.board.groups && p.board.groups[p.accepted[k].group].state != Open)
  }

  // ------------------------------------------------------------------ the published prefix

  /** Advance publishes exactly the contiguous retired prefix and leaves the rest alone. */
  lemma {:induction false} AdvanceExact(b: Board, hi: nat)
    requires b.next <= hi + 1
    requires forall s :: s in b.entries <==> b.next <= s <= hi
    ensures var r := Advance(b);
      && r == b.(next := r.next, entries := r.entries)
      && b.next <= r.next <= hi + 1
      && (forall s :: s in r.entries <==> r.next <= s <= hi)
      && (forall s :: r.next <= s <= hi ==> r.entries[s] == b.entries[s])
      && (forall s :: b.next <= s < r.next ==> s in b.entries && b.entries[s].Retired?)
      && (r.next <= hi ==> !b.entries[r.next].Retired?)
    decreases hi + 1 - b.next
  {
    if b.next in b.entries && b.entries[b.next].Retired? {
      var b1 := b.(entries := b.entries - {b.next}, next := b.next + 1);
      AdvanceExact(b1, hi);
      assert Advance(b) == Advance(b1);
      forall s | b.next <= s < Advance(b).next ensures s in b.entries && b.entries[s].Retired? {
        if s != b.next { assert s in b1.entries && b1.entries[s] == b.entries[s]; }
      }
    }
  }

  // ----------------------------------------------------------------------- retirement

  lemma OpenMembersShrink(p: Peer, q: Peer, s: nat, g: nat)
    requires q.accepted == p.accepted
    requires forall t :: t != s ==> (IsSettled(q, t) <==> IsSettled(p, t))
    requires !IsSettled(p, s) && IsSettled(q, s)
    ensures s in Members(p, g) ==> |OpenMembers(q, g)| == |OpenMembers(p, g)| - 1 && |OpenMembers(p, g)| > 0
    ensures s !in Members(p, g) ==> OpenMembers(q, g) == OpenMembers(p, g)
  {
    if s in Members(p, g) {
      assert s in OpenMembers(p, g);
      assert OpenMembers(q, g) == OpenMembers(p, g) - {s};
    }
  }

  /** The board once a live descriptor is marked retired, before its prefix is published. */
  ghost function Marked(p: Peer, s: nat, result: Status): Board
    requires 1 <= s <= |p.accepted| && s in p.board.entries
  {
    var d := p.accepted[s - 1];
    p.board.(
      groups := if Member(d) && d.group in p.board.groups
                then p.board.groups[d.group := GroupComplete(p.board.groups[d.group], result).0]
                else p.board.groups,
      entries := p.board.entries[s := Retired(ContextOf(d), Member(d), result)],
      firstError := if result != Success && p.board.firstError == Success then result else p.board.firstError)
  }

  /** A descriptor not retired yet is live on the board, and so is its group. */
  lemma LiveSlot(p: Peer, s: nat)
    requires InvBoard(p) && InvGroups(p)
    requires 1 <= s <= p.opSeq && s !in p.retired
    ensures p.board.next <= s && s in p.board.entries && p.accepted[s - 1].opSeq == s
    ensures p.board.entries[s] == Pending(ContextOf(p.accepted[s - 1]), Member(p.accepted[s - 1]))
    ensures Tracks(p.board, ContextOf(p.accepted[s - 1]))
    ensures Member(p.accepted[s - 1]) ==>
      && p.accepted[s - 1].group in p.board.groups
      && p.board.groups[p.accepted[s - 1].group].state == Sealed
      && p.board.groups[p.accepted[s - 1].group].pending > 0
  {
    assert !IsSettled(p, s);
    assert p.board.next <= s;
    assert SlotMatches(p, s);
    var d := p.accepted[s - 1];
    if Member(d) {
      assert s in Members(p, d.group) && s in OpenMembers(p, d.group);
      assert GroupMatches(p, d.group);
    }
  }

  /** Retiring a live descriptor is always accepted by the board. */
  lemma RetireTracks(p: Peer, s: nat, result: Status)
    requires InvBoard(p) && InvGroups(p)
    requires 1 <= s <= p.opSeq && s !in p.retired
    ensures p.board.next <= s && s in p.board.entries && p.accepted[s - 1].opSeq == s
    ensures var (b, st) := TrackCompletion(p.board, ContextOf(p.accepted[s - 1]), result);
      st == Success && b == if result == InProgress then p.board else Advance(Marked(p, s, result))
    ensures Member(p.accepted[s - 1]) ==>
      && p.accepted[s - 1].group in p.board.groups
      && p.board.groups[p.accepted[s - 1].group].state == Sealed
      && p.board.groups[p.accepted[s - 1].group].pending > 0
  {
    hide InvBoard, InvGroups, Advance;
    LiveSlot(p, s);
  }

  lemma FirstErrorAfter(p: Peer, q: Peer, s: nat, result: Status)
    requires q.retired == p.retired[s := result] && s !in p.retired
    requires q.board.firstError ==
      if result != Success && result != InProgress && p.board.firstError == Success then result
      else p.board.firstError
    requires p.board.firstError == Success <==>
      forall t :: t in p.retired ==> p.retired[t] == Success || p.retired[t] == InProgress
    ensures q.board.firstError == Success <==>
      forall t :: t in q.retired ==> q.retired[t] == Success || q.retired[t] == InProgress
  {
    if q.board.firstError != Success {
      if p.board.firstError != Success {
        var t :| t in p.retired && p.retired[t] != Success && p.retired[t] != InProgress;
        assert t in q.retired && q.retired[t] == p.retired[t];
      } else {
        assert q.retired[s] == result;
      }
    }
  }

  lemma SlotsAfterRetire(p: Peer, s: nat, result: Status)
    requires InvBoard(p) && InvGroups(p) && result != InProgress
    requires 1 <= s <= p.opSeq && s !in p.retired
    ensures var q := Retire(p, p.accepted[s - 1], result).0;
      && p.board.next <= q.board.next <= q.opSeq + 1
      && s in p.board.entries
      && q.board == Marked(p, s, result).(next := q.board.next, entries := q.board.entries)
      && (forall t :: t in q.board.entries <==> q.board.next <= t <= q.opSeq)
      && (forall t :: q.board.next <= t <= q.opSeq ==> SlotMatches(q, t))
  {
    hide InvGroups, Advance;
    RetireTracks(p, s, result);
    var q := Retire(p, p.accepted[s - 1], result).0;
    AdvanceExact(Marked(p, s, result), p.opSeq);
    forall t | q.board.next <= t <= q.opSeq ensures SlotMatches(q, t) {
      assert SlotMatches(p, t);
    }
  }

  lemma PrefixAfterRetire(p: Peer, s: nat, result: Status)
    requires InvBoard(p) && InvGroups(p) && result != InProgress
    requires 1 <= s <= p.opSeq && s !in p.retired
    ensures var q := Retire(p, p.accepted[s - 1], result).0;
      && (forall t :: 1 <= t < q.board.next ==> IsSettled(q, t))
      && !IsSettled(q, q.board.next)
  {
    hide InvGroups, Advance;
    RetireTracks(p, s, result);
    var q := Retire(p, p.accepted[s - 1], result).0;
    var b1 := Marked(p, s, result);
    AdvanceExact(b1, p.opSeq);
    forall t | 1 <= t < q.board.next ensures IsSettled(q, t) {
      if p.board.next <= t {
        assert b1.entries[t].Retired?;
        if t != s { assert SlotMatches(p, t) && b1.entries[t] == p.board.entries[t]; }
      } else {
        assert IsSettled(p, t);
      }
    }
    if q.board.next <= p.opSeq { assert q.board.next != s && SlotMatches(p, q.board.next); }
  }

  lemma RetireKeepsBoard(p: Peer, s: nat, result: Status)
    requires InvBoard(p) && InvGroups(p)
    requires 1 <= s <= p.opSeq && s !in p.retired
    ensures var q := Retire(p, p.accepted[s - 1], result).0;
      InvBoard(q) && p.done <= q.done
  {
    hide InvGroups, Advance;
    RetireTracks(p, s, result);
    var q := Retire(p, p.accepted[s - 1], result).0;
    if result != InProgress {
      hide SlotMatches;
      SlotsAfterRetire(p, s, result);
      PrefixAfterRetire(p, s, result);
      FirstErrorAfter(p, q, s, result);
    } else {
      forall t | q.board.next <= t <= q.opSeq ensures SlotMatches(q, t) {
        assert SlotMatches(p, t);
      }
      forall t | 1 <= t < q.board.next ensures IsSettled(q, t) {
        assert IsSettled(p, t);
      }
      FirstErrorAfter(p, q, s, result);
    }
  }

  lemma GroupAfterRetire(p: Peer, q: Peer, s: nat, g: nat, result: Status)
    requires |p.accepted| == p.opSeq && 1 <= s <= p.opSeq && s !in p.retired && result != InProgress
    requires q.accepted == p.accepted && q.retired == p.retired[s := result]
    requires g in p.board.groups && g in q.board.groups && GroupMatches(p, g)
    requires s in Members(p, g) ==>
      p.board.groups[g].state == Sealed && q.board.groups[g] == GroupComplete(p.board.groups[g], result).0
    requires s !in Members(p, g) ==> q.board.groups[g] == p.board.groups[g]
    ensures GroupMatches(q, g)
  {
    assert Members(q, g) == Members(p, g);
    assert forall t :: t != s ==> (IsSettled(q, t) <==> IsSettled(p, t));
    OpenMembersShrink(p, q, s, g);
    if s in Members(p, g) {
      var before := forall t :: t in Members(p, g) && IsSettled(p, t) ==> p.retired[t] == Success;
      if result == Success && before {
        forall t | t in Members(q, g) && IsSettled(q, t) ensures q.retired[t] == Success {
          if t != s { assert IsSettled(p, t); }
        }
      } else if result == Success {
        var t :| t in Members(p, g) && IsSettled(p, t) && p.retired[t] != Success;
        assert IsSettled(q, t) && q.retired[t] != Success;
      } else {
        assert IsSettled(q, s) && q.retired[s] != Success;
      }
    }
  }

  lemma RetireKeepsGroups(p: Peer, s: nat, result: Status)
    requires InvBoard(p) && InvGroups(p)
    requires 1 <= s <= p.opSeq && s !in p.retired
    ensures InvGroups(Retire(p, p.accepted[s - 1], result).0)
  {
    hide Advance, GroupMatches;
    var q := Retire(p, p.accepted[s - 1], result).0;
    RetireTracks(p, s, result);
    RetireGroupTable(p, s, result);
    forall g | g in q.board.groups ensures GroupMatches(q, g) {
      assert GroupMatches(p, g);
      if result != InProgress {
        GroupAfterRetire(p, q, s, g, result);
      } else {
        assert Members(q, g) == Members(p, g);
        GroupUntouched(p, q, g);
      }
    }
  }

  lemma GroupUntouched(p: Peer, q: Peer, g: nat)
    requires Members(q, g) == Members(p, g)
    requires forall t :: IsSettled(q, t) <==> IsSettled(p, t)
    requires forall t :: IsSettled(p, t) ==> t in q.retired && q.retired[t] == p.retired[t]
    requires g in p.board.groups && g in q.board.groups && GroupMatches(p, g)
    requires q.board.groups[g] == p.board.groups[g]
    ensures GroupMatches(q, g)
  {
    assert OpenMembers(q, g) == OpenMembers(p, g);
  }

  /** Effect of a retirement on the table of groups. */
  lemma RetireGroupTable(p: Peer, s: nat, result: Status)
    requires InvBoard(p) && InvGroups(p)
    requires 1 <= s <= p.opSeq && s !in p.retired
    ensures var q := Retire(p, p.accepted[s - 1], result).0;
      && q.board.groups.Keys == p.board.groups.Keys
      && (forall g <- p.board.groups :: s in Members(p, g) ==> p.board.groups[g].state == Sealed)
      && (forall g <- p.board.groups :: q.board.groups[g] ==
            if result != InProgress && s in Members(p, g) then GroupComplete(p.board.groups[g], result).0
            else p.board.groups[g])
  {
    hide GroupComplete;
    RetireTracks(p, s, result);
    var d := p.accepted[s - 1];
    var q := Retire(p, d, result).0;
    if result != InProgress { AdvanceExact(Marked(p, s, result), p.opSeq); }
    hide InvBoard, InvGroups;
    assert q.board.groups == if result == InProgress then p.board.groups else Marked(p, s, result).groups;
    hide TrackCompletion, Advance;
    forall g ensures s in Members(p, g) <==> Member(d) && d.group == g { MemberOf(p, s, g); }
    hide Members;
  }

  lemma MemberOf(p: Peer, s: nat, g: nat)
    requires 1 <= s <= |p.accepted|
    ensures s in Members(p, g) <==> Member(p.accepted[s - 1]) && p.accepted[s - 1].group == g
  {}
}
