// Enqueueing: tracking a run of descriptors on the board is all or nothing, its rollback is
// exact, and a published run keeps the board and group invariants.

module RmaAccept {
  import opened Results
  import opened NetTransport
  import opened RmaPeer
  import opened RmaBoard

  function CountMembers(ds: seq<Desc>): nat
    decreases |ds|
  {
    if ds == [] then 0
    else CountMembers(ds[..|ds| - 1]) + (if Member(ds[|ds| - 1]) then 1 else 0)
  }

  /** A run of descriptors that the producer may track after sequence `base`. */
  ghost predicate Trackable(b: Board, ds: seq<Desc>, base: nat, g: nat) {
    && 1 <= b.next <= base + 1 <= UINT64_MAX
    && b.generation == GENERATION
    && (forall s :: s in b.entries <==> b.next <= s <= base)
    && (forall i :: 0 <= i < |ds| ==> ds[i].opSeq == base + i + 1)
    && (forall i :: 0 <= i < |ds| && Member(ds[i]) ==> ds[i].group == g)
    && (g != 0 ==>
          && g in b.groups && b.groups[g].state == Open && b.groups[g].generation == GENERATION
          && b.groups[g].pending + |ds| < UINT32_MAX && b.groups[g].members + |ds| < UINT32_MAX)
  }

  function GroupsAfter(groups: map<nat, Group>, g: nat, m: nat): map<nat, Group> {
    if g !in groups || m == 0 then groups
    else groups[g := groups[g].(pending := groups[g].pending + m, members := groups[g].members + m)]
  }

  /** What tracking a run of n descriptors after `base` produced. */
  ghost predicate RunTracked(b: Board, r: Board, ds: seq<Desc>, base: nat, g: nat) {
    && r == b.(entries := r.entries, groups := GroupsAfter(b.groups, g, CountMembers(ds)))
    && (forall s :: s in r.entries <==> b.next <= s <= base + |ds|)
    && (forall s :: b.next <= s <= base ==> s in r.entries && s in b.entries && r.entries[s] == b.entries[s])
    && (forall s :: base < s <= base + |ds| ==>
          s in r.entries && r.entries[s] == Pending(ContextOf(ds[s - base - 1]), Member(ds[s - base - 1])))
  }

  /** Tracking a run succeeds exactly when its last sequence fits the window, and then every
      descriptor is pending and its group counts its members. */
  lemma {:induction false} TrackAllExact(b: Board, ds: seq<Desc>, base: nat, g: nat)
    requires Trackable(b, ds, base, g)
    ensures var (r, st) := TrackAll(b, ds);
      && (base + |ds| < UINT64_MAX ==>
            st == if ds == [] || base + |ds| < b.next + b.capacity then Success else InProgress)
      && (st == Success ==>
            && (ds != [] ==> base + |ds| < b.next + b.capacity && base + |ds| < UINT64_MAX)
            && RunTracked(b, r, ds, base, g))
    decreases |ds|
  {
    if ds != [] {
      var n := |ds| - 1;
      assert Trackable(b, ds[..n], base, g);
      TrackAllExact(b, ds[..n], base, g);
      if TrackAll(b, ds[..n]).1 == Success {
        TrackLast(b, TrackAll(b, ds[..n]).0, ds, base, g);
      }
    }
  }

  lemma OneMoreMember(groups: map<nat, Group>, g: nat, m: nat)
    requires g in groups
    ensures var now := GroupsAfter(groups, g, m);
      && now.Keys == groups.Keys
      && now[g] == groups[g].(pending := groups[g].pending + m, members := groups[g].members + m)
      && now[g := now[g].(pending := now[g].pending + 1, members := now[g].members + 1)] == GroupsAfter(groups, g, m + 1)
  {}

  /** One more descriptor extends a tracked run. */
  lemma ExtendRun(b: Board, b1: Board, ds: seq<Desc>, base: nat, g: nat)
    requires b.next <= base + 1 && ds != [] && RunTracked(b, b1, ds[..|ds| - 1], base, g)
    requires Member(ds[|ds| - 1]) ==> g in b.groups
    ensures var d := ds[|ds| - 1];
      RunTracked(b, b1.(entries := b1.entries[base + |ds| := Pending(ContextOf(d), Member(d))],
                        groups := GroupsAfter(b1.groups, g, if Member(d) then 1 else 0)), ds, base, g)
  {
    var n := |ds| - 1;
    assert forall i :: 0 <= i < n ==> ds[..n][i] == ds[i];
    if g in b.groups { OneMoreMember(b.groups, g, CountMembers(ds[..n])); }
  }

  /** Tracking the next sequence fails only when the window is full. */
  lemma SubmitNext(b: Board, d: Desc, g: nat)
    requires b.generation == GENERATION && b.next <= d.opSeq <= UINT64_MAX && d.opSeq !in b.entries
    requires Member(d) ==> d.group == g && g in b.groups && GroupTrack(b.groups[g], ContextOf(d)).1 == Success
    ensures var (r, st) := TrackSubmit(b, ContextOf(d), Member(d));
      && (d.opSeq < UINT64_MAX ==> st == if d.opSeq < b.next + b.capacity then Success else InProgress)
      && (st == Success ==>
            && d.opSeq < b.next + b.capacity && d.opSeq < UINT64_MAX
            && r == b.(entries := b.entries[d.opSeq := Pending(ContextOf(d), Member(d))],
                       groups := GroupsAfter(b.groups, g, if Member(d) then 1 else 0)))
  {}

  lemma TrackLast(b: Board, b1: Board, ds: seq<Desc>, base: nat, g: nat)
    requires Trackable(b, ds, base, g) && ds != []
    requires RunTracked(b, b1, ds[..|ds| - 1], base, g) && base + |ds| <= UINT64_MAX
    ensures var (r, st) := TrackSubmit(b1, ContextOf(ds[|ds| - 1]), Member(ds[|ds| - 1]));
      && (base + |ds| < UINT64_MAX ==>
            st == if base + |ds| < b.next + b.capacity then Success else InProgress)
      && (st == Success ==>
            base + |ds| < b.next + b.capacity && base + |ds| < UINT64_MAX && RunTracked(b, r, ds, base, g))
  {
    var n := |ds| - 1;
    assert ds[n].opSeq == base + |ds|;
    CountBound(ds[..n]);
    if Member(ds[n]) { OneMoreMember(b.groups, g, CountMembers(ds[..n])); }
    ExtendRun(b, b1, ds, base, g);
    SubmitNext(b1, ds[n], g);
    hide TrackSubmit, CountMembers, GroupsAfter;
  }

  lemma CountBound(ds: seq<Desc>)
    ensures CountMembers(ds) <= |ds|
    decreases |ds|
  {
    if ds != [] { CountBound(ds[..|ds| - 1]); }
  }

  /** Cancelling undoes the newest tracking, group counts included. */
  lemma CancelUndoesTrack(b: Board, d: Desc)
    requires BoardOk(b) && b.generation == GENERATION
    requires TrackSubmit(b, ContextOf(d), Member(d)).1 == Success
    ensures TrackCancel(TrackSubmit(b, ContextOf(d), Member(d)).0, ContextOf(d)) == (b, Success)
  {
    var c := ContextOf(d);
    var b1 := TrackSubmit(b, c, Member(d)).0;
    assert b1.entries - {c.sequence} == b.entries;
    if Member(d) {
      assert b1.groups[c.groupId := b.groups[c.groupId]] == b.groups;
    }
  }

  // ------------------------------------------------------------------- publication

  lemma AcceptedSlots(p: Peer, run: seq<Desc>, b: Board, s: nat)
    requires InvBoard(p)
    requires p.board.next <= s <= p.opSeq + |run| && s in b.entries
    requires s <= p.opSeq ==> b.entries[s] == p.board.entries[s]
    requires s > p.opSeq ==>
      b.entries[s] == Pending(ContextOf(run[s - p.opSeq - 1]), Member(run[s - p.opSeq - 1]))
    ensures SlotMatches(Accept(p, run, b), s)
  {
    var q := Accept(p, run, b);
    if s <= p.opSeq {
      assert SlotMatches(p, s);
      assert q.accepted[s - 1] == p.accepted[s - 1];
    } else {
      assert q.accepted[s - 1] == run[s - p.opSeq - 1];
    }
  }

  lemma AcceptKeepsAccepted(p: Peer, ds: seq<Desc>, b: Board)
    requires InvAccepted(p) && (forall i :: 0 <= i < |ds| ==> WellFormed(ds[i]))
    requires p.opSeq + |ds| < UINT64_MAX
    ensures InvAccepted(Accept(p, Stamp(ds, p.opSeq), b))
  {
    var run := Stamp(ds, p.opSeq);
    var q := Accept(p, run, b);
    forall k | 0 <= k < q.opSeq ensures q.accepted[k].opSeq == k + 1 && WellFormed(q.accepted[k]) {
      if k < p.opSeq { assert q.accepted[k] == p.accepted[k]; }
      else { assert q.accepted[k] == run[k - p.opSeq] && WellFormed(ds[k - p.opSeq]); }
    }
  }

  lemma RunKeepsBoard(p: Peer, run: seq<Desc>, b: Board, g: nat)
    requires InvBoard(p) && InvAccepted(Accept(p, run, b))
    requires RunTracked(p.board, b, run, p.opSeq, g) && p.opSeq + |run| < p.board.next + p.board.capacity
    ensures InvBoard(Accept(p, run, b))
  {
    hide GroupsAfter, CountMembers, SlotMatches;
    var q := Accept(p, run, b);
    assert |q.accepted| == q.opSeq;
    hide InvAccepted;
    forall s | q.board.next <= s <= q.opSeq ensures s in q.board.entries && SlotMatches(q, s) {
      AcceptedSlots(p, run, b, s);
    }
    hide RunTracked;
    assert forall s :: IsSettled(q, s) <==> IsSettled(p, s);
    hide IsSettled;
  }

  lemma AcceptKeepsBoard(p: Peer, ds: seq<Desc>, g: nat)
    requires InvBoard(p) && (forall i :: 0 <= i < |ds| ==> WellFormed(ds[i]))
    requires ds != [] && Trackable(p.board, Stamp(ds, p.opSeq), p.opSeq, g)
    requires TrackAll(p.board, Stamp(ds, p.opSeq)).1 == Success
    ensures InvBoard(Accept(p, Stamp(ds, p.opSeq), TrackAll(p.board, Stamp(ds, p.opSeq)).0))
  {
    var run := Stamp(ds, p.opSeq);
    var b := TrackAll(p.board, run).0;
    TrackAllExact(p.board, run, p.opSeq, g);
    hide TrackAll, RunTracked, SlotMatches;
    AcceptKeepsAccepted(p, ds, b);
    RunKeepsBoard(p, run, b, g);
  }

  /** Members of a group after a run was accepted. */
  lemma MembersAfter(p: Peer, run: seq<Desc>, b: Board, g: nat)
    requires |p.accepted| == p.opSeq
    ensures var q := Accept(p, run, b);
      Members(q, g) == Members(p, g) + set i | 0 <= i < |run| && Member(run[i]) && run[i].group == g :: p.opSeq + i + 1
  {
    var q := Accept(p, run, b);
    var added := set i | 0 <= i < |run| && Member(run[i]) && run[i].group == g :: p.opSeq + i + 1;
    forall s | s in Members(q, g) ensures s in Members(p, g) + added {
      if s <= p.opSeq { assert q.accepted[s - 1] == p.accepted[s - 1]; }
      else {
        var i := s - p.opSeq - 1;
        assert q.accepted[s - 1] == run[i];
        assert s == p.opSeq + i + 1;
      }
    }
    forall s | s in Members(p, g) + added ensures s in Members(q, g) {
      if s in Members(p, g) {
        var k :| 0 <= k < |p.accepted| && Member(p.accepted[k]) && p.accepted[k].group == g && s == k + 1;
        assert q.accepted[k] == p.accepted[k];
      } else {
        var i :| 0 <= i < |run| && Member(run[i]) && run[i].group == g && s == p.opSeq + i + 1;
        assert q.accepted[p.opSeq + i] == run[i];
      }
    }
  }

  /** A group none of whose members is in the run stays as it was. */
  lemma OtherGroupAfter(p: Peer, run: seq<Desc>, b: Board, g: nat)
    requires |p.accepted| == p.opSeq
    requires g in p.board.groups && g in b.groups && b.groups[g] == p.board.groups[g]
    requires GroupMatches(p, g)
    requires forall i :: 0 <= i < |run| && Member(run[i]) ==> run[i].group != g
    ensures GroupMatches(Accept(p, run, b), g)
  {
    MembersAfter(p, run, b, g);
    assert Members(Accept(p, run, b), g) == Members(p, g);
    GroupUntouched(p, Accept(p, run, b), g);
  }

  /** The members of a release's group are exactly the data descriptors of its run. */
  lemma SealedMembers(p: Peer, run: seq<Desc>, b: Board, g: nat, n: nat)
    requires |p.accepted| == p.opSeq && Members(p, g) == {}
    requires |run| == n + 1 && !Member(run[n])
    requires forall i :: 0 <= i < n ==> Member(run[i]) && run[i].group == g
    ensures Members(Accept(p, run, b), g) == Range(p.opSeq + 1, n)
  {
    MembersAfter(p, run, b, g);
    var q := Accept(p, run, b);
    forall s | s in Range(p.opSeq + 1, n) ensures s in Members(q, g) {
      var i := s - p.opSeq - 1;
      assert Member(run[i]) && s == p.opSeq + i + 1;
    }
  }

  /** A sealed group waits for exactly its members, none of which has retired. */
  lemma SealedGroupAfter(p: Peer, run: seq<Desc>, b: Board, g: nat, n: nat)
    requires |p.accepted| == p.opSeq && Members(p, g) == {}
    requires |run| == n + 1 && !Member(run[n])
    requires forall i :: 0 <= i < n ==> Member(run[i]) && run[i].group == g
    requires (forall s <- p.retired :: s <= p.opSeq)
    requires g in b.groups
    requires b.groups[g] == GroupSeal(NewGroup(GENERATION).(pending := n, members := n)).0
    ensures GroupMatches(Accept(p, run, b), g)
  {
    SealedMembers(p, run, b, g, n);
    hide Members;
    assert OpenMembers(Accept(p, run, b), g) == Members(Accept(p, run, b), g);
  }
}
