// Every step of a peer keeps the whole invariant, and what a step may report as an error.

module RmaSteps {
  import opened Results
  import opened NetTransport
  import opened RmaPeer
  import opened RmaBoard
  import opened RmaFlow
  import opened RmaGets
  import RmaAccept
  import Visibility

  ghost predicate InvCore(p: Peer) { InvBoard(p) && InvGroups(p) && InvCount(p) }

  ghost predicate Inv(p: Peer) {
    InvCore(p) && InvPosted(p) && InvRing(p) && InvFlight(p) && InvGets(p)
  }

  lemma NewPeerInv(queueSize: nat)
    requires 2 <= queueSize <= UINT32_MAX / 2
    ensures Inv(NewPeer(queueSize))
  {
    NewPeerCore(queueSize);
    EmptyQueues(NewPeer(queueSize));
    hide InvCore, InvPosted, InvRing, InvFlight, InvGets, NewPeer;
  }

  lemma NewPeerCore(queueSize: nat)
    requires 2 <= queueSize <= UINT32_MAX / 2
    ensures InvCore(NewPeer(queueSize))
  {
    hide GroupMatches, SlotMatches;
    assert Successes(NewPeer(queueSize)) == {};
  }

  lemma EmptyQueues(p: Peer)
    requires p.ring == [] && p.flight == [] && p.accepted == [] && p.opSeq == 0 && p.domains == map[]
    requires p.retired == map[] && p.posted == {} && p.twice == {}
    ensures InvPosted(p) && InvRing(p) && InvFlight(p) && InvGets(p)
  {
    hide AllSucceeded, InFlight, DomainOk, FlightOk, Members;
  }

  // --------------------------------------------------------------------------- frames

  /** Moving descriptors between queues, or changing visibility state, is invisible to the
      board, the groups, the counter and what was posted. */
  lemma CoreFrame(p: Peer, q: Peer, n: nat)
    requires InvCore(p) && n <= |p.ring|
    requires q == p.(ring := p.ring[n..], flight := q.flight, domains := q.domains,
                     snaps := q.snaps, flushed := q.flushed, posted := q.posted)
    ensures InvCore(q)
  {
    BoardFrame(p, q);
    GroupsFrame(p, q);
    assert Successes(q) == Successes(p);
  }

  lemma BoardFrame(p: Peer, q: Peer)
    requires InvBoard(p)
    requires q.board.(groups := p.board.groups) == p.board && q.accepted == p.accepted && q.retired == p.retired
    requires q.opSeq == p.opSeq && q.done == p.done && q.queueSize == p.queueSize
    ensures InvBoard(q)
  {
    forall s | q.board.next <= s <= q.opSeq ensures SlotMatches(q, s) { assert SlotMatches(p, s); }
    assert forall s :: IsSettled(q, s) <==> IsSettled(p, s);
    hide SlotMatches, IsSettled;
  }

  lemma GroupsFrame(p: Peer, q: Peer)
    requires InvGroups(p)
    requires q.board.groups == p.board.groups && q.accepted == p.accepted && q.retired == p.retired
    ensures InvGroups(q)
  {
    hide GroupMatches;
    forall g | g in q.board.groups ensures GroupMatches(q, g) {
      assert GroupMatches(p, g);
      assert Members(q, g) == Members(p, g);
      GroupUntouched(p, q, g);
    }
  }

  lemma PostedFrame(p: Peer, q: Peer, n: nat)
    requires InvPosted(p) && n <= |p.ring|
    requires q.ring == p.ring[n..] && q.posted == p.posted && q.accepted == p.accepted && q.retired == p.retired
    ensures InvPosted(q)
  {
    assert forall i :: 0 <= i < |q.ring| ==> q.ring[i] == p.ring[n + i];
    forall g | AllSucceeded(p, g) ensures AllSucceeded(q, g) { assert Members(q, g) == Members(p, g); }
    hide AllSucceeded;
  }

  // ------------------------------------------------------------------------- producers

  lemma AcceptKeepsOtherGroups(p: Peer, ds: seq<Desc>, b: Board)
    requires InvGroups(p) && |p.accepted| == p.opSeq && b.groups == p.board.groups
    requires forall i :: 0 <= i < |ds| ==> ds[i].group == 0
    ensures InvGroups(Accept(p, Stamp(ds, p.opSeq), b))
  {
    hide GroupMatches;
    var run := Stamp(ds, p.opSeq);
    var q := Accept(p, run, b);
    forall g | g in q.board.groups ensures GroupMatches(q, g) {
      assert GroupMatches(p, g);
      RmaAccept.OtherGroupAfter(p, run, b, g);
    }
    assert forall k :: p.opSeq <= k < |q.accepted| ==> q.accepted[k] == run[k - p.opSeq];
    forall k | 0 <= k < |q.accepted| && q.accepted[k].group != 0
      ensures q.accepted[k].group in q.board.groups && q.board.groups[q.accepted[k].group].state != Open
    {
      if k < p.opSeq { assert q.accepted[k] == p.accepted[k]; }
    }
  }

  lemma NoMembers(ds: seq<Desc>)
    requires forall i :: 0 <= i < |ds| ==> !Member(ds[i])
    ensures RmaAccept.CountMembers(ds) == 0
    decreases |ds|
  {
    if ds != [] { NoMembers(ds[..|ds| - 1]); }
  }

  lemma AcceptKeepsRest(p: Peer, run: seq<Desc>, b: Board)
    requires Inv(p) && |p.ring| + |run| <= p.queueSize
    requires forall i :: 0 <= i < |run| ==> run[i].opSeq == p.opSeq + i + 1
    requires forall i :: 0 <= i < |run| && Member(run[i]) ==>
      run[i].group in p.board.groups && p.board.groups[run[i].group].state == Open
    ensures var q := Accept(p, run, b);
      InvCount(q) && InvPosted(q) && InvRing(q) && InvFlight(q) && InvGets(q)
  {
    AcceptKeepsCount(p, run, b);
    AcceptKeepsFlight(p, run, b);
    AcceptKeepsGets(p, run, b);
    hide InvCount, InvRing, InvFlight, InvGets, GroupMatches;
    forall t | t in p.posted && p.accepted[t - 1].kind == Release
      ensures forall i :: 0 <= i < |run| && Member(run[i]) ==> run[i].group != p.accepted[t - 1].group
    {
      assert WellFormed(p.accepted[t - 1]);
    }
    AcceptKeepsPosted(p, run, b);
  }

  /** Enqueueing a batch either publishes all of it or changes nothing; with room in the ring it
      is retried exactly while the scoreboard window is full. */
  lemma EnqueueBatchKeeps(p: Peer, ds: seq<Desc>)
    requires Inv(p) && (forall i :: 0 <= i < |ds| ==> WellFormed(ds[i]) && ds[i].group == 0)
    ensures var (q, st) := EnqueueBatch(p, ds);
      && Inv(q)
      && (st != Success ==> q == p)
      && (st == Success ==>
            q.accepted == p.accepted + Stamp(ds, p.opSeq) && q.ring == p.ring + Stamp(ds, p.opSeq))
      && (0 < |ds| <= p.queueSize - |p.ring| && p.opSeq + |ds| < UINT64_MAX ==>
            st == if p.opSeq + |ds| < p.board.next + p.board.capacity then Success else InProgress)
  {
    if 0 < |ds| <= p.queueSize - |p.ring| {
      var run := Stamp(ds, p.opSeq);
      assert RmaAccept.Trackable(p.board, run, p.opSeq, 0);
      RmaAccept.TrackAllExact(p.board, run, p.opSeq, 0);
      var (b, st) := TrackAll(p.board, run);
      if st == Success {
        RmaAccept.AcceptKeepsBoard(p, ds, 0);
        hide InvBoard, TrackAll, RmaAccept.Trackable;
        NoMembers(run);
        AcceptKeepsOtherGroups(p, ds, b);
        AcceptKeepsRest(p, run, b);
        hide InvGroups, InvCount, InvPosted, InvRing, InvFlight, InvGets;
      }
    }
  }

  lemma InitGroupTable(p: Peer, g: nat)
    requires InvGroups(p) && g != 0 && g !in p.board.groups
    ensures InvGroups(InitGroup(p, g))
  {
    var q := InitGroup(p, g);
    assert Members(q, g) == {};
    assert GroupMatches(q, g);
    hide GroupMatches;
    forall h | h in p.board.groups ensures GroupMatches(q, h) {
      assert GroupMatches(p, h);
      assert Members(q, h) == Members(p, h);
      GroupUntouched(p, q, h);
    }
  }

  /** A new group has no members yet. */
  lemma InitGroupKeeps(p: Peer, g: nat)
    requires Inv(p) && g != 0 && g !in p.board.groups
    ensures Inv(InitGroup(p, g))
  {
    hide InvBoard, InvGroups;
    var q := InitGroup(p, g);
    BoardFrame(p, q);
    InitGroupTable(p, g);
    PostedFrame(p, q, 0);
    assert Successes(q) == Successes(p);
    hide Successes, InvPosted, FlightOk, DomainOk, NoneLost;
  }

  lemma AllMembers(ds: seq<Desc>, n: nat)
    requires |ds| == n + 1 && !Member(ds[n])
    requires forall i :: 0 <= i < n ==> Member(ds[i])
    ensures RmaAccept.CountMembers(ds) == n
  {
    assert ds[..|ds| - 1] == ds[..n];
    PrefixMembers(ds[..n]);
  }

  lemma PrefixMembers(ds: seq<Desc>)
    requires forall i :: 0 <= i < |ds| ==> Member(ds[i])
    ensures RmaAccept.CountMembers(ds) == |ds|
    decreases |ds|
  {
    if ds != [] { PrefixMembers(ds[..|ds| - 1]); }
  }

  /** The run a release group publishes. */
  ghost predicate ReleaseRun(p: Peer, data: seq<Desc>, release: Desc) {
    && WellFormed(release) && release.kind == Release
    && release.group in p.board.groups && p.board.groups[release.group].state == Open
    && (forall i :: 0 <= i < |data| ==>
          WellFormed(data[i]) && data[i].kind == Put && data[i].group == release.group)
  }

  lemma CoreFacts(p: Peer)
    requires InvCore(p)
    ensures |p.accepted| == p.opSeq && forall s <- p.retired :: s <= p.opSeq
  {}

  lemma ReleasedGroup(p: Peer, data: seq<Desc>, release: Desc, b: Board)
    requires InvCore(p) && ReleaseRun(p, data, release)
    requires b.groups == p.board.groups[release.group :=
      GroupSeal(NewGroup(GENERATION).(pending := |data|, members := |data|)).0]
    ensures GroupMatches(Accept(p, Stamp(data + [release], p.opSeq), b), release.group)
  {
    CoreFacts(p);
    hide InvBoard;
    var run := Stamp(data + [release], p.opSeq);
    assert run[|data|] == release.(opSeq := p.opSeq + |data| + 1);
    assert forall i :: 0 <= i < |data| ==> run[i] == data[i].(opSeq := p.opSeq + i + 1);
    assert GroupMatches(p, release.group);
    RmaAccept.SealedGroupAfter(p, run, b, release.group, |data|);
  }

  lemma ReleaseKeepsGroups(p: Peer, data: seq<Desc>, release: Desc, b: Board)
    requires InvCore(p) && ReleaseRun(p, data, release)
    requires b.groups == p.board.groups[release.group :=
      GroupSeal(NewGroup(GENERATION).(pending := |data|, members := |data|)).0]
    ensures InvGroups(Accept(p, Stamp(data + [release], p.opSeq), b))
  {
    hide GroupMatches, InvBoard;
    CoreFacts(p);
    var run := Stamp(data + [release], p.opSeq);
    var q := Accept(p, run, b);
    ReleasedGroup(p, data, release, b);
    assert run[|data|] == release.(opSeq := p.opSeq + |data| + 1);
    assert forall i :: 0 <= i < |data| ==> run[i] == data[i].(opSeq := p.opSeq + i + 1);
    forall h | h in q.board.groups ensures GroupMatches(q, h) {
      if h != release.group {
        assert GroupMatches(p, h);
        RmaAccept.OtherGroupAfter(p, run, b, h);
      }
    }
    forall k | 0 <= k < |q.accepted| && q.accepted[k].group != 0
      ensures q.accepted[k].group in q.board.groups && q.board.groups[q.accepted[k].group].state != Open
    {
      if k < p.opSeq { assert q.accepted[k] == p.accepted[k]; } else { assert q.accepted[k] == run[k - p.opSeq]; }
    }
  }

  lemma ReleaseTracks(p: Peer, data: seq<Desc>, release: Desc)
    requires InvCore(p) && ReleaseRun(p, data, release) && |data| < p.queueSize
    ensures var run := Stamp(data + [release], p.opSeq);
      && RmaAccept.Trackable(p.board, run, p.opSeq, release.group)
      && RmaAccept.CountMembers(run) == |data|
      && p.board.groups[release.group] == NewGroup(GENERATION)
      && (forall i :: 0 <= i < |run| ==> WellFormed((data + [release])[i]))
  {
    var run := Stamp(data + [release], p.opSeq);
    var g := release.group;
    assert forall i :: 0 <= i < |data| ==> run[i] == data[i].(opSeq := p.opSeq + i + 1);
    assert run[|data|] == release.(opSeq := p.opSeq + |data| + 1);
    AllMembers(run, |data|);
    assert GroupMatches(p, g);
    hide GroupMatches;
  }

  /** Sealing after tracking: the board a published release group leaves behind. */
  function SealedBoard(p: Peer, data: seq<Desc>, release: Desc): Board {
    var b := TrackAll(p.board, Stamp(data + [release], p.opSeq)).0;
    b.(groups := p.board.groups[release.group :=
         GroupSeal(NewGroup(GENERATION).(pending := |data|, members := |data|)).0])
  }

  /** The group counts every data descriptor of the run, so sealing it succeeds. */
  lemma ReleaseSeals(p: Peer, data: seq<Desc>, release: Desc)
    requires InvCore(p) && ReleaseRun(p, data, release) && |data| < p.queueSize
    ensures var (b, st) := TrackAll(p.board, Stamp(data + [release], p.opSeq));
      st == Success ==>
        && release.group in b.groups
        && GroupSeal(b.groups[release.group]).1 == Success
        && SealedBoard(p, data, release) == b.(groups := b.groups[release.group := GroupSeal(b.groups[release.group]).0])
        && SealedBoard(p, data, release).(groups := b.groups) == b
  {
    var run := Stamp(data + [release], p.opSeq);
    ReleaseTracks(p, data, release);
    RmaAccept.TrackAllExact(p.board, run, p.opSeq, release.group);
    hide InvCore, TrackAll, RmaAccept.Trackable, Stamp, RmaAccept.CountMembers;
    if TrackAll(p.board, run).1 == Success { GroupsAfterOne(p.board.groups, release.group, |data|); }
  }

  lemma GroupsAfterOne(groups: map<nat, Group>, g: nat, m: nat)
    requires g in groups && groups[g] == NewGroup(GENERATION)
    ensures var after := RmaAccept.GroupsAfter(groups, g, m);
      var sealed := GroupSeal(NewGroup(GENERATION).(pending := m, members := m)).0;
      && g in after && after[g] == NewGroup(GENERATION).(pending := m, members := m)
      && GroupSeal(after[g]) == (sealed, Success)
      && after[g := sealed] == groups[g := sealed]
  {}

  lemma ReleaseKeepsBoard(p: Peer, data: seq<Desc>, release: Desc)
    requires InvCore(p) && ReleaseRun(p, data, release) && |data| < p.queueSize
    requires TrackAll(p.board, Stamp(data + [release], p.opSeq)).1 == Success
    ensures InvBoard(Accept(p, Stamp(data + [release], p.opSeq), SealedBoard(p, data, release)))
  {
    var ds := data + [release];
    ReleaseTracks(p, data, release);
    ReleaseSeals(p, data, release);
    RmaAccept.AcceptKeepsBoard(p, ds, release.group);
    hide InvBoard, InvCore, ReleaseRun, TrackAll, SealedBoard, Stamp;
    BoardFrame(Accept(p, Stamp(ds, p.opSeq), TrackAll(p.board, Stamp(ds, p.opSeq)).0),
               Accept(p, Stamp(ds, p.opSeq), SealedBoard(p, data, release)));
  }

  lemma ReleaseKeepsRest(p: Peer, data: seq<Desc>, release: Desc, b: Board)
    requires Inv(p) && ReleaseRun(p, data, release) && |data| < p.queueSize - |p.ring|
    ensures var q := Accept(p, Stamp(data + [release], p.opSeq), b);
      InvCount(q) && InvPosted(q) && InvRing(q) && InvFlight(q) && InvGets(q)
  {
    SealedRun(p, data, release, b);
    hide Inv, InvCore, Members;
    AcceptKeepsRest(p, Stamp(data + [release], p.opSeq), b);
  }

  /** The same for data descriptors with their release: published and sealed together, or the
      peer is as before and the group still open and empty. */
  lemma EnqueueReleaseKeeps(p: Peer, data: seq<Desc>, release: Desc)
    requires Inv(p) && ReleaseRun(p, data, release)
    ensures var (q, st) := EnqueueReleaseGroup(p, data, release);
      && Inv(q)
      && (st != Success ==> q == p)
      && (st == Success ==>
            && q.accepted == p.accepted + Stamp(data + [release], p.opSeq)
            && q.board.groups[release.group].state != Open
            && Members(q, release.group) == Range(p.opSeq + 1, |data|))
  {
    assert |p.ring| <= p.queueSize;
    hide InvBoard, InvGroups, InvCount, InvPosted, InvRing, InvFlight, InvGets,
         TrackAll, Stamp, ReleaseRun, Members, SealedBoard, GroupSeal;
    var run := Stamp(data + [release], p.opSeq);
    if |data| < p.queueSize - |p.ring| && TrackAll(p.board, run).1 == Success {
      var b := SealedBoard(p, data, release);
      ReleaseSeals(p, data, release);
      ReleaseKeepsBoard(p, data, release);
      SealedRun(p, data, release, b);
      SealedGroupState(p, data, release);
      ReleaseKeepsGroups(p, data, release, b);
      ReleaseKeepsRest(p, data, release, b);
    }
  }

  lemma SealedGroupState(p: Peer, data: seq<Desc>, release: Desc)
    ensures var b := SealedBoard(p, data, release);
      && b.groups == p.board.groups[release.group :=
           GroupSeal(NewGroup(GENERATION).(pending := |data|, members := |data|)).0]
      && b.groups[release.group].state != Open
  {}

  lemma SealedRun(p: Peer, data: seq<Desc>, release: Desc, b: Board)
    requires InvCore(p) && ReleaseRun(p, data, release)
    ensures var run := Stamp(data + [release], p.opSeq);
      && Members(Accept(p, run, b), release.group) == Range(p.opSeq + 1, |data|)
      && (forall i :: 0 <= i < |run| && Member(run[i]) ==> run[i].group == release.group)
  {
    var run := Stamp(data + [release], p.opSeq);
    assert run[|data|] == release.(opSeq := p.opSeq + |data| + 1);
    assert forall i :: 0 <= i < |data| ==> run[i] == data[i].(opSeq := p.opSeq + i + 1);
    assert GroupMatches(p, release.group);
    RmaAccept.SealedMembers(p, run, b, release.group, |data|);
  }
}
