// The progress thread's steps on one peer: polling, visibility, issuing and draining.

module RmaProgress {
  import opened Results
  import opened NetTransport
  import opened RmaPeer
  import opened RmaBoard
  import opened RmaFlow
  import opened RmaGets
  import opened RmaSteps
  import Visibility

  /** What no step ever takes back. */
  ghost predicate Evolves(p: Peer, q: Peer) {
    && q.queueSize == p.queueSize
    && p.accepted <= q.accepted
    && p.done <= q.done && p.completions <= q.completions
    && p.posted <= q.posted && p.flushed <= q.flushed
    && (forall s <- p.retired :: s in q.retired && q.retired[s] == p.retired[s])
  }

  lemma EvolvesTransitive(p: Peer, q: Peer, r: Peer)
    requires Evolves(p, q) && Evolves(q, r)
    ensures Evolves(p, r)
  {}

  lemma EvolvesSame(p: Peer)
    ensures Evolves(p, p)
  {}

  /** Nothing failed so far. */
  ghost predicate Clean(p: Peer) {
    && (forall s <- p.retired :: p.retired[s] == Success)
    && (forall i :: 0 <= i < |p.flight| ==> p.flight[i].result == Success)
  }

  // -------------------------------------------------------------------------- retiring

  lemma RetireKeepsCore(p: Peer, s: nat, result: Status)
    requires InvCore(p) && InvPosted(p)
    requires 1 <= s <= p.opSeq && s !in p.retired
    ensures var (q, raise) := Retire(p, p.accepted[s - 1], result);
      && InvCore(q) && InvPosted(q) && Evolves(p, q)
      && (!raise ==> result == Success)
      && (raise && result == Success ==> exists t <- p.retired :: p.retired[t] != Success)
  {
    hide InvGroups, InvCount, InvPosted, TrackCompletion, SlotMatches;
    RetireKeepsBoard(p, s, result);
    RetireKeepsGroups(p, s, result);
    RetireTracks(p, s, result);
    RetireCounts(p, s, result);
    RetireKeepsPosted(p, s, result);
    var (q, raise) := Retire(p, p.accepted[s - 1], result);
    if raise && result == Success {
      assert q.board.firstError != Success;
      assert exists t :: t in q.retired && q.retired[t] != Success;
    }
  }

  lemma RetireFlightQueues(p: Peer, i: nat, result: Status)
    requires Inv(p) && i < |p.flight|
    ensures var p1 := p.(flight := Without(p.flight, i));
      var f := p.flight[i];
      && InvCore(p1) && InvPosted(p1)
      && 1 <= f.desc.opSeq <= p.opSeq && f.desc == p.accepted[f.desc.opSeq - 1] && f.desc.opSeq !in p.retired
      && InvFlight(Retire(p1, f.desc, result).0)
  {
    assert InvAccepted(p);
    hide InvBoard, InvGroups, InvAccepted, Retire, Without;
    assert p.ring[0..] == p.ring;
    RetireFromFlight(p, i, result);
    CoreFrame(p, p.(flight := Without(p.flight, i)), 0);
    PostedFrame(p, p.(flight := Without(p.flight, i)), 0);
  }

  lemma RetireFlightClean(p: Peer, i: nat, result: Status)
    requires i < |p.flight|
    ensures var (q, raise) := Retire(p.(flight := Without(p.flight, i)), p.flight[i].desc, result);
      Clean(p) && !raise ==> Clean(q)
  {
    hide TrackCompletion;
    WithoutExact(p.flight, i);
  }

  lemma RetireFlightKeeps(p: Peer, i: nat, result: Status)
    requires Inv(p) && i < |p.flight|
    requires var f := p.flight[i];
      && (f.getSeq != 0 ==> f.desc.key in p.domains && f.getSeq <= p.domains[f.desc.key].visible)
      && (result == Success && f.desc.needsFlush ==> f.desc.opSeq in p.flushed)
    ensures var (q, raise) := Retire(p.(flight := Without(p.flight, i)), p.flight[i].desc, result);
      && Inv(q) && Evolves(p, q)
      && q.ring == p.ring && q.posted == p.posted && q.accepted == p.accepted
      && (Clean(p) && !raise ==> Clean(q))
  {
    hide InvBoard, InvGroups, InvPosted, InvFlight, InvCount, Retire, Without, Clean;
    RetireFlightQueues(p, i, result);
    RetireFlightClean(p, i, result);
    assert |p.accepted| == p.opSeq;
    var d := p.flight[i].desc;
    RemoveKeepsGets(p, i, result);
    hide InvGets, InvCore;
    var p1 := p.(flight := Without(p.flight, i));
    RetireKeepsCore(p1, d.opSeq, result);
    RetireFrame(p1, d, result);
    hide InvRing;
  }

  /** What a retirement leaves alone. */
  lemma RetireFrame(p: Peer, d: Desc, result: Status)
    ensures var q := Retire(p, d, result).0;
      && q == p.(board := q.board, done := q.done, completions := q.completions,
                 retired := p.retired[d.opSeq := result], twice := q.twice)
      && (InvRing(p) ==> InvRing(q))
  {
    hide TrackCompletion;
  }

  lemma RetireRingKeeps(p: Peer, result: Status)
    requires Inv(p) && p.ring != []
    requires result == Success ==> !p.ring[0].needsFlush
    ensures var (q, raise) := Retire(p.(ring := p.ring[1..]), p.ring[0], result);
      && Inv(q) && Evolves(p, q) && q.ring == p.ring[1..] && q.flight == p.flight && q.posted == p.posted
      && q.domains == p.domains && q.retired == p.retired[p.ring[0].opSeq := result]
      && (!raise ==> result == Success)
      && (raise && result == Success ==> exists t <- p.retired :: p.retired[t] != Success)
  {
    hide InvGroups, InvCount, InvPosted, InvGets, Retire, LiveFlights, NoneLost, DistinctFlights, SlotMatches;
    assert InvAccepted(p);
    hide InvBoard, InvAccepted;
    var d := p.ring[0];
    var p1 := p.(ring := p.ring[1..]);
    RetireFromRing(p, result);
    CoreFrame(p, p1, 1);
    PostedFrame(p, p1, 1);
    assert 1 <= d.opSeq <= p.opSeq;
    RetireRingKeepsGets(p, result);
    hide InvPosted, InvFlight, InvGets, InvCore, InvRing;
    RetireKeepsCore(p1, d.opSeq, result);
    RetireFrame(p1, d, result);
  }

  // --------------------------------------------------------------------------- polling

  lemma UpdateKeeps(p: Peer, q: Peer)
    requires Inv(p) && InvGets(q) && |q.flight| == |p.flight| && p.flushed <= q.flushed
    requires q == p.(flight := q.flight, domains := q.domains, snaps := q.snaps, flushed := q.flushed)
    requires forall i :: 0 <= i < |p.flight| ==> q.flight[i].desc == p.flight[i].desc
    ensures Inv(q) && Evolves(p, q)
  {
    assert p.ring[0..] == p.ring;
    hide InvGets, InvBoard, InvGroups, InvCount;
    UpdateKeepsFlight(p, q);
    CoreFrame(p, q, 0);
    PostedFrame(p, q, 0);
    LaunchKeepsRing(p, 0, q.flight);
    hide InvPosted, InvRing, InvFlight, InvCore;
  }

  lemma PollFlightKeeps(p: Peer, i: nat, probe: Probe)
    requires Inv(p) && i < |p.flight| && probe != Failed(Success)
    ensures var (q, raise) := PollFlight(p, i, probe);
      && Inv(q) && Evolves(p, q)
      && q.ring == p.ring && q.posted == p.posted && q.accepted == p.accepted
      && (Clean(p) && !raise ==> Clean(q))
  {
    var f := p.flight[i];
    assert FlightOk(p, f);
    hide InvBoard, InvGroups, InvPosted, InvRing, InvFlight, InvCount, Retire, AllDomainsOk, DistinctGets, SuccessFlushed, AllFlightsOk;
    var (q, raise) := PollFlight(p, i, probe);
    if f.dataDone || (f.request && probe.NotDone?) {
      assert q == p;
    } else if f.getSeq != 0 {
      MarkDataDone(p, i, if f.request && probe.Failed? then probe.error else f.result);
      UpdateKeeps(p, q);
    } else {
      var result := if f.request && probe.Failed? then probe.error else f.result;
      hide Inv, Clean, Evolves;
      RetireFlightKeeps(p, i, result);
    }
  }

  lemma RetireVisibleKeeps(p: Peer, i: nat)
    requires Inv(p) && i < |p.flight|
    ensures var (q, raise) := RetireVisible(p, i);
      && Inv(q) && Evolves(p, q)
      && q.ring == p.ring && q.posted == p.posted && q.accepted == p.accepted
      && (Clean(p) && !raise ==> Clean(q))
  {
    var f := p.flight[i];
    assert FlightOk(p, f);
    hide InvBoard, InvGroups, InvPosted, InvRing, InvFlight, InvCount, Retire, InvGets;
    if !f.dataDone || f.desc.key !in p.domains || f.getSeq > p.domains[f.desc.key].visible {
    } else {
      hide Inv, Clean, Evolves;
      RetireFlightKeeps(p, i, f.result);
    }
  }

  lemma FinishFlushKeeps(p: Peer, k: nat, result: Status)
    requires Inv(p) && k in p.domains && p.domains[k].visible < p.domains[k].target
    ensures var (q, raise) := FinishFlush(p, k, result);
      && Inv(q) && Evolves(p, q)
      && q.ring == p.ring && q.posted == p.posted && q.accepted == p.accepted
      && (Clean(p) && !raise ==> Clean(q))
  {
    FinishFlushKeepsGets(p, k, result);
    FinishFlushExact(p, k, result);
    hide InvCore, InvPosted, InvRing, InvFlight, InvGets, FinishFlush;
    UpdateKeeps(p, FinishFlush(p, k, result).0);
  }

  /** A flushing domain is ready to take the result of its flush. */
  lemma FlushingIsAhead(p: Peer, k: nat)
    requires InvGets(p) && k in p.domains && p.domains[k].flushing
    ensures p.domains[k].visible < p.domains[k].target
  {
    assert DomainOk(p.flight, Issued(p), k, p.domains[k]);
  }

  lemma AdvanceDataKeeps(p: Peer, k: nat)
    requires Inv(p) && k in p.domains
    ensures var (q, raise) := AdvanceData(p, k);
      && Inv(q) && Evolves(p, q)
      && q.ring == p.ring && q.posted == p.posted && q.accepted == p.accepted
      && (Clean(p) && !raise ==> Clean(q))
  {
    AdvanceDataKeepsGets(p, k);
    hide InvCore, InvPosted, InvRing, InvFlight, InvGets, DataPrefix;
    UpdateKeeps(p, AdvanceData(p, k).0);
  }

  lemma FinishFlushFrame(p: Peer, k: nat, result: Status)
    requires k in p.domains
    ensures var (q, raise) := FinishFlush(p, k, result);
      && q == p.(flight := q.flight, domains := q.domains, flushed := q.flushed)
      && |q.flight| == |p.flight| && p.flushed <= q.flushed
      && (forall i :: 0 <= i < |p.flight| ==> q.flight[i].desc == p.flight[i].desc)
      && (forall i :: 0 <= i < |p.flight| && q.flight[i].result == Success ==> p.flight[i].result == Success)
      && (!raise ==> q.flight == p.flight)
  {}

  lemma StartFlushFrame(p: Peer, k: nat, posted: Status, request: bool)
    requires k in p.domains
    ensures var (q, raise) := StartFlush(p, k, posted, request);
      && q == p.(flight := q.flight, domains := q.domains, snaps := q.snaps, flushed := q.flushed)
      && |q.flight| == |p.flight| && p.flushed <= q.flushed
      && (forall i :: 0 <= i < |p.flight| ==> q.flight[i].desc == p.flight[i].desc)
      && (forall i :: 0 <= i < |p.flight| && q.flight[i].result == Success ==> p.flight[i].result == Success)
      && (!raise ==> q.flight == p.flight)
  {
    hide FlushRange, Snapshot, FinishFlush;
    var d := p.domains[k];
    if !d.flushing && d.dataDone > d.visible {
      var retry := d.target > d.visible;
      var (d1, st) := if retry then (d, Success) else Visibility.BeginFlush(d);
      var p1 := p.(domains := p.domains[k := d1],
                   snaps := if retry then p.snaps
                            else p.snaps[k := Snapshot(p.flight, k, d.visible, d1.target)]);
      FinishFlushFrame(p1, k, posted);
    }
  }

  lemma StartFlushKeeps(p: Peer, k: nat, posted: Status, request: bool)
    requires Inv(p) && k in p.domains
    ensures var (q, raise) := StartFlush(p, k, posted, request);
      && Inv(q) && Evolves(p, q)
      && q.ring == p.ring && q.posted == p.posted && q.accepted == p.accepted
      && (Clean(p) && !raise ==> Clean(q))
  {
    StartFlushKeepsGets(p, k, posted, request);
    StartFlushFrame(p, k, posted, request);
    hide InvCore, InvPosted, InvRing, InvFlight, InvGets, StartFlush;
    UpdateKeeps(p, StartFlush(p, k, posted, request).0);
  }

  lemma PruneKeeps(p: Peer)
    requires Inv(p)
    ensures var q := Prune(p);
      && Inv(q) && AllReferenced(q) && Evolves(p, q)
      && q.ring == p.ring && q.posted == p.posted && q.accepted == p.accepted
      && (Clean(p) ==> Clean(q))
  {
    PruneKeepsGets(p);
    hide InvCore, InvPosted, InvRing, InvFlight, InvGets, AllReferenced, Referenced;
    UpdateKeeps(p, Prune(p));
  }

  // --------------------------------------------------------------------------- issuing

  /** The gate of a release: it opens exactly when every data member of its group succeeded. */
  lemma GateExact(p: Peer, d: Desc)
    requires InvGroups(p) && d in p.accepted && d.kind == Release && WellFormed(d)
    ensures d.group in p.board.groups
    ensures ReleaseAllowed(p, d) <==> AllSucceeded(p, d.group)
    ensures GroupTest(p.board.groups[d.group]).0 <==> forall m <- Members(p, d.group) :: IsSettled(p, m)
  {
    var k :| 0 <= k < |p.accepted| && p.accepted[k] == d;
    var g := d.group;
    assert GroupMatches(p, g);
    if OpenMembers(p, g) != {} {
      var m :| m in OpenMembers(p, g);
    } else {
      forall m | m in Members(p, g) ensures IsSettled(p, m) {
        assert IsSettled(p, m) || m in OpenMembers(p, g);
      }
    }
  }

  lemma MarkPostedGate(p: Peer, ts: set<nat>, n: nat)
    requires InvAccepted(p) && InvRing(p) && InvPosted(p) && n <= |p.ring|
    requires forall t <- ts :: exists i :: 0 <= i < n && p.ring[i].opSeq == t
    requires forall i :: 0 <= i < n ==>
      p.ring[i].kind != IpcGet && (p.ring[i].kind == Release ==> AllSucceeded(p, p.ring[i].group))
    ensures InvPosted(p.(posted := p.posted + ts))
  {
    var q := p.(posted := p.posted + ts);
    forall g | AllSucceeded(p, g) ensures AllSucceeded(q, g) { assert Members(q, g) == Members(p, g); }
    if p.ring != [] { RingHead(p); }
    hide AllSucceeded, InvAccepted, InvRing;
  }

  /** Ring heads may be recorded as posted. */
  lemma MarkPosted(p: Peer, ts: set<nat>, n: nat)
    requires Inv(p) && n <= |p.ring|
    requires forall t <- ts :: exists i :: 0 <= i < n && p.ring[i].opSeq == t
    requires forall i :: 0 <= i < n ==>
      p.ring[i].kind != IpcGet && (p.ring[i].kind == Release ==> AllSucceeded(p, p.ring[i].group))
    ensures Inv(p.(posted := p.posted + ts)) && Evolves(p, p.(posted := p.posted + ts))
  {
    var q := p.(posted := p.posted + ts);
    assert p.ring[0..] == p.ring;
    assert InvAccepted(p);
    hide InvBoard, InvGroups, InvCount, InvAccepted, InvPosted, AllSucceeded;
    CoreFrame(p, q, 0);
    MarkPostedGate(p, ts, n);
    hide InvCore;
    GetsFrame(p, q);
    hide InvGets;
  }

  lemma GetsFrame(p: Peer, q: Peer)
    requires InvGets(p) && q == p.(posted := q.posted)
    ensures InvGets(q)
  {
    forall k | k in q.domains ensures DomainOk(q.flight, Issued(q), k, q.domains[k]) {
      assert DomainOk(p.flight, Issued(p), k, p.domains[k]);
    }
    forall i | 0 <= i < |q.flight| ensures FlightOk(q, q.flight[i]) { assert FlightOk(p, p.flight[i]); }
  }

  lemma LaunchKeeps(p: Peer, fs: seq<Flight>)
    requires Inv(p) && |fs| <= |p.ring| && |p.flight| + |fs| <= p.queueSize
    requires forall i :: 0 <= i < |fs| ==>
      fs[i].desc == p.ring[i] && fs[i].getSeq == 0 && !fs[i].dataDone
      && (fs[i].desc.needsFlush ==> fs[i].result != Success)
    ensures Inv(LaunchAll(p, fs)) && Evolves(p, LaunchAll(p, fs))
  {
    assert InvAccepted(p) && |p.ring| <= p.opSeq;
    LaunchAllKeepsFlight(p, fs);
    LaunchPlainKeepsGets(p, fs);
    CoreFrame(p, LaunchAll(p, fs), |fs|);
    PostedFrame(p, LaunchAll(p, fs), |fs|);
    hide InvCore, InvPosted, InvFlight, InvGets, InvRing;
  }

  lemma LaunchGetKeeps(p: Peer, request: bool)
    requires Inv(p) && p.ring != [] && |p.flight| < p.queueSize && p.ring[0].needsFlush
    requires TrackGet(p, p.ring[0]).2 == Success
    ensures var (doms, n, st) := TrackGet(p, p.ring[0]);
      var q := Launch(p, Flight(p.ring[0], request, Success, false, n)).(domains := doms);
      Inv(q) && Evolves(p, q)
  {
    assert InvAccepted(p) && |p.ring| <= p.opSeq;
    LaunchGetKeepsGets(p, request);
    var (doms, n, st) := TrackGet(p, p.ring[0]);
    hide TrackGet;
    var f := Flight(p.ring[0], request, Success, false, n);
    var q := Launch(p, f).(domains := doms);
    LaunchKeepsFlight(p, f);
    UpdateKeepsFlight(Launch(p, f), q);
    LaunchKeepsRing(p, 1, p.flight + [f]);
    CoreFrame(p, q, 1);
    PostedFrame(p, q, 1);
    hide InvCore, InvPosted, InvFlight, InvGets, InvRing;
  }
}
