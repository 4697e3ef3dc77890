// Theorems about whole runs of the RMA proxy.

module RmaRuns {
  import opened Results
  import opened NetTransport
  import opened RmaIndex
  import opened RmaPeer
  import opened RmaBoard
  import opened RmaFlow
  import opened RmaGets
  import opened RmaSteps
  import opened RmaProgress
  import opened RmaIssue
  import opened RmaOutcome
  import opened RmaProxy
  import Visibility

  /** A run: states xs from the start state, one action between any two neighbours. */
  ghost predicate Run(xs: seq<Proxy>, acts: seq<Action>, nRanks: nat, queueSize: nat) {
    && 2 <= queueSize <= UINT32_MAX / 2
    && |xs| == |acts| + 1
    && xs[0] == NewProxy(nRanks, queueSize)
    && (forall i :: 0 <= i < |acts| ==>
          Shaped(xs[i]) && Can(xs[i], acts[i]) && xs[i + 1] == Apply(xs[i], acts[i]))
  }

  // ------------------------------------------------------------ success means posted

  ghost predicate OutcomeInv(x: Proxy) {
    forall i :: 0 <= i < |x.peers| ==> InvOutcome(x.peers[i])
  }

  lemma OutcomeAfter(x: Proxy, y: Proxy, i: nat)
    requires ProxyInv(x) && OutcomeInv(x) && PeerStep(x, y, i) && OutcomeStep(x.peers[i], y.peers[i])
    ensures OutcomeInv(y)
  {
    assert Inv(x.peers[i]) && InvOutcome(x.peers[i]);
    OutcomeKept(x.peers[i], y.peers[i]);
    hide InvOutcome, OutcomeStep, Inv, Evolves;
  }

  lemma ProducedOutcome(p: Peer, q: Peer)
    requires q.flight == p.flight && q.retired == p.retired
    ensures OutcomeStep(p, q)
  {}

  lemma QuietOutcome(x: Proxy, a: Action)
    requires ProxyInv(x) && Can(x, a) && (a.TryBatch? || a.TryRelease? || a.OpenGroup? || a.EndPoll?)
    ensures OutcomeInv(x) ==> OutcomeInv(Apply(x, a))
  {
    var i := if a.EndPoll? then x.phase.peer else a.peer;
    if a.EndPoll? { EndPollStep(x, a); } else { ProducerStep(x, a); }
    hide ProxyInv, OutcomeInv, Apply, Can;
    var y := Apply(x, a);
    ProducedOutcome(x.peers[i], y.peers[i]);
    hide PeerStep, OutcomeStep;
    if OutcomeInv(x) { OutcomeAfter(x, y, i); }
  }

  lemma PostedOutcome(x: Proxy, a: Action)
    requires ProxyInv(x) && Can(x, a) && a.IssueOne?
    ensures OutcomeStep(x.peers[x.phase.peer], Apply(x, a).peers[x.phase.peer])
  {
    hide Inv, OutcomeStep, Issue, Clean, AllReferenced;
    assert Inv(x.peers[x.phase.peer]);
    hide ProxyInv;
    IssueShape(x, a);
    IssueOutcome(x.peers[x.phase.peer], a.w);
  }

  lemma DrainedOutcome(x: Proxy, a: Action)
    requires ProxyInv(x) && Can(x, a) && a.DrainHead?
    ensures OutcomeStep(x.peers[x.phase.peer], Apply(x, a).peers[x.phase.peer])
  {
    hide Inv, OutcomeStep, DrainOne, Clean, AllReferenced;
    DrainShape(x, a);
    hide ProxyInv, Apply, Can;
    DrainOutcome(x.peers[x.phase.peer]);
  }

  lemma IssueActionOutcome(x: Proxy, a: Action)
    requires ProxyInv(x) && Can(x, a) && (a.IssueOne? || a.DrainHead?)
    ensures OutcomeInv(x) ==> OutcomeInv(Apply(x, a))
  {
    hide OutcomeInv, PeerStep, OutcomeStep, Issue, DrainOne;
    var y := Apply(x, a);
    var i := x.phase.peer;
    hide ProxyInv, Apply, Can;
    if a.IssueOne? {
      IssueStep(x, a);
      PostedOutcome(x, a);
    } else {
      DrainStep(x, a);
      DrainedOutcome(x, a);
    }
    if OutcomeInv(x) { OutcomeAfter(x, y, i); }
  }

  lemma ActionKeepsOutcome(x: Proxy, a: Action)
    requires ProxyInv(x) && Can(x, a) && OutcomeInv(x)
    ensures OutcomeInv(Apply(x, a))
  {
    if a.TryBatch? || a.TryRelease? || a.OpenGroup? || a.EndPoll? {
      QuietOutcome(x, a);
    } else if a.PollOne? || a.FlushDone? || a.MoveData? || a.PostFlush? || a.VisibleOne? {
      PollStep(x, a);
      PollActionOutcome(x, a);
      hide Apply, Can, OutcomeStep, PeerStep, OutcomeInv;
      OutcomeAfter(x, Apply(x, a), x.phase.peer);
    } else if a.IssueOne? || a.DrainHead? {
      IssueActionOutcome(x, a);
    } else {
      hide InvOutcome;
      assert Apply(x, a).peers == x.peers;
    }
  }

  lemma PollActionOutcome(x: Proxy, a: Action)
    requires ProxyInv(x) && Can(x, a)
    requires a.PollOne? || a.FlushDone? || a.MoveData? || a.PostFlush? || a.VisibleOne?
    ensures OutcomeStep(x.peers[x.phase.peer], Apply(x, a).peers[x.phase.peer])
  {
    hide OutcomeStep;
    if a.PollOne? || a.VisibleOne? { FlightActionOutcome(x, a); } else { DomainActionOutcome(x, a); }
  }

  lemma FlightActionOutcome(x: Proxy, a: Action)
    requires ProxyInv(x) && Can(x, a) && (a.PollOne? || a.VisibleOne?)
    ensures OutcomeStep(x.peers[x.phase.peer], Apply(x, a).peers[x.phase.peer])
  {
    hide OutcomeStep, PollFlight, RetireVisible, Inv, Clean, AllReferenced, LooksEmpty;
    PollOutcome(x.peers[x.phase.peer], a.i, if a.PollOne? then a.probe else NotDone);
  }

  lemma DomainActionOutcome(x: Proxy, a: Action)
    requires ProxyInv(x) && Can(x, a) && (a.FlushDone? || a.MoveData? || a.PostFlush?)
    ensures OutcomeStep(x.peers[x.phase.peer], Apply(x, a).peers[x.phase.peer])
  {
    hide OutcomeStep, FinishFlush, AdvanceData, StartFlush, Inv, Clean, AllReferenced, LooksEmpty;
    var p := x.peers[x.phase.peer];
    match a
    case FlushDone(k, result) => DomainOutcome(p, k, result, false);
    case MoveData(k) => DomainOutcome(p, k, Success, false);
    case PostFlush(k, posted, request) => DomainOutcome(p, k, posted, request);
  }

  // -------------------------------------------------------------- what is never undone

  /** Peer i takes no more descriptors: it is being drained or was, or passed its quiesce barrier. */
  ghost predicate Closed(x: Proxy, i: nat) { i in x.drained || i in x.barrier || x.phase == Draining(i) }

  /** The wrap of the indices lies inside the ring of peer i, and no test made before it got there
      is still being acted upon. */
  ghost predicate Stuck(x: Proxy, i: nat)
    requires i < |x.peers|
  {
    !InOneLap(x.peers[i]) && x.phase != Posting(i)
  }

  ghost predicate Idle(p: Peer) { p.ring == [] && p.flight == [] }

  /** y is a later state than x. */
  ghost predicate Later(x: Proxy, y: Proxy) {
    && |y.peers| == |x.peers|
    && (x.pending ==> y.pending) && (x.rmaError ==> y.rmaError)
    && (x.external ==> y.external) && (x.quiesced ==> y.quiesced)
    && x.drained <= y.drained && x.barrier <= y.barrier
    && (forall i :: 0 <= i < |x.peers| ==> LaterPeer(x, y, i))
  }

  ghost predicate LaterPeer(x: Proxy, y: Proxy, i: nat)
    requires i < |x.peers| && i < |y.peers|
  {
    && Evolves(x.peers[i], y.peers[i])
    && (x.pending ==> y.peers[i].posted == x.peers[i].posted)
    && Issued(x.peers[i]) <= Issued(y.peers[i])
    && (Closed(x, i) ==> Closed(y, i) && y.peers[i].accepted == x.peers[i].accepted)
    && (Closed(x, i) && Idle(x.peers[i]) ==> Idle(y.peers[i]))
    && (Stuck(x, i) ==> Stuck(y, i) && StaysStuck(x.peers[i], y.peers[i]))
  }

  /** Nothing left the ring any more. */
  ghost predicate StaysStuck(p: Peer, q: Peer) { Issued(q) == Issued(p) && (p.flight == [] ==> q.flight == []) }

  lemma LaterPeers(x: Proxy, y: Proxy)
    requires Later(x, y)
    ensures |y.peers| == |x.peers|
  {
    hide LaterPeer;
  }

  lemma SameIsLater(x: Proxy)
    ensures Later(x, x)
  {}

  lemma LaterTransitive(x: Proxy, y: Proxy, z: Proxy)
    requires Later(x, y) && Later(y, z)
    ensures Later(x, z)
  {
    forall i | 0 <= i < |x.peers| ensures LaterPeer(x, z, i) {
      assert LaterPeer(x, y, i) && LaterPeer(y, z, i);
      EvolvesTransitive(x.peers[i], y.peers[i], z.peers[i]);
      hide Evolves, Idle, InOneLap;
    }
  }

  /** The progress thread accepts nothing, and starts nothing on an idle peer. */
  lemma ProgressAccepts(p: Peer, a: Action)
    requires a.PollOne? || a.VisibleOne? ==> a.i < |p.flight|
    requires a.FlushDone? || a.MoveData? || a.PostFlush? ==> a.key in p.domains
    ensures a.PollOne? ==> PollFlight(p, a.i, a.probe).0.accepted == p.accepted
    ensures a.VisibleOne? ==> RetireVisible(p, a.i).0.accepted == p.accepted
    ensures a.FlushDone? ==>
      var q := FinishFlush(p, a.key, a.result).0; q.accepted == p.accepted && |q.flight| == |p.flight|
    ensures a.MoveData? ==> var q := AdvanceData(p, a.key).0; q.accepted == p.accepted && q.flight == p.flight
    ensures a.PostFlush? ==>
      var q := StartFlush(p, a.key, a.posted, a.request).0; q.accepted == p.accepted && |q.flight| == |p.flight|
    ensures a.IssueOne? && p.ring != [] ==>
      var q := Issue(p, a.w).0; q.accepted == p.accepted && q.opSeq == p.opSeq && |q.ring| <= |p.ring|
    ensures a.DrainHead? && p.ring != [] ==>
      var q := DrainOne(p); q.accepted == p.accepted && q.opSeq == p.opSeq && |q.ring| <= |p.ring|
  {
    hide TrackCompletion, FinishFlush, StartFlush, DataPrefix, Decide, BatchFlights, HeadSeqs, TrackGet;
    if a.FlushDone? { FinishFlushFrame(p, a.key, a.result); }
    if a.PostFlush? { StartFlushFrame(p, a.key, a.posted, a.request); }
  }

  lemma StepIsLater(x: Proxy, y: Proxy, i: nat)
    requires ProxyInv(x) && PeerStep(x, y, i)
    requires x.drained <= y.drained && PhaseMoves(x, y)
    requires Closed(x, i) ==> y.peers[i].accepted == x.peers[i].accepted
    requires Closed(x, i) && Idle(x.peers[i]) ==> Idle(y.peers[i])
    requires Issued(x.peers[i]) <= Issued(y.peers[i])
    requires Stuck(x, i) ==> StaysStuck(x.peers[i], y.peers[i])
    ensures Later(x, y)
  {
    hide Evolves, Inv, Idle, InOneLap, IssueGuarded, DrainedStay, BarrierHolds, Clean;
    assert Inv(x.peers[i]);
    if Stuck(x, i) { StuckStays(x.peers[i], y.peers[i]); }
    hide ProxyInv;
    forall j | 0 <= j < |x.peers| ensures LaterPeer(x, y, j) {
      if j != i { assert y.peers[j] == x.peers[j]; EvolvesSame(x.peers[j]); }
    }
  }

  /** A step of one peer starts neither a drain nor an iteration of the issue loop elsewhere. */
  ghost predicate PhaseMoves(x: Proxy, y: Proxy) {
    && (y.phase.Posting? ==> y.phase == x.phase)
    && (x.phase.Draining? ==> y.phase == x.phase)
  }

  lemma StuckStays(p: Peer, q: Peer)
    requires Inv(p) && Inv(q) && Evolves(p, q) && StaysStuck(p, q) && !InOneLap(p)
    ensures !InOneLap(q)
  {
    hide Inv, InOneLap;
    LooksEmptyExact(p);
    LooksEmptyExact(q);
    LapsOfRings(p, q);
  }

  lemma ProducerLater(x: Proxy, a: Action)
    requires ProxyInv(x) && Can(x, a) && (a.TryBatch? || a.TryRelease? || a.OpenGroup?)
    ensures Later(x, Apply(x, a))
  {
    hide Inv, Evolves, InOneLap, LooksEmpty, AllReferenced;
    ProducerStep(x, a);
    var y := Apply(x, a);
    assert Closed(x, a.peer) ==> a.OpenGroup?;
    assert y.drained == x.drained;
    hide PeerStep, EnqueueBatch, EnqueueReleaseGroup, ReleaseRun, ProxyInv;
    assert a.OpenGroup? ==> y.peers[a.peer] == InitGroup(x.peers[a.peer], a.group);
    hide Apply, Can;
    StepIsLater(x, y, a.peer);
  }

  lemma PollShape(x: Proxy, a: Action)
    requires ProxyInv(x) && Can(x, a)
    requires a.PollOne? || a.FlushDone? || a.MoveData? || a.PostFlush? || a.VisibleOne?
    ensures var p := x.peers[x.phase.peer]; var y := Apply(x, a);
      && y.peers[x.phase.peer].accepted == p.accepted && y.drained == x.drained && y.phase == x.phase
      && (p.flight == [] ==> y.peers[x.phase.peer].flight == [])
  {
    hide PollFlight, RetireVisible, FinishFlush, StartFlush, AdvanceData, Inv, Clean, AllReferenced;
    ProgressAccepts(x.peers[x.phase.peer], a);
    hide ProxyInv;
  }

  lemma ProgressLater(x: Proxy, a: Action)
    requires ProxyInv(x) && Can(x, a)
    requires a.PollOne? || a.FlushDone? || a.MoveData? || a.PostFlush? || a.VisibleOne?
    ensures Later(x, Apply(x, a))
  {
    PollStep(x, a);
    PollShape(x, a);
    hide PeerStep, ProxyInv, Apply, Can;
    StepIsLater(x, Apply(x, a), x.phase.peer);
  }

  lemma EndPollLater(x: Proxy, a: Action)
    requires ProxyInv(x) && Can(x, a) && a.EndPoll?
    ensures Later(x, Apply(x, a))
  {
    hide PeerStep, Prune, Inv, Evolves, InOneLap, AllReferenced;
    var i := x.phase.peer;
    EndPollStep(x, a);
    hide ProxyInv;
    var y := Apply(x, a);
    assert y.peers[i].accepted == x.peers[i].accepted && y.drained == x.drained;
    hide Apply, Can;
    StepIsLater(x, y, i);
  }

  lemma IssueLater(x: Proxy, a: Action)
    requires ProxyInv(x) && Can(x, a) && a.IssueOne?
    ensures Later(x, Apply(x, a))
  {
    IssueStep(x, a);
    IssueShape(x, a);
    ProgressAccepts(x.peers[x.phase.peer], a);
    hide PeerStep, ProxyInv, Issue, Apply, Can;
    StepIsLater(x, Apply(x, a), x.phase.peer);
  }

  lemma DrainShape(x: Proxy, a: Action)
    requires Shaped(x) && Can(x, a) && a.DrainHead?
    ensures var y := Apply(x, a); var i := x.phase.peer;
      && x.phase.Draining? && x.peers[i].ring != [] && !LooksEmpty(x.peers[i])
      && y.peers[i] == DrainOne(x.peers[i]) && y.drained == x.drained && y.phase == x.phase
  {
    hide DrainOne;
  }

  lemma DrainLater(x: Proxy, a: Action)
    requires ProxyInv(x) && Can(x, a) && a.DrainHead?
    ensures Later(x, Apply(x, a))
  {
    hide PeerStep, DrainOne, Inv, Evolves, LooksEmpty, InOneLap;
    var i := x.phase.peer;
    DrainStep(x, a);
    DrainShape(x, a);
    LooksEmptyExact(x.peers[i]);
    ProgressAccepts(x.peers[i], a);
    hide ProxyInv, Apply, Can;
    StepIsLater(x, Apply(x, a), i);
  }

  lemma PlainLater(x: Proxy, a: Action)
    requires ProxyInv(x) && Can(x, a)
    requires a.Enter? || a.TestRing? || a.EndDrain? || a.FinishPass? || a.ExternalError? || a.Quiesce? || a.PassBarrier?
    ensures Later(x, Apply(x, a))
  {
    hide Evolves, Idle, InOneLap, LooksEmpty, Inv, Clean, AllReferenced;
    var y := Apply(x, a);
    assert y.peers == x.peers;
    if a.TestRing? { LooksEmptyExact(x.peers[x.phase.peer]); }
    hide ProxyInv;
    forall i | 0 <= i < |x.peers| ensures LaterPeer(x, y, i) { EvolvesSame(x.peers[i]); }
  }

  lemma ActionLater(x: Proxy, a: Action)
    requires ProxyInv(x) && Can(x, a)
    ensures Later(x, Apply(x, a))
  {
    if a.TryBatch? || a.TryRelease? || a.OpenGroup? {
      ProducerLater(x, a);
    } else if a.PollOne? || a.FlushDone? || a.MoveData? || a.PostFlush? || a.VisibleOne? {
      ProgressLater(x, a);
    } else if a.EndPoll? {
      EndPollLater(x, a);
    } else if a.IssueOne? {
      IssueLater(x, a);
    } else if a.DrainHead? {
      DrainLater(x, a);
    } else {
      PlainLater(x, a);
    }
  }

  // ------------------------------------------------------------------------------ runs

  /** Every state of a run satisfies the invariants. */
  lemma {:induction false} RunInv(xs: seq<Proxy>, acts: seq<Action>, nRanks: nat, queueSize: nat, i: nat)
    requires Run(xs, acts, nRanks, queueSize) && i < |xs|
    ensures ProxyInv(xs[i]) && OutcomeInv(xs[i])
    decreases i
  {
    hide ProxyInv, OutcomeInv, Apply, Can;
    if i == 0 {
      NewProxyInv(nRanks, queueSize);
      StartOutcome(nRanks, queueSize);
    } else {
      RunInv(xs, acts, nRanks, queueSize, i - 1);
      assert Shaped(xs[i - 1]) && Can(xs[i - 1], acts[i - 1]) && xs[i - 1 + 1] == Apply(xs[i - 1], acts[i - 1]);
      ActionKeepsInv(xs[i - 1], acts[i - 1]);
      ActionKeepsOutcome(xs[i - 1], acts[i - 1]);
    }
  }

  lemma StartOutcome(nRanks: nat, queueSize: nat)
    ensures OutcomeInv(NewProxy(nRanks, queueSize))
  {
    assert InvOutcome(NewPeer(queueSize));
    hide InvOutcome;
  }

  lemma {:induction false} RunLater(xs: seq<Proxy>, acts: seq<Action>, nRanks: nat, queueSize: nat, i: nat, j: nat)
    requires Run(xs, acts, nRanks, queueSize) && i <= j < |xs|
    ensures Later(xs[i], xs[j])
    decreases j
  {
    hide ProxyInv, OutcomeInv, Apply, Can, Later;
    if i == j {
      SameIsLater(xs[i]);
    } else {
      RunLater(xs, acts, nRanks, queueSize, i, j - 1);
      RunInv(xs, acts, nRanks, queueSize, j - 1);
      assert Shaped(xs[j - 1]) && Can(xs[j - 1], acts[j - 1]) && xs[j - 1 + 1] == Apply(xs[j - 1], acts[j - 1]);
      ActionLater(xs[j - 1], acts[j - 1]);
      LaterTransitive(xs[i], xs[j - 1], xs[j]);
    }
  }
}
