// The whole RMA proxy (flagcx/core/flagcx_hetero.cc): one progress thread that walks the peers, any
// number of producer threads, and a sticky error. Threads interleave at the granularity of the
// actions below; everything they may observe or be answered is an argument of the action.

module RmaProxy {
  import opened Results
  import opened NetTransport
  import opened RmaPeer
  import opened RmaBoard
  import opened RmaFlow
  import opened RmaGets
  import opened RmaSteps
  import opened RmaProgress
  import opened RmaIssue
  import Visibility

  /** Where the progress thread is inside its pass. While issuing it tests the ring without the
      producer mutex; in Posting the test has found a descriptor. */
  datatype Phase =
    Polling(peer: nat) | Issuing(peer: nat) | Posting(peer: nat) | Draining(peer: nat) | PassEnd

  /** `locked[i]`: a producer that has passed the checks holds the mutex of peer i. `external`
      records that something other than the progress loop set rmaError. `drained` and `barrier`
      record which drains and quiesce barriers have been passed. */
  datatype Proxy = Proxy(
    peers: seq<Peer>, locked: seq<bool>, phase: Phase,
    pending: bool, rmaError: bool, quiesced: bool,
    external: bool, drained: set<nat>, barrier: set<nat>)

  datatype Action =
    | Enter(peer: nat)
    | TryBatch(peer: nat, ds: seq<Desc>)
    | TryRelease(peer: nat, data: seq<Desc>, release: Desc)
    | OpenGroup(peer: nat, group: nat)
    | PollOne(i: nat, probe: Probe)
    | FlushDone(key: nat, result: Status)
    | MoveData(key: nat)
    | PostFlush(key: nat, posted: Status, request: bool)
    | VisibleOne(i: nat)
    | EndPoll(sendComm: bool, stopping: bool)
    | TestRing
    | IssueOne(w: World)
    | DrainHead
    | EndDrain
    | FinishPass
    | ExternalError
    | Quiesce
    | PassBarrier(peer: nat)

  function NewProxy(nRanks: nat, queueSize: nat): Proxy {
    Proxy(seq(nRanks, _ => NewPeer(queueSize)), seq(nRanks, _ => false),
          if nRanks == 0 then PassEnd else Polling(0), false, false, false, false, {}, {})
  }

  ghost predicate Shaped(x: Proxy) {
    && |x.locked| == |x.peers|
    && (!x.phase.PassEnd? ==> x.phase.peer < |x.peers|)
  }

  function NextPeer(x: Proxy, i: nat): Phase {
    if i + 1 < |x.peers| then Polling(i + 1) else PassEnd
  }

  /** The poisoned branch: no submissions once an error is pending or published. */
  predicate Poisoned(x: Proxy) { x.pending || x.rmaError }

  ghost predicate Can(x: Proxy, a: Action)
    requires Shaped(x)
  {
    match a
    case Enter(i) =>
      && i < |x.peers| && !x.locked[i] && x.phase != Draining(i)
      && !x.quiesced && !Poisoned(x)
    case TryBatch(i, ds) =>
      && i < |x.peers| && x.locked[i]
      && (forall d <- ds :: WellFormed(d) && d.group == 0)
    case TryRelease(i, data, release) =>
      && i < |x.peers| && x.locked[i] && ReleaseRun(x.peers[i], data, release)
    case OpenGroup(i, g) => i < |x.peers| && g != 0 && g !in x.peers[i].board.groups
    case PollOne(i, probe) =>
      x.phase.Polling? && i < |x.peers[x.phase.peer].flight| && probe != Failed(Success)
    case FlushDone(k, _) =>
      x.phase.Polling? && k in x.peers[x.phase.peer].domains && x.peers[x.phase.peer].domains[k].flushing
    case MoveData(k) => x.phase.Polling? && k in x.peers[x.phase.peer].domains
    case PostFlush(k, _, _) => x.phase.Polling? && k in x.peers[x.phase.peer].domains
    case VisibleOne(i) => x.phase.Polling? && i < |x.peers[x.phase.peer].flight|
    case EndPoll(_, _) => x.phase.Polling? && (Poisoned(x) ==> !x.locked[x.phase.peer])
    case TestRing => x.phase.Issuing?
    case IssueOne(_) => x.phase.Posting? && x.peers[x.phase.peer].ring != []
    case DrainHead => x.phase.Draining? && !LooksEmpty(x.peers[x.phase.peer])
    case EndDrain => x.phase.Draining? && LooksEmpty(x.peers[x.phase.peer])
    case FinishPass => x.phase.PassEnd?
    case ExternalError => true
    case Quiesce => true
    case PassBarrier(i) => i < |x.peers| && x.quiesced && !x.locked[i] && x.phase != Draining(i)
  }

  function WithPeer(x: Proxy, i: nat, r: (Peer, bool)): Proxy
    requires i < |x.peers|
  {
    x.(peers := x.peers[i := r.0], pending := x.pending || r.1)
  }

  /** The decision after polling: drain (which needs the producer mutex), issue, report a missing
      connection, or move on. While stopping, a missing connection makes the peer drain next. */
  function AfterPoll(x: Proxy, i: nat, sendComm: bool, stopping: bool): Proxy
    requires i < |x.peers|
  {
    var p := x.peers[i];
    if Poisoned(x) then x.(phase := Draining(i))
    else if p.ring != [] && (sendComm || p.ring[0].kind == IpcGet) then x.(phase := Issuing(i))
    else if p.ring != [] then x.(pending := true, phase := if stopping then Polling(i) else NextPeer(x, i))
    else x.(phase := NextPeer(x, i))
  }

  ghost function Apply(x: Proxy, a: Action): Proxy
    requires Shaped(x) && Can(x, a)
  {
    match a
    case Enter(i) => x.(locked := x.locked[i := true])
    case TryBatch(i, ds) =>
      x.(peers := x.peers[i := EnqueueBatch(x.peers[i], ds).0], locked := x.locked[i := false])
    case TryRelease(i, data, release) =>
      x.(peers := x.peers[i := EnqueueReleaseGroup(x.peers[i], data, release).0],
         locked := x.locked[i := false])
    case OpenGroup(i, g) => x.(peers := x.peers[i := InitGroup(x.peers[i], g)])
    case PollOne(i, probe) => WithPeer(x, x.phase.peer, PollFlight(x.peers[x.phase.peer], i, probe))
    case FlushDone(k, result) => WithPeer(x, x.phase.peer, FinishFlush(x.peers[x.phase.peer], k, result))
    case MoveData(k) => WithPeer(x, x.phase.peer, AdvanceData(x.peers[x.phase.peer], k))
    case PostFlush(k, posted, request) =>
      WithPeer(x, x.phase.peer, StartFlush(x.peers[x.phase.peer], k, posted, request))
    case VisibleOne(i) => WithPeer(x, x.phase.peer, RetireVisible(x.peers[x.phase.peer], i))
    case EndPoll(sendComm, stopping) =>
      var i := x.phase.peer;
      AfterPoll(x.(peers := x.peers[i := Prune(x.peers[i])]), i, sendComm, stopping)
    case TestRing =>
      var i := x.phase.peer;
      x.(phase := if LooksEmpty(x.peers[i]) then NextPeer(x, i) else Posting(i))
    case IssueOne(w) =>
      var i := x.phase.peer;
      var (q, raise, again) := Issue(x.peers[i], w);
      WithPeer(x, i, (q, raise)).(phase := if again then Issuing(i) else NextPeer(x, i))
    case DrainHead => WithPeer(x, x.phase.peer, (DrainOne(x.peers[x.phase.peer]), true))
    case EndDrain => x.(phase := NextPeer(x, x.phase.peer), drained := x.drained + {x.phase.peer})
    case FinishPass =>
      var idle := forall i :: 0 <= i < |x.peers| ==> x.peers[i].flight == [];
      x.(rmaError := x.rmaError || (x.pending && idle),
         phase := if x.peers == [] then PassEnd else Polling(0))
    case ExternalError => x.(rmaError := true, external := true)
    case Quiesce => x.(quiesced := true)
    case PassBarrier(i) => x.(barrier := x.barrier + {i})
  }

  // --------------------------------------------------------------------------- invariant

  ghost predicate PeersInv(x: Proxy) {
    forall i :: 0 <= i < |x.peers| ==> Inv(x.peers[i])
  }

  /** Until an error is pending nothing has failed. */
  ghost predicate CleanUntilPending(x: Proxy) {
    !x.pending ==> forall i :: 0 <= i < |x.peers| ==> Clean(x.peers[i])
  }

  /** Submissions happen only while no error is pending, on a pruned domain table and a peer that
      was never drained. */
  ghost predicate IssueGuarded(x: Proxy)
    requires Shaped(x)
  {
    && (x.phase.Issuing? || x.phase.Posting? ==>
          !x.pending && AllReferenced(x.peers[x.phase.peer]) && x.phase.peer !in x.drained)
    && (x.phase.Posting? ==> x.peers[x.phase.peer].ring != [])
  }

  /** The error is published only once no peer has a request in progress. */
  ghost predicate PublishedIdle(x: Proxy) {
    x.rmaError && !x.external ==>
      x.pending && forall i :: 0 <= i < |x.peers| ==> x.peers[i].flight == []
  }

  /** A drained peer looks empty and can never be handed another descriptor. */
  ghost predicate DrainedStay(x: Proxy)
    requires Shaped(x)
  {
    && (x.phase.Draining? ==> Poisoned(x) && !x.locked[x.phase.peer])
    && (forall i <- x.drained ::
          i < |x.peers| && Poisoned(x) && !x.locked[i] && LooksEmpty(x.peers[i]))
  }

  ghost predicate BarrierHolds(x: Proxy)
    requires Shaped(x)
  {
    forall i <- x.barrier :: i < |x.peers| && x.quiesced && !x.locked[i]
  }

  /** The guards that depend on phase and locks. */
  ghost predicate Guards(x: Proxy)
    requires Shaped(x)
  {
    IssueGuarded(x) && DrainedStay(x) && BarrierHolds(x)
  }

  ghost predicate ProxyInv(x: Proxy) {
    && Shaped(x) && PeersInv(x) && CleanUntilPending(x) && PublishedIdle(x) && Guards(x)
  }

  lemma NewProxyInv(nRanks: nat, queueSize: nat)
    requires 2 <= queueSize <= UINT32_MAX / 2
    ensures ProxyInv(NewProxy(nRanks, queueSize))
  {
    hide Inv, AllReferenced, Clean, NewPeer;
    NewPeerInv(queueSize);
    NewPeerClean(queueSize);
  }

  lemma NewPeerClean(queueSize: nat)
    ensures Clean(NewPeer(queueSize)) && NewPeer(queueSize).flight == []
  {}

  // ---------------------------------------------------------------- one peer at a time

  /** What an action may do to the one peer it is about. */
  ghost predicate PeerStep(x: Proxy, y: Proxy, i: nat) {
    && i < |x.peers| && |y.peers| == |x.peers| && y.peers == x.peers[i := y.peers[i]]
    && Inv(y.peers[i]) && Evolves(x.peers[i], y.peers[i])
    && (x.pending ==> y.pending && y.peers[i].posted == x.peers[i].posted)
    && (!y.pending ==> Clean(y.peers[i]))
    && (x.pending && x.peers[i].flight == [] ==> y.peers[i].flight == [])
    && y.rmaError == x.rmaError && y.external == x.external && y.quiesced == x.quiesced && y.barrier == x.barrier
  }

  /** A producer's attempt shows only in the ring, the board and the sequence numbers. */
  ghost predicate Produced(p: Peer, q: Peer) {
    && Inv(q) && Evolves(p, q)
    && q.flight == p.flight && q.domains == p.domains && q.posted == p.posted && q.retired == p.retired
    && p.ring <= q.ring && Issued(q) == Issued(p)
  }

  lemma AcceptProduces(p: Peer, run: seq<Desc>, b: Board)
    requires Inv(Accept(p, run, b))
    ensures Produced(p, Accept(p, run, b))
  {
    hide Inv;
  }

  lemma ProduceBatch(p: Peer, ds: seq<Desc>)
    requires Inv(p) && (forall d <- ds :: WellFormed(d) && d.group == 0)
    ensures Produced(p, EnqueueBatch(p, ds).0)
  {
    EnqueueBatchKeeps(p, ds);
    hide Inv, TrackAll, Produced;
    if EnqueueBatch(p, ds).0 != p {
      AcceptProduces(p, Stamp(ds, p.opSeq), TrackAll(p.board, Stamp(ds, p.opSeq)).0);
    } else {
      UnchangedProduces(p);
    }
  }

  lemma UnchangedProduces(p: Peer)
    requires Inv(p)
    ensures Produced(p, p)
  {
    hide Inv;
  }

  lemma ProduceRelease(p: Peer, data: seq<Desc>, release: Desc)
    requires Inv(p) && ReleaseRun(p, data, release)
    ensures Produced(p, EnqueueReleaseGroup(p, data, release).0)
  {
    hide Inv, TrackAll, Members, ReleaseRun, Produced, GroupSeal, Stamp, Accept;
    EnqueueReleaseKeeps(p, data, release);
    var q := EnqueueReleaseGroup(p, data, release).0;
    if q != p {
      AcceptProduces(p, Stamp(data + [release], p.opSeq), AfterSeal(p, data, release));
    } else {
      UnchangedProduces(p);
    }
  }

  /** The board of a published release group, as the enqueue leaves it. */
  function AfterSeal(p: Peer, data: seq<Desc>, release: Desc): Board {
    var b := TrackAll(p.board, Stamp(data + [release], p.opSeq)).0;
    if release.group in b.groups
    then b.(groups := b.groups[release.group := GroupSeal(b.groups[release.group]).0]) else b
  }

  lemma ProduceGroup(p: Peer, g: nat)
    requires Inv(p) && g != 0 && g !in p.board.groups
    ensures Produced(p, InitGroup(p, g))
  {
    InitGroupKeeps(p, g);
    hide Inv;
  }

  lemma ProducedStep(x: Proxy, y: Proxy, i: nat, q: Peer)
    requires ProxyInv(x) && i < |x.peers| && Produced(x.peers[i], q)
    requires y == x.(peers := x.peers[i := q], locked := y.locked)
    ensures PeerStep(x, y, i)
    ensures AllReferenced(x.peers[i]) ==> AllReferenced(q)
    ensures q.flight == x.peers[i].flight && q.retired == x.peers[i].retired
    ensures x.peers[i].ring <= q.ring && Issued(q) == Issued(x.peers[i])
  {
    if AllReferenced(x.peers[i]) { ReferencesFrame(x.peers[i], q); }
    hide Inv, Evolves, AllReferenced, PeersInv;
  }

  lemma ProducerStep(x: Proxy, a: Action)
    requires ProxyInv(x) && Can(x, a) && (a.TryBatch? || a.TryRelease? || a.OpenGroup?)
    ensures PeerStep(x, Apply(x, a), a.peer)
    ensures AllReferenced(x.peers[a.peer]) ==> AllReferenced(Apply(x, a).peers[a.peer])
    ensures Apply(x, a).peers[a.peer].flight == x.peers[a.peer].flight
    ensures Apply(x, a).peers[a.peer].retired == x.peers[a.peer].retired
    ensures x.peers[a.peer].ring <= Apply(x, a).peers[a.peer].ring
    ensures Issued(Apply(x, a).peers[a.peer]) == Issued(x.peers[a.peer])
  {
    var p := x.peers[a.peer];
    assert Inv(p);
    hide ProxyInv, Inv, AllReferenced, PeerStep, Produced, ReleaseRun;
    match a
    case TryBatch(i, ds) =>
      ProduceBatch(p, ds);
      ProducedStep(x, Apply(x, a), i, EnqueueBatch(p, ds).0);
    case TryRelease(i, data, release) =>
      ProduceRelease(p, data, release);
      ProducedStep(x, Apply(x, a), i, EnqueueReleaseGroup(p, data, release).0);
    case OpenGroup(i, g) =>
      ProduceGroup(p, g);
      ProducedStep(x, Apply(x, a), i, InitGroup(p, g));
  }

  /** Neither end of the ring moved. */
  predicate SameRing(p: Peer, q: Peer) { q.ring == p.ring && q.accepted == p.accepted && q.opSeq == p.opSeq }

  lemma SameRingLooks(p: Peer, q: Peer)
    requires SameRing(p, q)
    ensures LooksEmpty(q) == LooksEmpty(p) && InOneLap(q) == InOneLap(p)
  {}

  /** A polling step of the progress thread: nothing is posted, and no request appears. */
  ghost predicate Polled(p: Peer, q: Peer, raise: bool) {
    && Inv(q) && Evolves(p, q)
    && (Clean(p) && !raise ==> Clean(q))
    && q.posted == p.posted && SameRing(p, q)
    && (p.flight == [] ==> q.flight == [])
  }

  lemma PolledOne(p: Peer, i: nat, probe: Probe)
    requires Inv(p) && i < |p.flight| && probe != Failed(Success)
    ensures var (q, raise) := PollFlight(p, i, probe); Polled(p, q, raise)
    ensures var (q, raise) := RetireVisible(p, i); Polled(p, q, raise)
  {
    hide Inv, Evolves, Clean, PollFlight, RetireVisible, LooksEmpty, InOneLap;
    PollFlightKeeps(p, i, probe);
    RetireVisibleKeeps(p, i);
    LooksEmptyExact(p);
    LooksEmptyExact(PollFlight(p, i, probe).0);
    LooksEmptyExact(RetireVisible(p, i).0);
  }

  lemma PolledDomain(p: Peer, k: nat, result: Status, request: bool)
    requires Inv(p) && k in p.domains
    ensures var (q, raise) := AdvanceData(p, k); Polled(p, q, raise)
    ensures var (q, raise) := StartFlush(p, k, result, request); Polled(p, q, raise)
    ensures p.domains[k].flushing ==> var (q, raise) := FinishFlush(p, k, result); Polled(p, q, raise)
  {
    AdvanceDataKeeps(p, k);
    StartFlushKeeps(p, k, result, request);
    StartFlushFrame(p, k, result, request);
    FinishFlushFrame(p, k, result);
    if p.domains[k].flushing {
      FlushingIsAhead(p, k);
      FinishFlushKeeps(p, k, result);
    }
    hide Inv, Evolves, Clean, StartFlush, FinishFlush, DataPrefix;
  }

  lemma PolledStep(x: Proxy, y: Proxy, q: Peer, raise: bool)
    requires ProxyInv(x) && x.phase.Polling? && Polled(x.peers[x.phase.peer], q, raise)
    requires y == WithPeer(x, x.phase.peer, (q, raise))
    ensures PeerStep(x, y, x.phase.peer)
    ensures SameRing(x.peers[x.phase.peer], y.peers[x.phase.peer])
  {
    hide Inv, Evolves, AllReferenced, PeersInv;
  }

  lemma FlightStep(x: Proxy, a: Action)
    requires ProxyInv(x) && Can(x, a) && (a.PollOne? || a.VisibleOne?)
    ensures PeerStep(x, Apply(x, a), x.phase.peer)
    ensures SameRing(x.peers[x.phase.peer], Apply(x, a).peers[x.phase.peer])
  {
    var p := x.peers[x.phase.peer];
    assert Inv(p);
    hide ProxyInv, Inv, PeerStep, Polled, WithPeer;
    if a.PollOne? {
      PolledOne(p, a.i, a.probe);
      PolledStep(x, Apply(x, a), PollFlight(p, a.i, a.probe).0, PollFlight(p, a.i, a.probe).1);
    } else {
      PolledOne(p, a.i, NotDone);
      PolledStep(x, Apply(x, a), RetireVisible(p, a.i).0, RetireVisible(p, a.i).1);
    }
  }

  lemma PollStep(x: Proxy, a: Action)
    requires ProxyInv(x) && Can(x, a)
    requires a.PollOne? || a.FlushDone? || a.MoveData? || a.PostFlush? || a.VisibleOne?
    ensures PeerStep(x, Apply(x, a), x.phase.peer)
    ensures SameRing(x.peers[x.phase.peer], Apply(x, a).peers[x.phase.peer])
  {
    if a.PollOne? || a.VisibleOne? {
      FlightStep(x, a);
    } else {
      DomainStep(x, a);
    }
  }

  lemma DomainStep(x: Proxy, a: Action)
    requires ProxyInv(x) && Can(x, a) && (a.FlushDone? || a.MoveData? || a.PostFlush?)
    ensures PeerStep(x, Apply(x, a), x.phase.peer)
    ensures SameRing(x.peers[x.phase.peer], Apply(x, a).peers[x.phase.peer])
  {
    hide Inv, PeerStep, Polled, WithPeer, FinishFlush, StartFlush, AdvanceData;
    var p := x.peers[x.phase.peer];
    assert Inv(p);
    hide ProxyInv;
    match a
    case FlushDone(k, result) =>
      PolledDomain(p, k, result, false);
      PolledStep(x, Apply(x, a), FinishFlush(p, k, result).0, FinishFlush(p, k, result).1);
    case MoveData(k) =>
      PolledDomain(p, k, Success, false);
      PolledStep(x, Apply(x, a), AdvanceData(p, k).0, AdvanceData(p, k).1);
    case PostFlush(k, posted, request) =>
      PolledDomain(p, k, posted, request);
      PolledStep(x, Apply(x, a), StartFlush(p, k, posted, request).0, StartFlush(p, k, posted, request).1);
  }

  lemma PrunedStep(x: Proxy, y: Proxy, q: Peer)
    requires ProxyInv(x) && x.phase.Polling? && Polled(x.peers[x.phase.peer], q, false)
    requires y == x.(peers := x.peers[x.phase.peer := q], pending := y.pending, phase := y.phase)
    requires x.pending ==> y.pending
    ensures PeerStep(x, y, x.phase.peer)
    ensures y.peers[x.phase.peer] == q
  {
    hide Inv, Evolves, AllReferenced, PeersInv;
  }

  lemma PrunedPeer(p: Peer)
    requires Inv(p)
    ensures Polled(p, Prune(p), false) && AllReferenced(Prune(p))
  {
    PruneKeeps(p);
    assert Prune(p).flight == p.flight;
    hide Inv, Evolves, Prune;
  }

  lemma EndPollStep(x: Proxy, a: Action)
    requires ProxyInv(x) && Can(x, a) && a.EndPoll?
    ensures var y := Apply(x, a); var i := x.phase.peer;
      && PeerStep(x, y, i) && AllReferenced(y.peers[i]) && SameRing(x.peers[i], y.peers[i])
      && y.peers[i].flight == x.peers[i].flight && y.peers[i].retired == x.peers[i].retired
  {
    hide Inv, AllReferenced, PeerStep, Polled;
    var p := x.peers[x.phase.peer];
    assert Inv(p);
    PrunedPeer(p);
    assert Prune(p) == p.(domains := Prune(p).domains);
    hide ProxyInv, Prune;
    PrunedStep(x, Apply(x, a), Prune(p));
  }

  /** The test and the iteration after it are two moments: producers may add in between, but a ring
      that was found not to be empty still is not. */
  lemma PostingCanGoOn(x: Proxy, w: World)
    requires ProxyInv(x) && x.phase.Posting?
    ensures Can(x, IssueOne(w))
  {
    hide PeersInv, Clean, AllReferenced;
  }

  /** Issuing: the loop goes on only while no error has been recorded. */
  lemma IssueStep(x: Proxy, a: Action)
    requires ProxyInv(x) && Can(x, a) && a.IssueOne?
    ensures var y := Apply(x, a); var i := x.phase.peer;
      PeerStep(x, y, i) && !y.phase.Posting? && (y.phase.Issuing? ==> !y.pending && AllReferenced(y.peers[i]))
  {
    hide Inv, Evolves, AllReferenced, Clean, Issue, LooksEmpty, InOneLap;
    IssueShape(x, a);
    var p := x.peers[x.phase.peer];
    assert Inv(p) && !x.pending && Clean(p) && AllReferenced(p);
    hide PeersInv, CleanUntilPending, PublishedIdle, Guards, Apply, Can;
    IssueKeeps(p, a.w);
  }

  lemma DrainStep(x: Proxy, a: Action)
    requires ProxyInv(x) && Can(x, a) && a.DrainHead?
    ensures PeerStep(x, Apply(x, a), x.phase.peer)
  {
    hide Inv, Evolves, AllReferenced, Clean, DrainOne;
    var p := x.peers[x.phase.peer];
    assert Inv(p) && p.ring != [];
    hide PeersInv, LooksEmpty;
    DrainOneKeeps(p);
  }

  // ------------------------------------------------------------------- every action

  lemma PeersAfter(x: Proxy, y: Proxy, i: nat)
    requires ProxyInv(x) && PeerStep(x, y, i)
    ensures PeersInv(y) && CleanUntilPending(y) && PublishedIdle(y)
  {
    hide Inv, Evolves, Clean;
  }

  /** A producer that holds the mutex of peer i changed it. */
  lemma ProducedGuards(x: Proxy, y: Proxy, i: nat)
    requires ProxyInv(x) && i < |x.peers| && |y.peers| == |x.peers| && |y.locked| == |x.locked|
    requires y == x.(peers := x.peers[i := y.peers[i]], locked := y.locked)
    requires y.locked == x.locked || y.locked == x.locked[i := false]
    requires x.locked[i] || LooksEmpty(y.peers[i]) == LooksEmpty(x.peers[i])
    requires y.peers[i].ring == [] ==> x.peers[i].ring == []
    requires AllReferenced(x.peers[i]) ==> AllReferenced(y.peers[i])
    ensures Shaped(y) && Guards(y)
  {
    hide PeersInv, CleanUntilPending, PublishedIdle, AllReferenced;
  }

  lemma ProducerGuards(x: Proxy, a: Action)
    requires ProxyInv(x) && Can(x, a) && (a.TryBatch? || a.TryRelease? || a.OpenGroup?)
    ensures var y := Apply(x, a); Shaped(y) && Guards(y)
  {
    hide AllReferenced, PeerStep, EnqueueBatch, EnqueueReleaseGroup, ReleaseRun, Inv, Evolves, Clean;
    ProducerStep(x, a);
    hide ProxyInv;
    ProducedGuards(x, Apply(x, a), a.peer);
  }

  /** The progress thread changed peer i and moved on. */
  lemma ProgressGuards(x: Proxy, y: Proxy, i: nat)
    requires ProxyInv(x) && i < |x.peers| && |y.peers| == |x.peers|
    requires y == x.(peers := x.peers[i := y.peers[i]], pending := y.pending, phase := y.phase)
    requires x.pending ==> y.pending
    requires i in x.drained ==> LooksEmpty(y.peers[i])
    requires Shaped(y) && IssueGuarded(y)
    requires y.phase.Draining? ==> Poisoned(y) && !y.locked[y.phase.peer]
    ensures Guards(y)
  {
    hide PeersInv, CleanUntilPending, PublishedIdle, AllReferenced;
  }

  lemma PollGuards(x: Proxy, a: Action)
    requires ProxyInv(x) && Can(x, a)
    requires a.PollOne? || a.FlushDone? || a.MoveData? || a.PostFlush? || a.VisibleOne?
    ensures var y := Apply(x, a); Shaped(y) && Guards(y)
  {
    hide LooksEmpty, InOneLap, SameRing, Inv, Evolves, Clean;
    var y := Apply(x, a);
    PollStep(x, a);
    SameRingLooks(x.peers[x.phase.peer], y.peers[x.phase.peer]);
    hide PeerStep, PollFlight, FinishFlush, AdvanceData, StartFlush, RetireVisible, ProxyInv, AllReferenced;
    assert Shaped(y) && y == x.(peers := x.peers[x.phase.peer := y.peers[x.phase.peer]], pending := y.pending);
    ProgressGuards(x, y, x.phase.peer);
  }

  lemma EndPollGuards(x: Proxy, a: Action)
    requires ProxyInv(x) && Can(x, a) && a.EndPoll?
    ensures var y := Apply(x, a); Shaped(y) && Guards(y)
  {
    hide PeerStep, Prune, AllReferenced, LooksEmpty, Evolves, Inv;
    var y := Apply(x, a);
    EndPollStep(x, a);
    SameRingLooks(x.peers[x.phase.peer], y.peers[x.phase.peer]);
    hide ProxyInv;
    ProgressGuards(x, y, x.phase.peer);
  }

  lemma IssueShape(x: Proxy, a: Action)
    requires Shaped(x) && Can(x, a) && a.IssueOne?
    ensures var y := Apply(x, a); var i := x.phase.peer;
      var (q, raise, again) := Issue(x.peers[i], a.w);
      && x.phase.Posting? && x.peers[i].ring != []
      && y == x.(peers := x.peers[i := q], pending := x.pending || raise,
                 phase := if again then Issuing(i) else NextPeer(x, i))
  {
    hide Issue;
  }

  lemma IssueGuards(x: Proxy, a: Action)
    requires ProxyInv(x) && Can(x, a) && a.IssueOne?
    ensures var y := Apply(x, a); Shaped(y) && Guards(y)
  {
    var y := Apply(x, a);
    IssueStep(x, a);
    IssueShape(x, a);
    hide PeerStep, Issue, ProxyInv, AllReferenced, Apply, Can;
    ProgressGuards(x, y, x.phase.peer);
  }

  lemma DrainGuards(x: Proxy, a: Action)
    requires ProxyInv(x) && Can(x, a) && a.DrainHead?
    ensures var y := Apply(x, a); Shaped(y) && Guards(y)
  {
    assert Poisoned(x) && !x.locked[x.phase.peer];
    hide DrainOne, ProxyInv, AllReferenced;
    ProgressGuards(x, Apply(x, a), x.phase.peer);
  }

  lemma FinishKeeps(x: Proxy)
    requires ProxyInv(x) && x.phase.PassEnd?
    ensures ProxyInv(Apply(x, FinishPass))
  {
    hide PeersInv, Clean, AllReferenced;
    assert Apply(x, FinishPass).peers == x.peers;
    assert PeersInv(Apply(x, FinishPass)) by { SamePeers(x, Apply(x, FinishPass)); }
  }

  lemma FinishPhase(x: Proxy, a: Action)
    requires Shaped(x) && Can(x, a) && a.FinishPass?
    ensures x.phase.PassEnd? && a == FinishPass
  {}

  lemma SamePeers(x: Proxy, y: Proxy)
    requires PeersInv(x) && y.peers == x.peers
    ensures PeersInv(y)
  {
    hide Inv;
  }

  lemma PlainAction(x: Proxy, a: Action)
    requires ProxyInv(x) && Can(x, a)
    requires a.Enter? || a.TestRing? || a.EndDrain? || a.ExternalError? || a.Quiesce? || a.PassBarrier?
    ensures ProxyInv(Apply(x, a))
  {
    hide PeersInv, Clean, AllReferenced;
    assert Apply(x, a).peers == x.peers;
    SamePeers(x, Apply(x, a));
  }

  /** Every action keeps the invariant. */
  lemma ActionKeepsInv(x: Proxy, a: Action)
    requires ProxyInv(x) && Can(x, a)
    ensures ProxyInv(Apply(x, a))
  {
    var y := Apply(x, a);
    hide Guards, PeerStep, PeersInv, CleanUntilPending, PublishedIdle, Apply, Can;
    if a.TryBatch? || a.TryRelease? || a.OpenGroup? {
      ProducerStep(x, a);
      PeersAfter(x, y, a.peer);
      ProducerGuards(x, a);
    } else if a.PollOne? || a.FlushDone? || a.MoveData? || a.PostFlush? || a.VisibleOne? {
      PollStep(x, a);
      PeersAfter(x, y, x.phase.peer);
      PollGuards(x, a);
    } else if a.EndPoll? {
      EndPollStep(x, a);
      PeersAfter(x, y, x.phase.peer);
      EndPollGuards(x, a);
    } else if a.IssueOne? {
      IssueStep(x, a);
      PeersAfter(x, y, x.phase.peer);
      IssueGuards(x, a);
    } else if a.DrainHead? {
      DrainStep(x, a);
      PeersAfter(x, y, x.phase.peer);
      DrainGuards(x, a);
    } else if a.FinishPass? {
      assert x.phase.PassEnd? by { FinishPhase(x, a); }
      FinishKeeps(x);
    } else {
      PlainAction(x, a);
    }
  }
}
