// GET visibility over whole runs: behind every GET that succeeded there is a flush that was started
// when the data of the GET was complete, stayed the only flush of its domain, and then finished
// with success, in this order.

module RmaVisible {
  import opened Results
  import opened NetTransport
  import opened RmaPeer
  import opened RmaBoard
  import opened RmaFlow
  import opened RmaGets
  import opened RmaSteps
  import opened RmaProgress
  import opened RmaIssue
  import opened RmaProxy
  import opened RmaRuns
  import opened RmaTheorems
  import Visibility

  /** A flush of domain g was started and has not finished. */
  ghost predicate Pending(p: Peer, g: nat) {
    g in p.domains && p.domains[g].visible < p.domains[g].target
  }

  /** The GETs that a flush started now would cover. */
  ghost function Ready(p: Peer, g: nat): set<nat>
    requires g in p.domains
  {
    Snapshot(p.flight, g, p.domains[g].visible, p.domains[g].dataDone)
  }

  /** The flush of g goes on over the same range. */
  ghost predicate Continues(p: Peer, q: Peer, g: nat) {
    && Pending(p, g) && g in q.domains
    && q.domains[g].visible == p.domains[g].visible && q.domains[g].target == p.domains[g].target
    && SnapOf(q, g) == SnapOf(p, g)
  }

  /** The flush of g was just started over everything data-complete. */
  ghost predicate Begun(p: Peer, q: Peer, g: nat) {
    && g in p.domains && g in q.domains && p.domains[g].target == p.domains[g].visible
    && q.domains[g].visible == p.domains[g].visible && q.domains[g].target == p.domains[g].dataDone
    && SnapOf(q, g) == Ready(p, g)
  }

  /** Steps that neither start nor finish a flush. */
  ghost predicate NoFlush(p: Peer, q: Peer) {
    q.flushed == p.flushed && forall g :: Pending(q, g) ==> Continues(p, q, g)
  }

  lemma SameDomainsNoFlush(p: Peer, q: Peer)
    requires q.domains == p.domains && q.snaps == p.snaps && q.flushed == p.flushed
    ensures NoFlush(p, q)
  {}

  // ------------------------------------------------------------------------ steps of a peer

  lemma EnqueueFlushesNothing(p: Peer, ds: seq<Desc>)
    ensures NoFlush(p, EnqueueBatch(p, ds).0)
  {
    hide TrackAll, Stamp;
  }

  lemma ReleaseFlushesNothing(p: Peer, data: seq<Desc>, release: Desc)
    ensures NoFlush(p, EnqueueReleaseGroup(p, data, release).0)
  {
    hide TrackAll, GroupSeal, Stamp;
  }

  lemma CompletionsFlushNothing(p: Peer, i: nat, probe: Probe)
    requires i < |p.flight|
    ensures NoFlush(p, PollFlight(p, i, probe).0) && NoFlush(p, RetireVisible(p, i).0)
  {
    hide NoFlush, TrackCompletion;
    SameDomainsNoFlush(p, PollFlight(p, i, probe).0);
    SameDomainsNoFlush(p, RetireVisible(p, i).0);
  }

  lemma DataFlushesNothing(p: Peer, k: nat)
    requires k in p.domains
    ensures NoFlush(p, AdvanceData(p, k).0)
  {
    hide DataPrefix;
  }

  lemma PruneFlushesNothing(p: Peer)
    ensures NoFlush(p, Prune(p))
  {
    hide Referenced;
  }

  lemma TrackFlushesNothing(p: Peer, d: Desc, q: Peer)
    requires q.domains == TrackGet(p, d).0 && q.snaps == p.snaps && q.flushed == p.flushed
    ensures NoFlush(p, q)
  {}

  lemma IssueFlushesNothing(p: Peer, w: World)
    requires p.ring != []
    ensures NoFlush(p, Issue(p, w).0)
  {
    hide NoFlush, Decide, Retire, PostHead, PostBatch;
    var q := Issue(p, w).0;
    match Decide(p, w)
    case Wait => SameDomainsNoFlush(p, q);
    case Deny(_) => SameDomainsNoFlush(p, q);
    case Conclude(result) =>
      RetireFrame(p.(ring := p.ring[1..]), p.ring[0], result);
      SameDomainsNoFlush(p, q);
    case PostOne => HeadFlushesNothing(p, w);
    case PostMany(n) => BatchFlushesNothing(p, n, w);
  }

  lemma HeadFlushesNothing(p: Peer, w: World)
    requires p.ring != []
    ensures NoFlush(p, PostHead(p, w).0)
  {
    hide NoFlush, TrackGet;
    var q := PostHead(p, w).0;
    if w.post == Success { TrackFlushesNothing(p, p.ring[0], q); } else { SameDomainsNoFlush(p, q); }
  }

  lemma BatchFlushesNothing(p: Peer, n: nat, w: World)
    requires n <= |p.ring|
    ensures NoFlush(p, PostBatch(p, n, w).0)
  {
    hide NoFlush, PostBatch, HeadSeqs, BatchFlights;
    BatchIsLaunch(p, n, w);
    SameDomainsNoFlush(p, PostBatch(p, n, w).0);
  }

  lemma DrainFlushesNothing(p: Peer)
    requires p.ring != []
    ensures NoFlush(p, DrainOne(p))
  {
    hide TrackCompletion;
  }

  /** What finishing the flush of k does to every domain, and which GETs count as flushed by it. */
  lemma FinishFlushes(p: Peer, k: nat, result: Status)
    requires InvGets(p) && Pending(p, k)
    ensures var q := FinishFlush(p, k, result).0;
      && k in q.domains && q.domains[k].visible == p.domains[k].target
      && (forall g :: Pending(q, g) ==> g != k && Continues(p, q, g))
      && (q.flushed != p.flushed ==> result == Success && q.flushed == p.flushed + SnapOf(p, k))
  {
    FinishFlushExact(p, k, result);
    assert FinishFlush(p, k, result).0.snaps == p.snaps;
    hide FinishFlush;
  }

  /** The peer with the flush of k begun. */
  ghost function WithFlush(p: Peer, k: nat): Peer
    requires k in p.domains
  {
    p.(domains := p.domains[k := p.domains[k].(target := p.domains[k].dataDone)], snaps := p.snaps[k := Ready(p, k)])
  }

  lemma BegunExact(p: Peer, k: nat)
    requires k in p.domains && p.domains[k].target == p.domains[k].visible < p.domains[k].dataDone
    ensures var q := WithFlush(p, k); Begun(p, q, k) && Pending(q, k) && q.flushed == p.flushed
    ensures forall g :: g != k && Pending(WithFlush(p, k), g) ==> Continues(p, WithFlush(p, k), g)
  {}

  /** A step from p to q that may begin a flush of k and may then finish it. */
  ghost predicate FlushOf(p: Peer, q: Peer, k: nat, finished: bool)
    requires k in p.domains
  {
    && (forall g :: Pending(q, g) ==> Continues(p, q, g) || (g == k && Begun(p, q, k)))
    && (q.flushed != p.flushed ==>
          && finished && k in q.domains
          && (Pending(p, k) || p.domains[k].target == p.domains[k].visible < p.domains[k].dataDone)
          && q.domains[k].visible == (if Pending(p, k) then p.domains[k].target else p.domains[k].dataDone)
          && q.flushed == p.flushed + if Pending(p, k) then SnapOf(p, k) else Ready(p, k))
  }

  /** What StartFlush does, by cases. */
  lemma StartFlushCases(p: Peer, k: nat, posted: Status, request: bool)
    requires InvGets(p) && k in p.domains
    ensures var q := StartFlush(p, k, posted, request).0;
      var d := p.domains[k];
      var p1 := if d.target > d.visible then p else WithFlush(p, k);
      || q == p
      || (d.target == d.visible && q == p.(domains := p.domains[k := d.(visible := d.dataDone, target := d.dataDone)]))
      || (&& d.dataDone > d.visible && !d.flushing
          && (d.target > d.visible || (d.target == d.visible && FlushRange(p.flight, k, d.visible, d.dataDone)))
          && (q == p1 || q == p1.(domains := p1.domains[k := p1.domains[k].(flushing := true)])
              || (q == FinishFlush(p1, k, posted).0 && (posted == Success ==> !request))))
  {
    hide FinishFlush, FlushRange, Snapshot, AllFlightsOk, DistinctGets, SuccessFlushed;
    var d := p.domains[k];
    assert DomainOk(p.flight, Issued(p), k, d);
    hide InvGets;
    assert p.domains[k := d] == p.domains;
    if d.target > d.visible {
      assert p.(domains := p.domains[k := d], snaps := p.snaps) == p;
    } else {
      assert p.(domains := p.domains[k := d.(target := d.dataDone)], snaps := p.snaps[k := Ready(p, k)]) == WithFlush(p, k);
    }
  }

  lemma FinishIsFlush(p: Peer, p1: Peer, k: nat, result: Status, finished: bool)
    requires InvGets(p) && k in p.domains && (result == Success ==> finished)
    requires var d := p.domains[k];
      if d.target > d.visible then p1 == p
      else d.target == d.visible < d.dataDone && !d.flushing && FlushRange(p.flight, k, d.visible, d.dataDone)
           && p1 == WithFlush(p, k)
    ensures FlushOf(p, FinishFlush(p1, k, result).0, k, finished)
  {
    hide FlushRange, Snapshot, FinishFlush, InvGets;
    if !Pending(p, k) {
      BeginKeepsGets(p, k);
      BegunExact(p, k);
    }
    FinishFlushes(p1, k, result);
  }

  lemma StartIsFlush(p: Peer, k: nat, posted: Status, request: bool)
    requires InvGets(p) && k in p.domains
    ensures FlushOf(p, StartFlush(p, k, posted, request).0, k, posted == Success && !request)
  {
    hide StartFlush, FinishFlush, FlushRange, Snapshot, InvGets;
    StartFlushCases(p, k, posted, request);
    var q := StartFlush(p, k, posted, request).0;
    var d := p.domains[k];
    var p1 := if d.target > d.visible then p else WithFlush(p, k);
    if q != p && d.dataDone > d.visible && !d.flushing
       && (d.target > d.visible || (d.target == d.visible && FlushRange(p.flight, k, d.visible, d.dataDone))) {
      if d.target == d.visible { BegunExact(p, k); }
      if q == FinishFlush(p1, k, posted).0 && (posted == Success ==> !request) {
        FinishIsFlush(p, p1, k, posted, posted == Success && !request);
      }
    }
  }

  // ----------------------------------------------------------------- steps of the proxy

  /** This action starts a flush of domain g of peer k. */
  ghost predicate Begins(x: Proxy, a: Action, k: nat, g: nat) {
    && k < |x.peers| && x.phase == Polling(k) && a.PostFlush? && a.key == g && g in x.peers[k].domains
    && x.peers[k].domains[g].target == x.peers[k].domains[g].visible < x.peers[k].domains[g].dataDone
  }

  /** It brings the success of that flush. */
  predicate Finishes(x: Proxy, a: Action, k: nat, g: nat) {
    && x.phase == Polling(k)
    && (a == FlushDone(g, Success) || a == PostFlush(g, Success, false))
  }

  ghost predicate Flushes(x: Proxy, a: Action, k: nat, p: Peer, q: Peer)
    requires k < |x.peers|
  {
    && (forall g :: Pending(q, g) ==> Continues(p, q, g) || (Begins(x, a, k, g) && Begun(p, q, g)))
    && (q.flushed != p.flushed ==>
          exists g <- p.domains ::
            Finishes(x, a, k, g) && FlushOf(p, q, g, true) && (Pending(p, g) || Begins(x, a, k, g)))
  }

  lemma NoFlushFlushes(x: Proxy, a: Action, k: nat, p: Peer, q: Peer)
    requires k < |x.peers| && NoFlush(p, q)
    ensures Flushes(x, a, k, p, q)
  {}

  lemma SameFlushes(x: Proxy, a: Action, k: nat)
    requires k < |x.peers|
    ensures Flushes(x, a, k, x.peers[k], x.peers[k])
  {}

  lemma FlushOfFlushes(x: Proxy, a: Action, g: nat, q: Peer, finished: bool)
    requires Shaped(x) && x.phase.Polling? && g in x.peers[x.phase.peer].domains
    requires FlushOf(x.peers[x.phase.peer], q, g, finished)
    requires finished ==> Finishes(x, a, x.phase.peer, g)
    requires (a.PostFlush? && a.key == g) || Pending(x.peers[x.phase.peer], g)
    ensures Flushes(x, a, x.phase.peer, x.peers[x.phase.peer], q)
  {
    hide Ready;
  }

  /** The peer an action is about. */
  function PeerOf(x: Proxy, a: Action): nat
    requires Shaped(x) && Can(x, a)
  {
    match a
    case Enter(i) => i
    case TryBatch(i, _) => i
    case TryRelease(i, _, _) => i
    case OpenGroup(i, _) => i
    case PassBarrier(i) => i
    case _ => if x.phase.PassEnd? then 0 else x.phase.peer
  }

  lemma FlushAction(x: Proxy, a: Action)
    requires ProxyInv(x) && Can(x, a) && (a.FlushDone? || a.PostFlush?)
    ensures var k := x.phase.peer; Flushes(x, a, k, x.peers[k], Apply(x, a).peers[k])
  {
    var k := x.phase.peer;
    var p := x.peers[k];
    assert Inv(p);
    UnpackInv(p);
    hide Inv, InvCore, InvPosted, InvRing, InvFlight, ProxyInv, FinishFlush, StartFlush, FlushOf, Flushes, FlushRange;
    if a.FlushDone? {
      FlushingIsAhead(p, a.key);
      hide InvGets;
      FinishIsFlush(p, p, a.key, a.result, a.result == Success);
      FlushOfFlushes(x, a, a.key, FinishFlush(p, a.key, a.result).0, a.result == Success);
    } else {
      hide InvGets;
      var finished := a.posted == Success && !a.request;
      StartIsFlush(p, a.key, a.posted, a.request);
      FlushOfFlushes(x, a, a.key, StartFlush(p, a.key, a.posted, a.request).0, finished);
    }
  }

  lemma QuietAction(x: Proxy, a: Action)
    requires Shaped(x) && Can(x, a) && !a.FlushDone? && !a.PostFlush?
    requires PeerOf(x, a) < |x.peers|
    ensures var k := PeerOf(x, a); NoFlush(x.peers[k], Apply(x, a).peers[k])
  {
    hide NoFlush, EnqueueBatch, EnqueueReleaseGroup, PollFlight, RetireVisible, AdvanceData, Prune, Issue,
         DrainOne, ReleaseRun;
    var k := PeerOf(x, a);
    var p := x.peers[k];
    match a
    case TryBatch(i, ds) => EnqueueFlushesNothing(p, ds);
    case TryRelease(i, data, release) => ReleaseFlushesNothing(p, data, release);
    case OpenGroup(i, g) => SameDomainsNoFlush(p, InitGroup(p, g));
    case PollOne(i, probe) => CompletionsFlushNothing(p, i, probe);
    case VisibleOne(i) => CompletionsFlushNothing(p, i, NotDone);
    case MoveData(g) => DataFlushesNothing(p, g);
    case EndPoll(_, _) => PruneFlushesNothing(p);
    case IssueOne(w) => IssueFlushesNothing(p, w);
    case DrainHead => DrainFlushesNothing(p);
    case _ => SameDomainsNoFlush(p, p);
  }

  lemma OtherPeers(x: Proxy, a: Action, k: nat)
    requires Shaped(x) && Can(x, a) && k < |x.peers| == |Apply(x, a).peers| && PeerOf(x, a) != k
    ensures Apply(x, a).peers[k] == x.peers[k]
  {
    hide EnqueueBatch, EnqueueReleaseGroup, PollFlight, RetireVisible, AdvanceData, Prune, Issue, DrainOne,
         ReleaseRun, FinishFlush, StartFlush, LooksEmpty;
  }

  /** What any action means for the flushes of any peer. */
  lemma ActionFlushes(x: Proxy, a: Action, k: nat)
    requires ProxyInv(x) && Can(x, a) && k < |x.peers| == |Apply(x, a).peers|
    ensures Flushes(x, a, k, x.peers[k], Apply(x, a).peers[k])
  {
    assert Shaped(x);
    hide ProxyInv, NoFlush, Flushes, Apply, Can;
    if PeerOf(x, a) != k {
      OtherPeers(x, a, k);
      SameFlushes(x, a, k);
    } else if a.FlushDone? || a.PostFlush? {
      FlushAction(x, a);
    } else {
      QuietAction(x, a);
      NoFlushFlushes(x, a, k, x.peers[k], Apply(x, a).peers[k]);
    }
  }

  // --------------------------------------------------------------------------- whole runs

  /** In state t the flush of domain g that began with action a is still the one. */
  ghost predicate SameRange(p: Peer, q: Peer, g: nat) {
    && g in p.domains && Pending(q, g)
    && q.domains[g].visible == p.domains[g].visible && q.domains[g].target == p.domains[g].dataDone
    && SnapOf(q, g) == Ready(p, g)
  }

  /** The flush of g that action a began is the one in progress in all states up to t. */
  ghost predicate Open(xs: seq<Proxy>, acts: seq<Action>, k: nat, g: nat, a: nat, t: nat) {
    && a <= t < |xs| && a < |acts| < |xs| && Begins(xs[a], acts[a], k, g)
    && forall u :: a < u <= t ==> k < |xs[u].peers| && SameRange(xs[a].peers[k], xs[u].peers[k], g)
  }

  lemma RunStep(xs: seq<Proxy>, acts: seq<Action>, nRanks: nat, queueSize: nat, t: nat, k: nat)
    requires At(xs, acts, nRanks, queueSize, t, k) && t < |acts|
    ensures |xs| == |acts| + 1 && ProxyInv(xs[t]) && Can(xs[t], acts[t])
    ensures At(xs, acts, nRanks, queueSize, t + 1, k)
    ensures Flushes(xs[t], acts[t], k, xs[t].peers[k], xs[t + 1].peers[k])
  {
    hide ProxyInv, Flushes, Apply, Can, Later, OutcomeInv, NewProxy;
    RunInv(xs, acts, nRanks, queueSize, t);
    RunLater(xs, acts, nRanks, queueSize, t, t + 1);
    assert |xs[t + 1].peers| == |xs[t].peers| by { LaterPeers(xs[t], xs[t + 1]); }
    ActionFlushes(xs[t], acts[t], k);
  }

  lemma RunBack(xs: seq<Proxy>, acts: seq<Action>, nRanks: nat, queueSize: nat, t: nat, k: nat)
    requires At(xs, acts, nRanks, queueSize, t, k) && 0 < t
    ensures At(xs, acts, nRanks, queueSize, t - 1, k) && t <= |acts|
  {
    hide Apply, Can, Later, NewProxy;
    RunLater(xs, acts, nRanks, queueSize, t - 1, t);
    LaterPeers(xs[t - 1], xs[t]);
  }

  lemma StartHasNothing(xs: seq<Proxy>, acts: seq<Action>, nRanks: nat, queueSize: nat, k: nat)
    requires At(xs, acts, nRanks, queueSize, 0, k)
    ensures xs[0].peers[k].domains == map[] && xs[0].peers[k].flushed == {}
  {
    hide Apply, Can;
  }

  /** A pending flush was begun by some earlier action and is the same since. */
  lemma {:induction false} PendingOrigin(xs: seq<Proxy>, acts: seq<Action>, nRanks: nat, queueSize: nat,
                                         t: nat, k: nat, g: nat) returns (a: nat)
    requires At(xs, acts, nRanks, queueSize, t, k) && Pending(xs[t].peers[k], g)
    ensures a < t && Open(xs, acts, k, g, a, t)
    decreases t
  {
    hide Run, ProxyInv, Begins, SnapOf, Ready, Can, Apply;
    if t == 0 { StartHasNothing(xs, acts, nRanks, queueSize, k); }
    RunBack(xs, acts, nRanks, queueSize, t, k);
    RunStep(xs, acts, nRanks, queueSize, t - 1, k);
    var p, q := xs[t - 1].peers[k], xs[t].peers[k];
    assert Continues(p, q, g) || (Begins(xs[t - 1], acts[t - 1], k, g) && Begun(p, q, g));
    if Begins(xs[t - 1], acts[t - 1], k, g) && Begun(p, q, g) {
      a := t - 1;
    } else {
      a := PendingOrigin(xs, acts, nRanks, queueSize, t - 1, k, g);
    }
  }

  /** The action by which a GET came to be flushed. */
  lemma {:induction false} FlushedOrigin(xs: seq<Proxy>, acts: seq<Action>, nRanks: nat, queueSize: nat,
                                         i: nat, k: nat, s: nat) returns (b: nat)
    requires At(xs, acts, nRanks, queueSize, i, k) && s in xs[i].peers[k].flushed
    ensures b < i && At(xs, acts, nRanks, queueSize, b, k) && At(xs, acts, nRanks, queueSize, b + 1, k)
    ensures s !in xs[b].peers[k].flushed && s in xs[b + 1].peers[k].flushed
    decreases i
  {
    hide Run;
    if i == 0 { StartHasNothing(xs, acts, nRanks, queueSize, k); }
    RunBack(xs, acts, nRanks, queueSize, i, k);
    if s in xs[i - 1].peers[k].flushed {
      b := FlushedOrigin(xs, acts, nRanks, queueSize, i - 1, k, s);
    } else {
      b := i - 1;
    }
  }

  /** Action a began a flush of domain g of peer k when the data of GET s was complete, that flush
      stayed the one in progress, and action b brought its success and made its range visible. */
  ghost predicate FlushedBetween(xs: seq<Proxy>, acts: seq<Action>, k: nat, g: nat, s: nat, a: nat, b: nat) {
    && b < |acts| && Open(xs, acts, k, g, a, b) && Finishes(xs[b], acts[b], k, g)
    && k < |xs[b + 1].peers| && g in xs[b + 1].peers[k].domains
    && xs[b + 1].peers[k].domains[g].visible == xs[a].peers[k].domains[g].dataDone
    && s in Ready(xs[a].peers[k], g)
  }

  lemma FlushedHistory(xs: seq<Proxy>, acts: seq<Action>, nRanks: nat, queueSize: nat, i: nat, k: nat, s: nat)
    returns (g: nat, a: nat, b: nat)
    requires At(xs, acts, nRanks, queueSize, i, k) && s in xs[i].peers[k].flushed
    ensures a <= b < i && FlushedBetween(xs, acts, k, g, s, a, b)
  {
    hide Run, ProxyInv, Ready, SnapOf, Can, Apply;
    b := FlushedOrigin(xs, acts, nRanks, queueSize, i, k, s);
    assert b < |acts| by { RunBack(xs, acts, nRanks, queueSize, b + 1, k); }
    RunStep(xs, acts, nRanks, queueSize, b, k);
    var p, q := xs[b].peers[k], xs[b + 1].peers[k];
    g :| g in p.domains && Finishes(xs[b], acts[b], k, g) && FlushOf(p, q, g, true)
         && (Pending(p, g) || Begins(xs[b], acts[b], k, g));
    if Pending(p, g) {
      a := PendingOrigin(xs, acts, nRanks, queueSize, b, k, g);
      assert SameRange(xs[a].peers[k], p, g);
    } else {
      a := b;
    }
  }

  /** A GET in the range of a flush is that operation, in progress with its data complete. */
  lemma ReadyGet(p: Peer, g: nat, s: nat)
    requires Inv(p) && g in p.domains && s in Ready(p, g)
    ensures 1 <= s <= |p.accepted| && p.accepted[s - 1].key == g && s !in p.retired
    ensures exists j :: 0 <= j < |p.flight| && p.flight[j].desc == p.accepted[s - 1] && p.flight[j].dataDone
  {
    UnpackInv(p);
    hide Inv, InvCore, InvPosted, InvRing, InvGets;
  }

  /** Operation s of q is in progress in p with its data complete. */
  ghost predicate DataComplete(p: Peer, q: Peer, s: nat)
    requires 1 <= s <= |q.accepted|
  {
    s !in p.retired && exists j :: 0 <= j < |p.flight| && p.flight[j].desc == q.accepted[s - 1] && p.flight[j].dataDone
  }

  lemma FlushedCovered(xs: seq<Proxy>, acts: seq<Action>, nRanks: nat, queueSize: nat, i: nat, k: nat, s: nat)
    returns (g: nat, a: nat, b: nat)
    requires At(xs, acts, nRanks, queueSize, i, k)
    requires s in xs[i].peers[k].flushed && 1 <= s <= |xs[i].peers[k].accepted|
    ensures a <= b < i && FlushedBetween(xs, acts, k, g, s, a, b) && k < |xs[a].peers|
    ensures g == xs[i].peers[k].accepted[s - 1].key && DataComplete(xs[a].peers[k], xs[i].peers[k], s)
  {
    hide Run, ProxyInv, Inv, InvBoard, InvGroups, Ready, Open, Finishes, Later;
    g, a, b := FlushedHistory(xs, acts, nRanks, queueSize, i, k, s);
    assert k < |xs[a].peers| && g in xs[a].peers[k].domains by { OpenBegins(xs, acts, k, g, a, b); }
    PeerAt(xs, acts, nRanks, queueSize, a, k);
    ReadyGet(xs[a].peers[k], g, s);
    RunLater(xs, acts, nRanks, queueSize, a, i);
    assert LaterPeer(xs[a], xs[i], k) by { LaterHolds(xs[a], xs[i], k); }
  }

  /** A GET that needs a flush is a success only if, earlier in the run, a flush of its domain was
      begun while it was in progress with its data complete and not yet visible, and that same flush
      finished with success. */
  lemma GetVisibility(xs: seq<Proxy>, acts: seq<Action>, nRanks: nat, queueSize: nat, i: nat, k: nat, s: nat)
    requires At(xs, acts, nRanks, queueSize, i, k)
    requires s in xs[i].peers[k].retired && xs[i].peers[k].retired[s] == Success
    requires 1 <= s <= |xs[i].peers[k].accepted| && xs[i].peers[k].accepted[s - 1].needsFlush
    ensures exists g: nat, a: nat, b: nat ::
      && a <= b < i && g == xs[i].peers[k].accepted[s - 1].key && FlushedBetween(xs, acts, k, g, s, a, b)
      && k < |xs[a].peers| && DataComplete(xs[a].peers[k], xs[i].peers[k], s)
  {
    hide Run, FlushedBetween, DataComplete;
    SuccessIsFlushed(xs, acts, nRanks, queueSize, i, k);
    var g, a, b := FlushedCovered(xs, acts, nRanks, queueSize, i, k, s);
  }

  lemma LaterHolds(x: Proxy, y: Proxy, k: nat)
    requires Later(x, y) && k < |x.peers|
    ensures k < |y.peers| && LaterPeer(x, y, k)
  {
    hide LaterPeer;
  }

  lemma OpenBegins(xs: seq<Proxy>, acts: seq<Action>, k: nat, g: nat, a: nat, t: nat)
    requires Open(xs, acts, k, g, a, t)
    ensures k < |xs[a].peers| && g in xs[a].peers[k].domains
  {}
}
