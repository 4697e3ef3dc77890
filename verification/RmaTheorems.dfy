// The main results about the RMA proxy, each for every run and every state in it.

module RmaTheorems {
  import opened Results
  import opened NetTransport
  import opened RmaIndex
  import opened RmaPeer
  import opened RmaBoard
  import opened RmaFlow
  import opened RmaGets
  import opened RmaSteps
  import opened RmaProgress
  import opened RmaIssue
  import opened RmaOutcome
  import opened RmaProxy
  import opened RmaRuns
  import Visibility

  /** Peer k in state i of a run. */
  ghost predicate At(xs: seq<Proxy>, acts: seq<Action>, nRanks: nat, queueSize: nat, i: nat, k: nat) {
    Run(xs, acts, nRanks, queueSize) && i < |xs| && k < |xs[i].peers|
  }

  lemma PeerAt(xs: seq<Proxy>, acts: seq<Action>, nRanks: nat, queueSize: nat, i: nat, k: nat)
    requires At(xs, acts, nRanks, queueSize, i, k)
    ensures ProxyInv(xs[i]) && Inv(xs[i].peers[k]) && InvOutcome(xs[i].peers[k])
    ensures InvBoard(xs[i].peers[k]) && InvGroups(xs[i].peers[k])
  {
    RunInv(xs, acts, nRanks, queueSize, i);
    hide Inv, InvOutcome, Run, InvBoard, InvGroups;
    assert Inv(xs[i].peers[k]) && InvOutcome(xs[i].peers[k]);
    assert InvCore(xs[i].peers[k]) by { UnpackInv(xs[i].peers[k]); }
  }

  lemma UnpackInv(p: Peer)
    requires Inv(p)
    ensures InvCore(p) && InvPosted(p) && InvRing(p) && InvFlight(p) && InvGets(p)
  {
    hide InvCore, InvPosted, InvRing, InvFlight, InvGets;
  }

  // --------------------------------------------------------------- published completions

  /** Everything up to sequence s was retired with a result other than InProgress. */
  ghost predicate SettledUpTo(p: Peer, s: nat) { forall t :: 1 <= t <= s ==> IsSettled(p, t) }

  /** A sequence is published exactly when it and everything before it is settled. The published number
      never decreases, and what it covers has been retired exactly once, with a result that never
      changes. */
  lemma PublishedPrefix(xs: seq<Proxy>, acts: seq<Action>, nRanks: nat, queueSize: nat, i: nat, j: nat, k: nat, s: nat)
    requires At(xs, acts, nRanks, queueSize, i, k) && i <= j < |xs| && 1 <= s
    ensures k < |xs[j].peers|
    ensures var p := xs[i].peers[k]; var q := xs[j].peers[k];
      && (s <= p.done <==> SettledUpTo(p, s))
      && p.done <= q.done && q.twice == {}
      && (s <= p.done ==> SettledUpTo(q, s) && s in p.retired && s in q.retired && q.retired[s] == p.retired[s])
  {
    hide Run, ProxyInv, InvGroups, InvOutcome, Inv;
    PeerAt(xs, acts, nRanks, queueSize, i, k);
    RunLater(xs, acts, nRanks, queueSize, i, j);
    assert LaterPeer(xs[i], xs[j], k);
    PeerAt(xs, acts, nRanks, queueSize, j, k);
    UnpackInv(xs[j].peers[k]);
    if s <= xs[i].peers[k].done { assert IsSettled(xs[i].peers[k], s); }
  }

  /** One look of flagcxHeteroFlushRma at the proxy: its answer, or None to look again. */
  function FlushTest(done: nat, rmaError: bool, sequence: nat): Option<Status> {
    if sequence == 0 then Some(Success)
    else if done < sequence then (if rmaError then Some(RemoteError) else None)
    else if rmaError then Some(RemoteError) else Some(Success)
  }

  /** A flush of sequence 0 always reports success. Any other does exactly when no error is published and
      every operation up to its sequence is settled; then they are settled for good. */
  lemma FlushMeansRetired(xs: seq<Proxy>, acts: seq<Action>, nRanks: nat, queueSize: nat, i: nat, j: nat, k: nat, sequence: nat)
    requires At(xs, acts, nRanks, queueSize, i, k) && i <= j < |xs|
    ensures k < |xs[j].peers|
    ensures var answer := FlushTest(xs[i].peers[k].done, xs[i].rmaError, sequence);
      && (answer == Some(Success) <==>
            sequence == 0 || (!xs[i].rmaError && SettledUpTo(xs[i].peers[k], sequence)))
      && (answer == Some(Success) ==> SettledUpTo(xs[j].peers[k], sequence))
  {
    hide Run, Later;
    RunLater(xs, acts, nRanks, queueSize, i, j);
    LaterPeers(xs[i], xs[j]);
    if sequence > 0 {
      hide SettledUpTo;
      PublishedPrefix(xs, acts, nRanks, queueSize, i, j, k, sequence);
    }
  }

  /** The least sequence from s on that was retired without success; one past the last if none was. */
  ghost function FailureFrom(p: Peer, s: nat): (m: nat)
    requires s <= p.opSeq + 1
    ensures s <= m <= p.opSeq + 1
    ensures forall t :: s <= t < m && t in p.retired ==> p.retired[t] == Success
    ensures m <= p.opSeq ==> m in p.retired && p.retired[m] != Success
    decreases p.opSeq + 1 - s
  {
    if s > p.opSeq || (s in p.retired && p.retired[s] != Success) then s else FailureFrom(p, s + 1)
  }

  /** All operations up to the flushed sequence succeeded if the scoreboard has seen no error or no error
      is pending; for a flush of everything accepted the first is needed too. Operation by operation it
      means that the first failure of the peer comes later. */
  lemma FlushMeansSucceeded(xs: seq<Proxy>, acts: seq<Action>, nRanks: nat, queueSize: nat, i: nat, k: nat, sequence: nat)
    requires At(xs, acts, nRanks, queueSize, i, k)
    requires FlushTest(xs[i].peers[k].done, xs[i].rmaError, sequence) == Some(Success)
    ensures var p := xs[i].peers[k];
      var succeeded := forall s :: 1 <= s <= sequence ==> s in p.retired && p.retired[s] == Success;
      && sequence <= p.opSeq
      && (p.board.firstError == Success || !xs[i].pending ==> succeeded)
      && (sequence == p.opSeq && succeeded ==> p.board.firstError == Success)
      && (succeeded <==> sequence < FailureFrom(p, 1))
  {
    if !xs[i].pending { assert Clean(xs[i].peers[k]) by { PeerAt(xs, acts, nRanks, queueSize, i, k); } }
    hide Run, ProxyInv, InvGroups, InvOutcome, Inv;
    PeerAt(xs, acts, nRanks, queueSize, i, k);
    var p := xs[i].peers[k];
    forall s | 1 <= s <= sequence ensures s in p.retired && p.retired[s] != InProgress { assert IsSettled(p, s); }
    forall s | s in p.retired ensures 1 <= s <= p.opSeq {}
  }

  /** No pending error means no failure at all, so then a successful flush is a success. */
  lemma NoPendingErrorNoFailure(xs: seq<Proxy>, acts: seq<Action>, nRanks: nat, queueSize: nat, i: nat, k: nat, s: nat)
    requires At(xs, acts, nRanks, queueSize, i, k)
    requires !xs[i].pending && s in xs[i].peers[k].retired
    ensures xs[i].peers[k].retired[s] == Success
  {
    PeerAt(xs, acts, nRanks, queueSize, i, k);
    assert Clean(xs[i].peers[k]);
  }

  /** A peer with nothing in its ring and nothing in progress has published everything exactly when no
      operation was retired with InProgress. Otherwise it has published what comes before the first of
      those. */
  lemma IdlePublishesExactly(xs: seq<Proxy>, acts: seq<Action>, nRanks: nat, queueSize: nat, i: nat, k: nat)
    requires At(xs, acts, nRanks, queueSize, i, k) && Idle(xs[i].peers[k])
    ensures var p := xs[i].peers[k];
      && (p.done == |p.accepted| <==> forall s <- p.retired :: p.retired[s] != InProgress)
      && (p.done < |p.accepted| ==> p.done + 1 in p.retired && p.retired[p.done + 1] == InProgress)
  {
    hide Run, ProxyInv, InvGroups, InvOutcome, Inv;
    PeerAt(xs, acts, nRanks, queueSize, i, k);
    var p := xs[i].peers[k];
    RetiredLeftRing(p);
    assert Issued(p) == |p.accepted|;
    assert !IsSettled(p, p.done + 1);
    forall s | s in p.retired ensures 1 <= s <= |p.accepted| {}
    forall s | 1 <= s <= p.done ensures p.retired[s] != InProgress { assert IsSettled(p, s); }
  }

  /** A completion result of InProgress is never published: flushes of that sequence or a later
      one cannot succeed any more. */
  lemma InProgressStrands(xs: seq<Proxy>, acts: seq<Action>, nRanks: nat, queueSize: nat, i: nat, j: nat, k: nat, s: nat)
    requires At(xs, acts, nRanks, queueSize, i, k) && i <= j < |xs|
    requires s in xs[i].peers[k].retired && xs[i].peers[k].retired[s] == InProgress
    ensures k < |xs[j].peers| && xs[j].peers[k].done < s
  {
    hide Run, ProxyInv, InvGroups, InvOutcome, Inv;
    RunLater(xs, acts, nRanks, queueSize, i, j);
    assert LaterPeer(xs[i], xs[j], k);
    PeerAt(xs, acts, nRanks, queueSize, i, k);
    PeerAt(xs, acts, nRanks, queueSize, j, k);
    var q := xs[j].peers[k];
    assert 1 <= s && !IsSettled(q, s);
  }

  lemma CounterExact(p: Peer)
    requires Inv(p)
    ensures p.completions == |Successes(p)|
    ensures forall s :: s in Successes(p) <==>
      1 <= s <= |p.accepted| && s in p.retired && p.retired[s] == Success && CompletesApiOperation(p.accepted[s - 1])
  {
    hide InvBoard, InvGroups, InvPosted, InvRing, InvFlight, InvGets;
  }

  /** The public counter is the number of API operations that succeeded. */
  lemma CounterCountsOperations(xs: seq<Proxy>, acts: seq<Action>, nRanks: nat, queueSize: nat, i: nat, k: nat)
    requires At(xs, acts, nRanks, queueSize, i, k)
    ensures var p := xs[i].peers[k];
      && p.completions == |Successes(p)|
      && (forall s :: s in Successes(p) <==>
            1 <= s <= |p.accepted| && s in p.retired && p.retired[s] == Success
            && CompletesApiOperation(p.accepted[s - 1]))
  {
    hide Run, ProxyInv, InvGroups, InvOutcome, Inv, InvBoard, Successes;
    PeerAt(xs, acts, nRanks, queueSize, i, k);
    CounterExact(xs[i].peers[k]);
  }

  // ------------------------------------------------------------------------ release gate

  /** A release reaches the adaptor only after every data member of its group succeeded; the
      release is not a member itself. */
  lemma ReleaseWaitsForMembers(xs: seq<Proxy>, acts: seq<Action>, nRanks: nat, queueSize: nat, i: nat, k: nat, s: nat)
    requires At(xs, acts, nRanks, queueSize, i, k)
    requires s in xs[i].peers[k].posted
    ensures var p := xs[i].peers[k];
      && 1 <= s <= |p.accepted|
      && (p.accepted[s - 1].kind == Release ==>
            s !in Members(p, p.accepted[s - 1].group) && AllSucceeded(p, p.accepted[s - 1].group))
  {
    PeerAt(xs, acts, nRanks, queueSize, i, k);
    UnpackInv(xs[i].peers[k]);
    hide Run, ProxyInv, InvGroups, InvOutcome, Inv, AllSucceeded;
    MemberOf(xs[i].peers[k], s, xs[i].peers[k].accepted[s - 1].group);
  }

  /** Once a data member failed, the release is never posted and never succeeds. */
  lemma FailedGroupNeverReleases(xs: seq<Proxy>, acts: seq<Action>, nRanks: nat, queueSize: nat,
                                 i: nat, j: nat, k: nat, s: nat, m: nat)
    requires At(xs, acts, nRanks, queueSize, i, k) && i <= j < |xs|
    requires var p := xs[i].peers[k];
      && 1 <= s <= |p.accepted| && p.accepted[s - 1].kind == Release
      && m in Members(p, p.accepted[s - 1].group) && m in p.retired && p.retired[m] != Success
    ensures k < |xs[j].peers|
    ensures var q := xs[j].peers[k];
      s !in q.posted && (s in q.retired ==> q.retired[s] != Success)
  {
    RunLater(xs, acts, nRanks, queueSize, i, j);
    assert LaterPeer(xs[i], xs[j], k);
    var p, q := xs[i].peers[k], xs[j].peers[k];
    assert q.accepted[..|p.accepted|] == p.accepted;
    assert q.accepted[s - 1] == p.accepted[s - 1] && q.accepted[m - 1] == p.accepted[m - 1];
    MemberOf(q, m, p.accepted[s - 1].group);
    PeerAt(xs, acts, nRanks, queueSize, j, k);
    if s in q.posted { ReleaseWaitsForMembers(xs, acts, nRanks, queueSize, j, k, s); }
    hide Run, ProxyInv, InvGroups, Inv, Members, InvBoard;
  }

  // ---------------------------------------------------------------------- GET visibility

  /** The watermarks are ordered in every state, and a GET that needs a flush is a success only if it
      is recorded as flushed. */
  lemma SuccessIsFlushed(xs: seq<Proxy>, acts: seq<Action>, nRanks: nat, queueSize: nat, i: nat, k: nat)
    requires At(xs, acts, nRanks, queueSize, i, k)
    ensures var p := xs[i].peers[k];
      && (forall g <- p.domains :: Visibility.Ordered(p.domains[g]))
      && (forall s <- p.retired :: 1 <= s <= |p.accepted| &&
            (p.retired[s] == Success && p.accepted[s - 1].needsFlush ==> s in p.flushed))
  {
    PeerAt(xs, acts, nRanks, queueSize, i, k);
    UnpackInv(xs[i].peers[k]);
    hide Run, ProxyInv, InvGroups, InvOutcome, Inv, InvBoard;
    var p := xs[i].peers[k];
    forall g | g in p.domains ensures Visibility.Ordered(p.domains[g]) {
      assert DomainOk(p.flight, Issued(p), g, p.domains[g]);
    }
  }

  /** What `flushed` records: the GETs a flush makes visible had all completed their data transfer
      when its target was set, and they are exactly the ones not visible before. */
  lemma SnapshotIsComplete(p: Peer, k: nat, posted: Status, request: bool)
    requires Inv(p) && k in p.domains && p.domains[k].target == p.domains[k].visible
    ensures var q := StartFlush(p, k, posted, request).0;
      q.snaps != p.snaps ==>
        && k in q.snaps && q.snaps == p.snaps[k := q.snaps[k]]
        && (forall j :: 0 <= j < |p.flight| && p.flight[j].getSeq != 0 && p.flight[j].desc.key == k ==>
              (p.flight[j].desc.opSeq in q.snaps[k] <==>
                 p.domains[k].visible < p.flight[j].getSeq <= p.domains[k].dataDone))
        && (forall s <- q.snaps[k] :: exists j ::
              0 <= j < |p.flight| && p.flight[j].desc.opSeq == s && p.flight[j].dataDone)
  {
    UnpackInv(p);
    var d := p.domains[k];
    var snap := Snapshot(p.flight, k, d.visible, d.dataDone);
    forall j | 0 <= j < |p.flight| && p.flight[j].getSeq != 0 && p.flight[j].desc.key == k
      ensures p.flight[j].desc.opSeq in snap <==> d.visible < p.flight[j].getSeq <= d.dataDone
    {
      assert FlightOk(p, p.flight[j]);
    }
    hide Inv, InvCore, InvPosted, InvRing, InvGets, Snapshot, FlushRange, FinishFlush;
    SnapAfter(p, k, posted, request);
  }

  lemma SnapAfter(p: Peer, k: nat, posted: Status, request: bool)
    requires k in p.domains && p.domains[k].target == p.domains[k].visible
    ensures var q := StartFlush(p, k, posted, request).0;
      q.snaps == p.snaps
      || q.snaps == p.snaps[k := Snapshot(p.flight, k, p.domains[k].visible, p.domains[k].dataDone)]
  {
    hide FlushRange, Snapshot;
  }

  // ------------------------------------------------------------------------- IPC barrier

  /** An IPC GET succeeds only after everything before it is retired, and nothing after it is
      posted before it is retired. */
  lemma IpcBarrier(xs: seq<Proxy>, acts: seq<Action>, nRanks: nat, queueSize: nat, i: nat, k: nat, s: nat)
    requires At(xs, acts, nRanks, queueSize, i, k)
    requires 1 <= s <= |xs[i].peers[k].accepted| && xs[i].peers[k].accepted[s - 1].kind == IpcGet
    ensures var p := xs[i].peers[k];
      && s !in p.posted
      && (s in p.retired && p.retired[s] == Success ==> forall t :: 1 <= t < s ==> IsSettled(p, t))
      && (forall t <- p.posted :: s < t ==> s in p.retired)
  {
    hide Run, ProxyInv, InvGroups, Inv, AllSucceeded, InvCore, InvGets;
    PeerAt(xs, acts, nRanks, queueSize, i, k);
    var p := xs[i].peers[k];
    UnpackInv(p);
    assert p.accepted[s - 1].opSeq == s;
    hide InvBoard;
    if s > Issued(p) {
      assert p.ring[s - 1 - Issued(p)] == p.accepted[s - 1];
    } else {
      assert forall j :: 0 <= j < |p.flight| ==> p.flight[j].desc.opSeq != s;
      assert s in p.retired || InFlight(p.flight, s);
    }
  }

  // ---------------------------------------------------------------------------- poisoning

  /** From the moment an error is pending nothing is posted on any peer. */
  lemma NothingPostedAfterError(xs: seq<Proxy>, acts: seq<Action>, nRanks: nat, queueSize: nat, i: nat, j: nat, k: nat)
    requires At(xs, acts, nRanks, queueSize, i, k) && i <= j < |xs| && xs[i].pending
    ensures k < |xs[j].peers| && xs[j].pending && xs[j].peers[k].posted == xs[i].peers[k].posted
  {
    RunLater(xs, acts, nRanks, queueSize, i, j);
    assert LaterPeer(xs[i], xs[j], k);
  }

  /** The progress loop publishes the error only once no peer has a request in progress, and from
      then on none ever appears. */
  lemma ErrorPublishedIdle(xs: seq<Proxy>, acts: seq<Action>, nRanks: nat, queueSize: nat, i: nat, k: nat)
    requires At(xs, acts, nRanks, queueSize, i, k)
    requires xs[i].rmaError && !xs[i].external
    ensures xs[i].peers[k].flight == [] && xs[i].pending
  {
    PeerAt(xs, acts, nRanks, queueSize, i, k);
  }

  // ------------------------------------------------------------- draining and quiescing

  /** Once the wrap of the indices lies inside the ring of a peer, nothing leaves that ring any more:
      what is in it is never retired, and no flush of it ever succeeds. */
  lemma StuckForever(xs: seq<Proxy>, acts: seq<Action>, nRanks: nat, queueSize: nat, i: nat, j: nat, k: nat)
    requires At(xs, acts, nRanks, queueSize, i, k) && i <= j < |xs| && Stuck(xs[i], k)
    ensures k < |xs[j].peers| && Stuck(xs[j], k)
    ensures var p := xs[i].peers[k]; var q := xs[j].peers[k];
      && p.ring != [] && Issued(q) == Issued(p) && q.done <= Issued(p)
      && (forall s <- q.retired :: s <= Issued(p))
  {
    hide Run, ProxyInv, InvGroups, InvOutcome, Inv, InOneLap;
    PeerAt(xs, acts, nRanks, queueSize, i, k);
    LooksEmptyExact(xs[i].peers[k]);
    RunLater(xs, acts, nRanks, queueSize, i, j);
    assert LaterPeer(xs[i], xs[j], k);
    PeerAt(xs, acts, nRanks, queueSize, j, k);
    RetiredLeftRing(xs[j].peers[k]);
  }

  lemma RetiredLeftRing(p: Peer)
    requires Inv(p)
    ensures p.done <= Issued(p) && p.twice == {} && (forall s <- p.retired :: 1 <= s <= Issued(p))
    ensures p.flight == [] ==> forall s :: 1 <= s <= Issued(p) ==> s in p.retired
  {
    UnpackInv(p);
    hide Inv, InvCore, InvPosted, InvRing, InvGets;
    if p.done > 0 { assert IsSettled(p, p.done) by { DoneSettled(p); } }
    if p.flight == [] {
      forall s | 1 <= s <= Issued(p) ensures s in p.retired { assert s in p.retired || InFlight(p.flight, s); }
    }
  }

  lemma DoneSettled(p: Peer)
    requires InvCore(p) && p.done > 0
    ensures IsSettled(p, p.done)
  {}

  /** The test flagcxHeteroRmaProxyQuiesce waits for. */
  predicate QuietTest(p: Peer) { LooksEmpty(p) && p.flight == [] }

  /** A closed peer that passes the test takes nothing more, starts nothing more, and retired
      nothing twice. Everything it accepted is retired exactly when the ring had no wrap inside it;
      otherwise what was in the ring stays there for good. */
  lemma QuietIsFinal(xs: seq<Proxy>, acts: seq<Action>, nRanks: nat, queueSize: nat, i: nat, j: nat, k: nat)
    requires At(xs, acts, nRanks, queueSize, i, k) && i <= j < |xs|
    requires Closed(xs[i], k) && QuietTest(xs[i].peers[k])
    requires InOneLap(xs[i].peers[k]) || xs[i].phase != Posting(k)
    ensures k < |xs[j].peers|
    ensures var p := xs[i].peers[k]; var q := xs[j].peers[k];
      && q.accepted == p.accepted && q.flight == [] && q.twice == {}
      && (q.ring == [] <==> InOneLap(p))
      && (forall s :: 1 <= s <= |p.accepted| ==> (s in q.retired <==> InOneLap(p) || s <= Issued(p)))
  {
    hide Run, ProxyInv, InvGroups, InvOutcome, Inv, InOneLap, InvBoard, LooksEmpty, Closed;
    PeerAt(xs, acts, nRanks, queueSize, i, k);
    RunLater(xs, acts, nRanks, queueSize, i, j);
    assert LaterPeer(xs[i], xs[j], k);
    PeerAt(xs, acts, nRanks, queueSize, j, k);
    var p, q := xs[i].peers[k], xs[j].peers[k];
    LooksEmptyExact(p);
    LooksEmptyExact(q);
    RetiredLeftRing(q);
  }

  /** A poisoned peer is drained while producers are locked out. Once its posted requests are back,
      every accepted descriptor has been retired exactly once, provided the drain began with no wrap
      inside the ring; otherwise the drain left the ring as it was, for good. */
  lemma DrainedNothingStranded(xs: seq<Proxy>, acts: seq<Action>, nRanks: nat, queueSize: nat,
                               b: nat, i: nat, j: nat, k: nat)
    requires At(xs, acts, nRanks, queueSize, b, k) && b <= i <= j < |xs|
    requires xs[b].phase == Draining(k)
    requires k < |xs[i].peers| && k in xs[i].drained && xs[i].peers[k].flight == []
    ensures k < |xs[j].peers|
    ensures var p := xs[b].peers[k]; var q := xs[j].peers[k];
      && q.accepted == p.accepted && q.flight == [] && q.twice == {}
      && (q.ring == [] <==> InOneLap(p))
      && (forall s :: 1 <= s <= |p.accepted| ==> (s in q.retired <==> InOneLap(p) || s <= Issued(p)))
  {
    hide Run, InvGroups, InvOutcome, Inv, InOneLap, InvBoard, LooksEmpty, AllReferenced, Clean, PeersInv;
    PeerAt(xs, acts, nRanks, queueSize, b, k);
    PeerAt(xs, acts, nRanks, queueSize, i, k);
    var p, r := xs[b].peers[k], xs[i].peers[k];
    RunLater(xs, acts, nRanks, queueSize, b, i);
    assert LaterPeer(xs[b], xs[i], k);
    assert QuietTest(r) && xs[i].phase != Posting(k);
    hide ProxyInv;
    LooksEmptyExact(p);
    LooksEmptyExact(r);
    LapsOfRings(p, r);
    QuietIsFinal(xs, acts, nRanks, queueSize, i, j, k);
  }

  /** The wait of flagcxHeteroRmaProxyQuiesce, after its barrier: a peer that passes the test is
      really idle exactly when no wrap lies inside its ring, and then it stays idle, with everything
      it accepted retired. */
  lemma QuiesceIsStable(xs: seq<Proxy>, acts: seq<Action>, nRanks: nat, queueSize: nat, i: nat, j: nat, k: nat)
    requires At(xs, acts, nRanks, queueSize, i, k) && i <= j < |xs|
    requires k in xs[i].barrier && QuietTest(xs[i].peers[k])
    ensures k < |xs[j].peers|
    ensures Idle(xs[i].peers[k]) <==> InOneLap(xs[i].peers[k])
    ensures xs[j].peers[k].accepted == xs[i].peers[k].accepted
    ensures InOneLap(xs[i].peers[k]) ==>
      Idle(xs[j].peers[k]) && forall s :: 1 <= s <= |xs[j].peers[k].accepted| ==> s in xs[j].peers[k].retired
    ensures !InOneLap(xs[i].peers[k]) && xs[i].phase != Posting(k) ==> !Idle(xs[j].peers[k])
  {
    hide Run, ProxyInv, InvGroups, InvOutcome, Inv, InOneLap, InvBoard, LooksEmpty;
    PeerAt(xs, acts, nRanks, queueSize, i, k);
    LooksEmptyExact(xs[i].peers[k]);
    RunLater(xs, acts, nRanks, queueSize, i, j);
    assert LaterPeer(xs[i], xs[j], k);
    if InOneLap(xs[i].peers[k]) || xs[i].phase != Posting(k) {
      QuietIsFinal(xs, acts, nRanks, queueSize, i, j, k);
    }
  }

  /** A caller that hands a peer fewer than 2^32 descriptors never meets the wrap: drain and quiesce
      then mean that everything is retired. */
  lemma FewOperationsAllRetired(xs: seq<Proxy>, acts: seq<Action>, nRanks: nat, queueSize: nat,
                                i: nat, j: nat, k: nat, s: nat)
    requires At(xs, acts, nRanks, queueSize, i, k) && i <= j < |xs|
    requires Closed(xs[i], k) && QuietTest(xs[i].peers[k]) && |xs[i].peers[k].accepted| < WRAP
    requires 1 <= s <= |xs[i].peers[k].accepted|
    ensures k < |xs[j].peers| && Idle(xs[j].peers[k]) && s in xs[j].peers[k].retired
  {
    hide Run, ProxyInv, InvGroups, InvOutcome, Inv, InvBoard, LooksEmpty;
    PeerAt(xs, acts, nRanks, queueSize, i, k);
    FewOperationsInOneLap(xs[i].peers[k]);
    hide InOneLap;
    QuietIsFinal(xs, acts, nRanks, queueSize, i, j, k);
  }

  lemma FewOperationsInOneLap(p: Peer)
    requires Inv(p) && |p.accepted| < WRAP
    ensures InOneLap(p)
  {
    hide Inv, LooksEmpty, SameLap;
    LooksEmptyExact(p);
    FirstLap(p.opSeq - |p.ring|, |p.ring|);
  }
}
