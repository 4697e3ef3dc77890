// Why the wrap of the ring indices matters: a run on which a drained and quiesced peer keeps a
// descriptor for good. Operations succeed one by one until the producer index is one short of
// 2^32. Then a post fails while the next descriptor is being enqueued, and the drain takes the ring
// for empty.

module RmaWrapGap {
  import opened Results
  import opened NetTransport
  import opened RmaIndex
  import opened RmaPeer
  import opened RmaBoard
  import opened RmaFlow
  import opened RmaGets
  import opened RmaSteps
  import opened RmaProgress
  import opened RmaIssue
  import opened RmaProxy
  import opened RmaOnePeer
  import opened RmaRuns
  import opened RmaTheorems

  ghost predicate Reached(x: Proxy) {
    exists xs: seq<Proxy>, acts: seq<Action> :: Run(xs, acts, 1, 2) && xs[|acts|] == x
  }

  lemma ReachedStart()
    ensures Reached(NewProxy(1, 2))
  {
    assert Run([NewProxy(1, 2)], [], 1, 2);
  }

  lemma ReachedInv(x: Proxy)
    requires Reached(x)
    ensures ProxyInv(x)
  {
    hide ProxyInv, Apply, Can, NewProxy;
    var xs, acts :| Run(xs, acts, 1, 2) && xs[|acts|] == x;
    RunInv(xs, acts, 1, 2, |acts|);
  }

  lemma ReachedStep(x: Proxy, a: Action)
    requires Reached(x) && Shaped(x) && Can(x, a)
    ensures Reached(Apply(x, a))
  {
    hide Apply, Can, NewProxy;
    var xs, acts :| Run(xs, acts, 1, 2) && xs[|acts|] == x;
    var ys, more := xs + [Apply(x, a)], acts + [a];
    forall i | 0 <= i < |more| ensures Shaped(ys[i]) && Can(ys[i], more[i]) && ys[i + 1] == Apply(ys[i], more[i]) {
      if i < |acts| { assert Shaped(xs[i]) && xs[i + 1] == Apply(xs[i], acts[i]); }
    }
    assert Run(ys, more, 1, 2);
  }

  /** n descriptors were accepted, and all but these were retired. */
  ghost predicate Holds(p: Peer, n: nat, ring: seq<Desc>, flight: seq<Flight>) {
    p.queueSize == 2 && p.opSeq == n && p.ring == ring && p.flight == flight
  }

  ghost predicate Rested(p: Peer, n: nat) { Holds(p, n, [], []) }

  /** The last descriptor is in the ring. */
  ghost predicate Waiting(p: Peer, n: nat) { Holds(p, n, [PUT.(opSeq := n)], []) }

  function Sent(n: nat, result: Status): Flight { Flight(PUT.(opSeq := n), false, result, false, 0) }

  /** It is in progress. */
  ghost predicate Flying(p: Peer, n: nat, result: Status) { Holds(p, n, [], [Sent(n, result)]) }

  lemma OneInv(p: Peer, locked: bool, phase: Phase, pending: bool)
    requires Reached(One(p, locked, phase, pending))
    ensures Inv(p) && Shaped(One(p, locked, phase, pending))
    ensures !pending ==> Clean(p)
  {
    var x := One(p, locked, phase, pending);
    ReachedInv(x);
    assert x.peers[0] == p;
    hide Reached, Inv, Clean, Guards, PublishedIdle;
  }

  // ---------------------------------------------------------------------- what the steps do

  lemma RestedDone(p: Peer, n: nat)
    requires Inv(p) && Rested(p, n) && Clean(p)
    ensures p.board.next == n + 1 && p.board.capacity == 4
  {
    RetiredLeftRing(p);
  }

  lemma RestedEnqueues(p: Peer, n: nat)
    requires Inv(p) && Clean(p) && Rested(p, n) && n < WRAP
    ensures Waiting(EnqueueBatch(p, [PUT]).0, n + 1)
  {
    hide Inv, Clean, TrackAll;
    RestedDone(p, n);
    EnqueueBatchKeeps(p, [PUT]);
    assert Stamp([PUT], n) == [PUT.(opSeq := n + 1)];
  }

  lemma WaitingDone(p: Peer, n: nat)
    requires Inv(p) && Waiting(p, n) && Clean(p) && n >= 1
    ensures p.board.next == n && p.board.capacity == 4
  {
    RetiredLeftRing(p);
  }

  /** Room for one more while the last is in progress. */
  lemma FlyingEnqueues(p: Peer, n: nat, result: Status)
    requires Inv(p) && Flying(p, n, result) && n < WRAP && p.board.next == n && p.board.capacity == 4
    ensures Holds(EnqueueBatch(p, [PUT]).0, n + 1, [PUT.(opSeq := n + 1)], [Sent(n, result)])
  {
    hide Inv, TrackAll;
    EnqueueBatchKeeps(p, [PUT]);
    assert Stamp([PUT], n) == [PUT.(opSeq := n + 1)];
  }

  /** The event-free PUT at the head is posted alone. */
  function Answer(n: nat, post: Status): World { World(None, n, true, 1, post, 0, _ => false) }

  lemma WaitingIssues(p: Peer, n: nat, post: Status)
    requires Waiting(p, n) && (post == Success || post == RemoteError)
    ensures var (q, raise, again) := Issue(p, Answer(n, post));
      Flying(q, n, post) && q.board == p.board && raise == (post != Success) && again == (post == Success)
  {
    assert BatchLength(p.ring, 1, n) <= 1;
    assert Decide(p, Answer(n, post)) == PostOne;
  }

  /** The index words of a waiting peer: the test fails for n == 2^32 only. */
  lemma WaitingLooks(p: Peer, n: nat)
    requires Waiting(p, n) && 1 <= n <= WRAP
    ensures LooksEmpty(p) <==> n == WRAP
  {}

  lemma FlyingRetires(p: Peer, m: nat, ring: seq<Desc>, n: nat, result: Status)
    requires Inv(p) && Holds(p, m, ring, [Sent(n, result)]) && (result == Success || result == RemoteError)
    requires result == Success ==> Clean(p)
    ensures var (q, raise) := PollFlight(p, 0, NotDone);
      Holds(q, m, ring, []) && raise == (result != Success)
  {
    assert Without(p.flight, 0) == [];
    var p1 := p.(flight := []);
    assert PollFlight(p, 0, NotDone) == Retire(p1, p.flight[0].desc, result);
    RetireFlightQueues(p, 0, result);
    RetireKeepsCore(p1, n, result);
    hide Inv, InvCore, InvPosted, TrackCompletion;
    RetireFrame(p1, p.flight[0].desc, result);
  }

  // ---------------------------------------------------------------------------- the run

  lemma RunEnter(p: Peer, phase: Phase)
    requires Reached(One(p, false, phase, false)) && phase != Draining(0)
    ensures Reached(One(p, true, phase, false))
  {
    var x := One(p, false, phase, false);
    OneInv(p, false, phase, false);
    hide Reached, Inv;
    assert Apply(x, Enter(0)) == One(p, true, phase, false);
    ReachedStep(x, Enter(0));
  }

  lemma RunEnqueue(p: Peer, n: nat, phase: Phase, pending: bool) returns (q: Peer)
    requires Reached(One(p, true, phase, pending))
    ensures q == EnqueueBatch(p, [PUT]).0 && Reached(One(q, false, phase, pending))
  {
    var x := One(p, true, phase, pending);
    var a := TryBatch(0, [PUT]);
    q := EnqueueBatch(p, [PUT]).0;
    OneInv(p, true, phase, pending);
    hide Reached, Inv, EnqueueBatch;
    assert Apply(x, a) == One(q, false, phase, pending);
    ReachedStep(x, a);
  }

  /** From polling to the answer of the adaptor. */
  lemma RunIssue(p: Peer, n: nat, locked: bool, post: Status) returns (q: Peer)
    requires Reached(One(p, locked, Polling(0), false)) && Waiting(p, n) && 1 <= n < WRAP
    requires post == Success || post == RemoteError
    ensures Flying(q, n, post) && q.board == p.board
    ensures Reached(One(q, locked, PassEnd, post != Success))
  {
    hide Reached, Inv, Issue, Prune, LooksEmpty, Clean;
    var x := One(p, locked, Polling(0), false);
    OneInv(p, locked, Polling(0), false);
    var p1 := Prune(p);
    assert Waiting(p1, n) && p1.board == p.board by { PruneWaits(p, n); }
    assert Apply(x, EndPoll(true, false)) == One(p1, locked, Issuing(0), false);
    ReachedStep(x, EndPoll(true, false));
    WaitingLooks(p1, n);
    RunTest(p1, locked);
    WaitingIssues(p1, n, post);
    q := RunPost(p1, n, locked, post);
    if post == Success {
      FlyingLooks(q, n, post);
      RunTest(q, locked);
    }
  }

  lemma PruneWaits(p: Peer, n: nat)
    requires Waiting(p, n)
    ensures Waiting(Prune(p), n) && Prune(p).board == p.board
  {}

  lemma FlyingLooks(p: Peer, n: nat, result: Status)
    requires Flying(p, n, result)
    ensures LooksEmpty(p)
  {}

  lemma RunTest(p: Peer, locked: bool)
    requires Reached(One(p, locked, Issuing(0), false))
    ensures Reached(One(p, locked, if LooksEmpty(p) then PassEnd else Posting(0), false))
  {
    var x := One(p, locked, Issuing(0), false);
    OneInv(p, locked, Issuing(0), false);
    hide Reached, Inv, LooksEmpty;
    assert Apply(x, TestRing) == One(p, locked, if LooksEmpty(p) then PassEnd else Posting(0), false);
    ReachedStep(x, TestRing);
  }

  lemma RunPost(p: Peer, n: nat, locked: bool, post: Status) returns (q: Peer)
    requires Reached(One(p, locked, Posting(0), false)) && Waiting(p, n)
    requires post == Success || post == RemoteError
    ensures Flying(q, n, post) && q.board == p.board
    ensures Reached(One(q, locked, if post == Success then Issuing(0) else PassEnd, post != Success))
  {
    var x := One(p, locked, Posting(0), false);
    var a := IssueOne(Answer(n, post));
    hide Reached, Inv, Issue, Flying, Clean, Answer, ProxyInv;
    ReachedInv(x);
    assert x.peers[0] == p && Shaped(x);
    OneInv(p, locked, Posting(0), false);
    PostingCanGoOn(x, Answer(n, post));
    IssueShape(x, a);
    hide Apply, Can;
    WaitingIssues(p, n, post);
    q := Issue(p, Answer(n, post)).0;
    assert x.peers[0 := q] == [q];
    assert Apply(x, a) == One(q, locked, if post == Success then Issuing(0) else PassEnd, post != Success);
    ReachedStep(x, a);
  }

  /** The next pass retires it. */
  lemma RunRetire(p: Peer, m: nat, ring: seq<Desc>, n: nat, result: Status) returns (q: Peer)
    requires Reached(One(p, false, PassEnd, result != Success)) && Holds(p, m, ring, [Sent(n, result)])
    requires result == Success || result == RemoteError
    ensures Holds(q, m, ring, []) && Reached(One(q, false, Polling(0), result != Success))
  {
    hide Reached, Inv, Clean, PollFlight;
    var x := One(p, false, PassEnd, result != Success);
    OneInv(p, false, PassEnd, result != Success);
    assert x.peers[0].flight != [];
    var y := One(p, false, Polling(0), result != Success);
    assert Apply(x, FinishPass) == y;
    ReachedStep(x, FinishPass);
    FlyingRetires(p, m, ring, n, result);
    q := PollFlight(p, 0, NotDone).0;
    assert Apply(y, PollOne(0, NotDone)) == One(q, false, Polling(0), result != Success);
    ReachedStep(y, PollOne(0, NotDone));
  }

  /** Any number of operations below 2^32 can succeed one after the other. */
  lemma {:induction false} RunSucceeds(n: nat) returns (p: Peer)
    requires n < WRAP
    ensures Rested(p, n) && Reached(One(p, false, Polling(0), false))
    decreases n
  {
    if n == 0 {
      p := NewPeer(2);
      ReachedStart();
      assert NewProxy(1, 2) == One(p, false, Polling(0), false);
    } else {
      p := RunSucceeds(n - 1);
      p := RunEnqueueNext(p, n - 1);
      p := RunIssue(p, n, false, Success);
      p := RunRetire(p, n, [], n, Success);
    }
  }

  lemma RunEnqueueNext(p: Peer, n: nat) returns (q: Peer)
    requires Reached(One(p, false, Polling(0), false)) && Rested(p, n) && n < WRAP
    ensures Waiting(q, n + 1) && Reached(One(q, false, Polling(0), false))
  {
    hide Reached, Inv, Clean, Waiting, Rested;
    OneInv(p, false, Polling(0), false);
    RestedEnqueues(p, n);
    RunEnter(p, Polling(0));
    q := RunEnqueue(p, n, Polling(0), false);
  }

  /** Operation 2^32 - 1 fails while operation 2^32 is being enqueued. */
  lemma RunFails() returns (p: Peer)
    ensures Waiting(p, WRAP) && Reached(One(p, false, Polling(0), true))
  {
    hide Reached, Inv, Clean, Waiting, Rested, Flying, Holds;
    var n := WRAP - 1;
    p := RunSucceeds(n - 1);
    p := RunEnqueueNext(p, n - 1);
    OneInv(p, false, Polling(0), false);
    WaitingDone(p, n);
    RunEnter(p, Polling(0));
    p := RunIssue(p, n, true, RemoteError);
    OneInv(p, true, PassEnd, true);
    FlyingEnqueues(p, n, RemoteError);
    p := RunEnqueue(p, n, PassEnd, true);
    p := RunRetire(p, n + 1, [PUT.(opSeq := n + 1)], n, RemoteError);
    assert Waiting(p, WRAP) by { RingWaits(p, n + 1); }
  }

  lemma RingWaits(p: Peer, n: nat)
    requires Holds(p, n, [PUT.(opSeq := n)], [])
    ensures Waiting(p, n)
  {}

  /** The poisoned peer is drained, and a quiesce passes its barrier. */
  lemma RunDrains(p: Peer)
    requires Waiting(p, WRAP) && Reached(One(p, false, Polling(0), true))
    ensures Waiting(Prune(p), WRAP)
    ensures Reached(Proxy([Prune(p)], [false], PassEnd, true, false, true, false, {0}, {0}))
  {
    hide Reached, Inv, Clean, Prune, Waiting, LooksEmpty;
    var q := Prune(p);
    PruneWaits(p, WRAP);
    WaitingLooks(q, WRAP);
    var x0 := One(p, false, Polling(0), true);
    var x1 := One(q, false, Draining(0), true);
    var x2 := x1.(phase := PassEnd, drained := {0});
    var x3 := x2.(quiesced := true);
    assert Apply(x0, EndPoll(true, false)) == x1;
    ReachedStep(x0, EndPoll(true, false));
    assert Apply(x1, EndDrain) == x2;
    ReachedStep(x1, EndDrain);
    assert Apply(x2, Quiesce) == x3;
    ReachedStep(x2, Quiesce);
    assert Apply(x3, PassBarrier(0)) == x3.(barrier := {0});
    ReachedStep(x3, PassBarrier(0));
  }

  /** A reachable state in which the peer was drained and passes the test of the quiesce, while its
      last descriptor is in the ring; by StuckForever it stays there in every later state. */
  lemma WrapStrandsDescriptor()
    ensures exists xs: seq<Proxy>, acts: seq<Action>, i: nat ::
      && At(xs, acts, 1, 2, i, 0) && Stuck(xs[i], 0)
      && 0 in xs[i].drained && 0 in xs[i].barrier && QuietTest(xs[i].peers[0])
      && |xs[i].peers[0].accepted| == WRAP && xs[i].peers[0].ring != [] && WRAP !in xs[i].peers[0].retired
  {
    var p := RunFails();
    RunDrains(p);
    var q := Prune(p);
    var x := Proxy([q], [false], PassEnd, true, false, true, false, {0}, {0});
    hide Run, Reached, Waiting, Prune, LooksEmpty, InOneLap, ProxyInv, Inv;
    StrandedFacts(x, q);
    var xs, acts :| Run(xs, acts, 1, 2) && xs[|acts|] == x;
    assert At(xs, acts, 1, 2, |acts|, 0);
  }

  lemma StrandedFacts(x: Proxy, q: Peer)
    requires x == Proxy([q], [false], PassEnd, true, false, true, false, {0}, {0})
    requires Reached(x) && Waiting(q, WRAP)
    ensures Stuck(x, 0) && QuietTest(q) && |q.accepted| == WRAP && q.ring != [] && WRAP !in q.retired
  {
    ReachedInv(x);
    assert Inv(x.peers[0]) by { hide Inv; }
    WaitingLooks(q, WRAP);
    LooksEmptyExact(q);
    RetiredLeftRing(q);
  }
}
