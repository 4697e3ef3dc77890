// Two short runs. A flush can report success for a failed operation: the published number counts retired
// operations, and the error becomes public only at the end of the pass. And an operation that the
// adaptor's test ends with InProgress is retired without ever being published.

module RmaFlushGap {
  import opened Results
  import opened NetTransport
  import opened RmaPeer
  import opened RmaBoard
  import opened RmaGets
  import opened RmaProxy
  import opened RmaOnePeer
  import opened RmaRuns
  import opened RmaTheorems
  import Visibility

  const FIRST := PUT.(opSeq := 1)
  const REFUSED := World(None, 1, true, 1, RemoteError, 0, _ => false)

  /** One PUT is accepted on an empty peer. */
  function Accepted(): Peer {
    NewPeer(2).(ring := [FIRST], opSeq := 1, accepted := [FIRST],
                board := NewPeer(2).board.(entries := map[1 := Pending(ContextOf(FIRST), false)]))
  }

  /** The adaptor refused it. */
  function Refused(): Peer {
    Accepted().(ring := [], posted := {1}, flight := [Flight(FIRST, false, RemoteError, false, 0)])
  }

  /** It is retired with the error. */
  function Failed(): Peer {
    Refused().(flight := [], retired := map[1 := RemoteError], done := 1,
               board := Board(4, GENERATION, 2, map[], RemoteError, map[]))
  }

  lemma AcceptOne()
    ensures EnqueueBatch(NewPeer(2), [PUT]) == (Accepted(), Success)
  {
    var ds := [PUT];
    var p := NewPeer(2);
    assert Stamp(ds, 0) == [FIRST];
    assert [FIRST][..0] == [];
    assert TrackAll(p.board, [FIRST][..0]) == (p.board, Success);
    assert TrackAll(p.board, [FIRST]) == TrackSubmit(p.board, ContextOf(FIRST), false);
    var b := TrackSubmit(p.board, ContextOf(FIRST), false).0;
    assert Accept(p, [FIRST], b) == Accepted();
  }

  lemma RefuseOne()
    ensures Issue(Accepted(), REFUSED) == (Refused(), true, false)
  {
    var p := Accepted();
    assert BatchLength(p.ring, 1, 1) <= 1;
    assert Decide(p, REFUSED) == PostOne;
    assert p.ring[1..] == [] && p.posted + {1} == {1};
    var f := Flight(FIRST, false, RemoteError, false, 0);
    assert Launch(p.(posted := {1}), f) == Refused();
  }

  lemma RetireOne()
    ensures PollFlight(Refused(), 0, NotDone) == (Failed(), true)
  {
    var p := Refused();
    assert Without(p.flight, 0) == [];
    var marked := Board(4, GENERATION, 1, map[1 := Retired(ContextOf(FIRST), false, RemoteError)], RemoteError, map[]);
    assert MarkRetired(p.board, ContextOf(FIRST), RemoteError) == marked;
    assert marked.entries - {1} == map[];
    var slid := Board(4, GENERATION, 2, map[], RemoteError, map[]);
    assert Advance(marked) == Advance(slid) == slid;
  }

  lemma StepEnter()
    ensures NewProxy(1, 2) == One(NewPeer(2), false, Polling(0), false)
    ensures var x := One(NewPeer(2), false, Polling(0), false);
      Can(x, Enter(0)) && Apply(x, Enter(0)) == One(NewPeer(2), true, Polling(0), false)
  {}

  lemma StepEnqueue()
    ensures var x := One(NewPeer(2), true, Polling(0), false);
      var a := TryBatch(0, [PUT]);
      Can(x, a) && Apply(x, a) == One(Accepted(), false, Polling(0), false)
  {
    AcceptOne();
    hide EnqueueBatch, NewPeer, Accepted;
  }

  lemma StepDecide()
    ensures var x := One(Accepted(), false, Polling(0), false);
      Can(x, EndPoll(true, false)) && Apply(x, EndPoll(true, false)) == One(Accepted(), false, Issuing(0), false)
  {
    assert Prune(Accepted()) == Accepted();
    hide Prune;
  }

  lemma StepTest()
    ensures var x := One(Accepted(), false, Issuing(0), false);
      Can(x, TestRing) && Apply(x, TestRing) == One(Accepted(), false, Posting(0), false)
  {}

  lemma StepRefuse()
    ensures var x := One(Accepted(), false, Posting(0), false);
      Can(x, IssueOne(REFUSED)) && Apply(x, IssueOne(REFUSED)) == One(Refused(), false, PassEnd, true)
  {
    RefuseOne();
    assert Accepted().ring != [];
    hide Issue, Accepted, Refused;
  }

  lemma StepPass()
    ensures var x := One(Refused(), false, PassEnd, true);
      Can(x, FinishPass) && Apply(x, FinishPass) == One(Refused(), false, Polling(0), true)
  {
    assert Refused().flight != [];
    hide Refused;
    var x := One(Refused(), false, PassEnd, true);
    assert x.peers[0].flight != [];
  }

  lemma StepRetire()
    ensures var x := One(Refused(), false, Polling(0), true);
      Can(x, PollOne(0, NotDone)) && Apply(x, PollOne(0, NotDone)) == One(Failed(), false, Polling(0), true)
  {
    RetireOne();
    assert |Refused().flight| == 1;
    hide PollFlight, Refused, Failed;
  }

  /** A reachable state in which flushing sequence 1 answers success although operation 1 failed. */
  lemma FlushSuccessAfterFailure()
    ensures exists xs: seq<Proxy>, acts: seq<Action>, i: nat ::
      && At(xs, acts, 1, 2, i, 0)
      && FlushTest(xs[i].peers[0].done, xs[i].rmaError, 1) == Some(Success)
      && 1 in xs[i].peers[0].retired && xs[i].peers[0].retired[1] == RemoteError
  {
    StepEnter(); StepEnqueue(); StepDecide(); StepTest(); StepRefuse(); StepPass(); StepRetire();
    hide Can, Apply, NewProxy;
    var acts := [Enter(0), TryBatch(0, [PUT]), EndPoll(true, false), TestRing,
                 IssueOne(REFUSED), FinishPass, PollOne(0, NotDone)];
    var xs := [One(NewPeer(2), false, Polling(0), false), One(NewPeer(2), true, Polling(0), false),
               One(Accepted(), false, Polling(0), false), One(Accepted(), false, Issuing(0), false),
               One(Accepted(), false, Posting(0), false),
               One(Refused(), false, PassEnd, true), One(Refused(), false, Polling(0), true),
               One(Failed(), false, Polling(0), true)];
    forall i | 0 <= i < |acts|
      ensures Shaped(xs[i]) && Can(xs[i], acts[i]) && xs[i + 1] == Apply(xs[i], acts[i])
    {
      if i == 0 {} else if i == 1 {} else if i == 2 {} else if i == 3 {} else if i == 4 {} else if i == 5 {} else {}
    }
    assert At(xs, acts, 1, 2, 7, 0);
  }

  // ------------------------------------------------------- retired and never published

  const POSTED := World(None, 1, true, 1, Success, 0, _ => true)

  /** The adaptor took the PUT and returned a request. */
  function Native(): Peer {
    Accepted().(ring := [], posted := {1}, flight := [Flight(FIRST, true, Success, false, 0)])
  }

  /** Its test answered InProgress as an error. */
  function Stranded(): Peer {
    Native().(flight := [], retired := map[1 := InProgress])
  }

  lemma PostNative()
    ensures Issue(Accepted(), POSTED) == (Native(), false, true)
  {
    var p := Accepted();
    assert BatchLength(p.ring, 1, 1) <= 1;
    assert Decide(p, POSTED) == PostOne;
    assert p.ring[1..] == [] && p.posted + {1} == {1};
    var f := Flight(FIRST, true, Success, false, 0);
    assert TrackGet(p, FIRST) == (p.domains, 0, Success);
    assert Launch(p.(posted := {1}), f) == Native();
  }

  lemma StrandOne()
    ensures PollFlight(Native(), 0, Probe.Failed(InProgress)) == (Stranded(), true)
  {
    var p := Native();
    assert Without(p.flight, 0) == [];
    assert TrackCompletion(p.board, ContextOf(FIRST), InProgress) == (p.board, Success);
    assert p.retired[1 := InProgress] == map[1 := InProgress];
  }

  lemma StepPost()
    ensures var x := One(Accepted(), false, Posting(0), false);
      Can(x, IssueOne(POSTED)) && Apply(x, IssueOne(POSTED)) == One(Native(), false, Issuing(0), false)
  {
    PostNative();
    assert Accepted().ring != [];
    hide Issue, Accepted, Native;
  }

  lemma StepNone()
    ensures var x := One(Native(), false, Issuing(0), false);
      Can(x, TestRing) && Apply(x, TestRing) == One(Native(), false, PassEnd, false)
  {}

  lemma StepAgain()
    ensures var x := One(Native(), false, PassEnd, false);
      Can(x, FinishPass) && Apply(x, FinishPass) == One(Native(), false, Polling(0), false)
  {}

  lemma StepStrand()
    ensures var x := One(Native(), false, Polling(0), false);
      var a := PollOne(0, Probe.Failed(InProgress));
      Can(x, a) && Apply(x, a) == One(Stranded(), false, Polling(0), true)
  {
    StrandOne();
    assert |Native().flight| == 1;
    hide PollFlight, Native, Stranded;
  }

  /** A reachable state in which operation 1 was retired, nothing is left in the ring or in progress, and
      nothing is published; by InProgressStrands nothing ever is. */
  lemma InProgressIsReachable()
    ensures exists xs: seq<Proxy>, acts: seq<Action>, i: nat ::
      && At(xs, acts, 1, 2, i, 0) && Idle(xs[i].peers[0])
      && xs[i].peers[0].retired == map[1 := InProgress] && xs[i].peers[0].done == 0
  {
    StepEnter(); StepEnqueue(); StepDecide(); StepTest(); StepPost(); StepNone(); StepAgain(); StepStrand();
    hide Can, Apply, NewProxy;
    var acts := [Enter(0), TryBatch(0, [PUT]), EndPoll(true, false), TestRing, IssueOne(POSTED),
                 TestRing, FinishPass, PollOne(0, Probe.Failed(InProgress))];
    var xs := [One(NewPeer(2), false, Polling(0), false), One(NewPeer(2), true, Polling(0), false),
               One(Accepted(), false, Polling(0), false), One(Accepted(), false, Issuing(0), false),
               One(Accepted(), false, Posting(0), false), One(Native(), false, Issuing(0), false),
               One(Native(), false, PassEnd, false), One(Native(), false, Polling(0), false),
               One(Stranded(), false, Polling(0), true)];
    forall i | 0 <= i < |acts|
      ensures Shaped(xs[i]) && Can(xs[i], acts[i]) && xs[i + 1] == Apply(xs[i], acts[i])
    {
      if i == 0 {} else if i == 1 {} else if i == 2 {} else if i == 3 {}
      else if i == 4 {} else if i == 5 {} else if i == 6 {} else {}
    }
    assert At(xs, acts, 1, 2, 8, 0);
  }
}
