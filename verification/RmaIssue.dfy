// One iteration of the issue loop, and the drain of a poisoned peer.

module RmaIssue {
  import opened Results
  import opened NetTransport
  import opened RmaIndex
  import opened RmaPeer
  import opened RmaBoard
  import opened RmaFlow
  import opened RmaGets
  import opened RmaSteps
  import opened RmaProgress
  import Visibility

  /** What one step of the issue loop guarantees about its results. */
  ghost predicate StepOk(p: Peer, q: Peer, raise: bool, again: bool) {
    && Inv(q) && Evolves(p, q)
    && (Clean(p) && !raise ==> Clean(q))
    && (AllReferenced(p) ==> AllReferenced(q))
    && (AllReferenced(p) && Clean(p) && again ==> !raise)
  }

  lemma StepCompose(p: Peer, p1: Peer, q: Peer, raise: bool, again: bool)
    requires StepOk(p1, q, raise, again) && Evolves(p, p1)
    requires Clean(p) ==> Clean(p1)
    requires AllReferenced(p) ==> AllReferenced(p1)
    ensures StepOk(p, q, raise, again)
  {
    EvolvesTransitive(p, p1, q);
    hide Evolves, Inv, Clean, AllReferenced;
  }

  lemma ReferencesFrame(p: Peer, q: Peer)
    requires AllReferenced(p) && q.flight == p.flight && q.domains == p.domains
    ensures AllReferenced(q)
  {
    forall k | k in q.domains ensures Referenced(q, k) { assert Referenced(p, k); }
  }

  lemma LaunchReferences(p: Peer, fs: seq<Flight>)
    requires |fs| <= |p.ring| && AllReferenced(p)
    ensures AllReferenced(LaunchAll(p, fs))
  {
    var q := LaunchAll(p, fs);
    forall k | k in q.domains ensures Referenced(q, k) {
      assert Referenced(p, k);
      var i :| 0 <= i < |p.flight| && p.flight[i].getSeq != 0 && p.flight[i].desc.key == k;
      assert q.flight[i] == p.flight[i];
    }
  }

  lemma HeadAccepted(p: Peer)
    requires Inv(p) && p.ring != []
    ensures InvAccepted(p) && WellFormed(p.ring[0]) && p.ring[0] in p.accepted
    ensures p.ring[0].opSeq == Issued(p) + 1
    ensures forall i :: 0 <= i < |p.ring| ==> WellFormed(p.ring[i])
  {
    RingHead(p);
  }

  // ------------------------------------------------------------------- the release gate

  /** A finished group without failures lets its release through. */
  lemma DeniedMeansFailure(p: Peer, d: Desc)
    requires InvGroups(p) && d in p.accepted && d.kind == Release && WellFormed(d) && d.group in p.board.groups
    requires GroupTest(p.board.groups[d.group]).0 && !ReleaseAllowed(p, d)
    ensures !Clean(p)
    ensures exists m <- Members(p, d.group) :: IsSettled(p, m) && p.retired[m] != Success
  {
    GateExact(p, d);
    hide InvGroups, ReleaseAllowed, Members;
    var m :| m in Members(p, d.group) && !(m in p.retired && p.retired[m] == Success);
    assert IsSettled(p, m);
  }

  lemma IssueDenied(p: Peer, e: Status)
    requires Inv(p) && p.ring != [] && |p.flight| < p.queueSize && e != Success
    requires p.ring[0].kind == Release && p.ring[0].group in p.board.groups
    requires GroupTest(p.board.groups[p.ring[0].group]).0 && !ReleaseAllowed(p, p.ring[0])
    ensures StepOk(p, Launch(p, Flight(p.ring[0], false, e, false, 0)), false, true)
  {
    HeadAccepted(p);
    DeniedMeansFailure(p, p.ring[0]);
    var f := Flight(p.ring[0], false, e, false, 0);
    assert LaunchAll(p, [f]) == Launch(p, f);
    hide Inv, ReleaseAllowed, Evolves, Clean, Members, AllReferenced;
    LaunchKeeps(p, [f]);
    if AllReferenced(p) { LaunchReferences(p, [f]); }
  }

  // ------------------------------------------------------------------ stream events

  lemma CleanRetired(p: Peer, q: Peer, s: nat, result: Status, raise: bool)
    requires q.retired == p.retired[s := result] && q.flight == p.flight
    requires !raise ==> result == Success
    requires raise && result == Success ==> exists t <- p.retired :: p.retired[t] != Success
    ensures Clean(p) && !raise ==> Clean(q)
    ensures Clean(p) && result == Success ==> !raise
  {}

  lemma IssueEvent(p: Peer, result: Status)
    requires Inv(p) && p.ring != [] && (result == Success ==> p.ring[0].kind == IpcGet)
    ensures var (q, raise) := Retire(p.(ring := p.ring[1..]), p.ring[0], result);
      StepOk(p, q, raise, result == Success)
  {
    HeadAccepted(p);
    hide Inv, Evolves, Retire, InvAccepted, AllReferenced, Clean;
    RetireRingKeeps(p, result);
    var (q, raise) := Retire(p.(ring := p.ring[1..]), p.ring[0], result);
    if AllReferenced(p) { ReferencesFrame(p, q); }
    CleanRetired(p, q, p.ring[0].opSeq, result, raise);
  }

  // ----------------------------------------------------------------------- posting

  lemma CleanAppend(p: Peer, q: Peer, fs: seq<Flight>)
    requires Clean(p) && q.retired == p.retired && q.flight == p.flight + fs
    requires forall i :: 0 <= i < |fs| ==> fs[i].result == Success
    ensures Clean(q)
  {}

  lemma PostedHeads(p: Peer, n: nat)
    requires Inv(p) && n <= |p.ring|
    requires forall i :: 0 <= i < n ==>
      p.ring[i].kind != IpcGet && (p.ring[i].kind == Release ==> AllSucceeded(p, p.ring[i].group))
    ensures var q := p.(posted := p.posted + HeadSeqs(p.ring, n));
      Inv(q) && Evolves(p, q) && (Clean(p) ==> Clean(q)) && (AllReferenced(p) ==> AllReferenced(q))
  {
    var ts := HeadSeqs(p.ring, n);
    hide Inv, AllSucceeded, Evolves, AllReferenced;
    MarkPosted(p, ts, n);
    if AllReferenced(p) { ReferencesFrame(p, p.(posted := p.posted + ts)); }
  }

  /** Descriptors without a GET sequence move to the in-progress queue. */
  lemma IssuePlain(p: Peer, fs: seq<Flight>, raise: bool, again: bool)
    requires Inv(p) && |fs| <= |p.ring| && |p.flight| + |fs| <= p.queueSize
    requires forall i :: 0 <= i < |fs| ==>
      && fs[i].desc == p.ring[i] && fs[i].getSeq == 0 && !fs[i].dataDone
      && (fs[i].desc.needsFlush ==> fs[i].result != Success)
      && (fs[i].result == Success || raise)
    requires raise && again ==> !AllReferenced(p)
    ensures StepOk(p, LaunchAll(p, fs), raise, again)
  {
    hide Inv, Evolves, Clean, AllReferenced;
    LaunchKeeps(p, fs);
    if AllReferenced(p) { LaunchReferences(p, fs); }
    if Clean(p) && !raise { CleanAppend(p, LaunchAll(p, fs), fs); }
  }

  /** The entries the adaptor reports as posted; an impossible count posts nothing. */
  function PostedCount(count: nat, w: World): (n: nat)
    ensures n <= count
  {
    if w.posted > count then 0 else w.posted
  }

  lemma BatchIsLaunch(p: Peer, count: nat, w: World)
    requires count <= |p.ring|
    ensures var p1 := p.(posted := p.posted + HeadSeqs(p.ring, count));
      var n := PostedCount(count, w);
      PostBatch(p, count, w) ==
        (LaunchAll(p1, BatchFlights(p.ring, n, w.requests)), BatchFatal(w.post, w.posted, count),
         n > 0 && !BatchFatal(w.post, w.posted, count))
  {
    assert p.ring[0..] == p.ring;
    assert p.flight + BatchFlights(p.ring, 0, w.requests) == p.flight;
    hide HeadSeqs;
  }

  lemma IssueBatch(p: Peer, count: nat, w: World)
    requires Inv(p) && count <= |p.ring| && |p.flight| + count <= p.queueSize
    requires forall i :: 0 <= i < count ==> p.ring[i].kind == Put
    ensures var (q, raise, again) := PostBatch(p, count, w);
      StepOk(p, q, raise, again)
  {
    hide Inv, Evolves, Clean, AllReferenced, StepOk, InvAccepted, HeadSeqs, PostBatch, BatchFatal;
    if p.ring != [] { HeadAccepted(p); }
    PostedHeads(p, count);
    BatchIsLaunch(p, count, w);
    var p1 := p.(posted := p.posted + HeadSeqs(p.ring, count));
    var n := PostedCount(count, w);
    var fatal := BatchFatal(w.post, w.posted, count);
    var fs := BatchFlights(p.ring, n, w.requests);
    IssuePlain(p1, fs, fatal, n > 0 && !fatal);
    StepCompose(p, p1, LaunchAll(p1, fs), fatal, n > 0 && !fatal);
  }

  lemma GetReferences(p: Peer, f: Flight)
    requires p.ring != [] && AllReferenced(p) && f.desc == p.ring[0] && f.getSeq != 0
    requires TrackGet(p, p.ring[0]).2 == Success
    ensures AllReferenced(Launch(p, f).(domains := TrackGet(p, p.ring[0]).0))
  {
    var q := Launch(p, f).(domains := TrackGet(p, p.ring[0]).0);
    assert q.domains.Keys <= p.domains.Keys + {f.desc.key};
    assert q.flight[|p.flight|] == f;
    forall k | k in q.domains ensures Referenced(q, k) {
      if k in p.domains {
        assert Referenced(p, k);
        var i :| 0 <= i < |p.flight| && p.flight[i].getSeq != 0 && p.flight[i].desc.key == k;
        assert q.flight[i] == p.flight[i];
      }
    }
  }

  lemma IssueGet(p: Peer, request: bool)
    requires Inv(p) && p.ring != [] && |p.flight| < p.queueSize && p.ring[0].needsFlush
    requires TrackGet(p, p.ring[0]).2 == Success
    ensures var (doms, n, st) := TrackGet(p, p.ring[0]);
      StepOk(p, Launch(p, Flight(p.ring[0], request, Success, false, n)).(domains := doms), false, true)
  {
    var (doms, n, st) := TrackGet(p, p.ring[0]);
    assert n != 0;
    hide Inv, Evolves, Clean, TrackGet, AllReferenced;
    var f := Flight(p.ring[0], request, Success, false, n);
    var q := Launch(p, f).(domains := doms);
    assert q.flight == p.flight + [f] && q.retired == p.retired;
    hide Launch;
    LaunchGetKeeps(p, request);
    if AllReferenced(p) { GetReferences(p, f); }
    if Clean(p) { CleanAppend(p, q, [f]); }
  }

  lemma TrackGetFails(p: Peer, d: Desc)
    requires TrackGet(p, d).2 != Success
    ensures TrackGet(p, d).0 == p.domains && TrackGet(p, d).1 == 0
  {}

  /** Outcome of posting the head once it is recorded as posted. */
  lemma IssuePosted(p: Peer, p1: Peer, w: World)
    requires p.ring != [] && Inv(p1) && |p.flight| < p.queueSize
    requires p1 == p.(posted := p.posted + {p.ring[0].opSeq})
    requires AllReferenced(p1) ==> TrackGet(p1, p1.ring[0]).2 == Success
    ensures var (q, raise, again) := PostHead(p, w);
      StepOk(p1, q, raise, again)
  {
    hide Inv, Evolves, Clean, AllReferenced, StepOk;
    var d := p.ring[0];
    var (doms, n, st) := TrackGet(p1, d);
    assert TrackGet(p, d) == TrackGet(p1, d);
    if w.post != InProgress && w.post != Success {
      PlainHead(p1, Flight(d, false, w.post, false, 0), true, false);
    } else if w.post == Success && st != Success {
      TrackGetFails(p1, d);
      PlainHead(p1, Flight(d, w.requests(0), st, false, 0), true, true);
    } else if w.post == Success && d.needsFlush {
      IssueGet(p1, w.requests(0));
    } else if w.post == Success {
      PlainHead(p1, Flight(d, w.requests(0), Success, false, 0), false, true);
    }
    hide TrackGet;
    if w.post == InProgress { UnchangedOk(p1); }
  }

  lemma UnchangedOk(p: Peer)
    requires Inv(p)
    ensures StepOk(p, p, false, false)
  {
    hide Inv, AllReferenced, Clean;
  }

  lemma PlainHead(p: Peer, f: Flight, raise: bool, again: bool)
    requires Inv(p) && p.ring != [] && |p.flight| < p.queueSize
    requires f.desc == p.ring[0] && f.getSeq == 0 && !f.dataDone
    requires f.desc.needsFlush ==> f.result != Success
    requires f.result == Success || raise
    requires raise && again ==> !AllReferenced(p)
    ensures StepOk(p, Launch(p, f), raise, again)
  {
    assert LaunchAll(p, [f]) == Launch(p, f);
    IssuePlain(p, [f], raise, again);
  }

  lemma IssueHead(p: Peer, w: World)
    requires Inv(p) && p.ring != [] && |p.flight| < p.queueSize
    requires p.ring[0].kind != IpcGet && (p.ring[0].kind == Release ==> AllSucceeded(p, p.ring[0].group))
    ensures var (q, raise, again) := PostHead(p, w);
      StepOk(p, q, raise, again)
  {
    hide Inv, Clean, AllReferenced, AllSucceeded, StepOk, Evolves, PostHead, TrackGet;
    var d := p.ring[0];
    PostedHeads(p, 1);
    var p1 := p.(posted := p.posted + {d.opSeq});
    assert HeadSeqs(p.ring, 1) == {d.opSeq};
    if AllReferenced(p1) { HeadTracks(p1); }
    IssuePosted(p, p1, w);
    var (q, raise, again) := PostHead(p, w);
    StepCompose(p, p1, q, raise, again);
  }

  lemma HeadTracks(p: Peer)
    requires Inv(p) && p.ring != [] && |p.flight| < p.queueSize && AllReferenced(p)
    ensures TrackGet(p, p.ring[0]).2 == Success
  {
    TrackGetSucceeds(p, p.ring[0]);
  }

  /** What each choice presupposes: a release is posted only through its open gate, an IPC GET
      only completes and only after everything before it. */
  lemma DecideExact(p: Peer, w: World)
    requires p.ring != [] && WellFormed(p.ring[0])
    ensures var d := p.ring[0];
      match Decide(p, w)
      case Wait => true
      case Deny(e) =>
        && e != Success && |p.flight| < p.queueSize && d.kind == Release && d.group in p.board.groups
        && GroupTest(p.board.groups[d.group]).0 && !ReleaseAllowed(p, d)
      case Conclude(result) =>
        && (result == Success ==> d.kind == IpcGet) && (d.kind == IpcGet ==> p.done >= d.opSeq - 1)
      case PostOne =>
        && |p.flight| < p.queueSize && d.kind != IpcGet
        && (d.kind == Release ==> d.group in p.board.groups && ReleaseAllowed(p, d))
      case PostMany(n) =>
        && |p.flight| + n <= p.queueSize && n <= |p.ring|
        && forall i :: 0 <= i < n ==> p.ring[i].kind == Put
  {}

  /** Every iteration of the issue loop keeps the invariant; on a clean peer with a pruned domain
      table an iteration after which the loop goes on reports no error. */
  lemma IssueKeeps(p: Peer, w: World)
    requires Inv(p) && p.ring != []
    ensures var (q, raise, again) := Issue(p, w);
      StepOk(p, q, raise, again)
  {
    var d := p.ring[0];
    HeadAccepted(p);
    DecideExact(p, w);
    assert InvGroups(p);
    hide Inv, InvGroups, InvAccepted, Evolves, PostHead, PostBatch, Retire, Clean, AllReferenced, Decide;
    match Decide(p, w)
    case Wait =>
    case Deny(e) => IssueDenied(p, e);
    case Conclude(result) => IssueEvent(p, result);
    case PostOne =>
      if d.kind == Release { GateExact(p, d); }
      IssueHead(p, w);
    case PostMany(n) => IssueBatch(p, n, w);
  }

  // ------------------------------------------------------------------------ draining

  lemma DrainOneKeeps(p: Peer)
    requires Inv(p) && p.ring != []
    ensures var q := DrainOne(p);
      && Inv(q) && Evolves(p, q)
      && q.ring == p.ring[1..] && q.flight == p.flight && q.posted == p.posted && q.accepted == p.accepted
      && q.retired == p.retired[p.ring[0].opSeq := RemoteError]
  {
    hide Inv, Evolves, Retire;
    RetireRingKeeps(p, RemoteError);
    RetireFrame(p.(ring := p.ring[1..]), p.ring[0], RemoteError);
  }

  /** The ring looks empty exactly when it is empty or the wrap of the indices lies inside it. */
  lemma LooksEmptyExact(p: Peer)
    requires Inv(p)
    ensures |p.accepted| == p.opSeq && |p.ring| <= p.opSeq
    ensures LooksEmpty(p) <==> p.ring == [] || !InOneLap(p)
    ensures p.ring == [] ==> InOneLap(p)
  {
    EmptyTestExact(p.opSeq - |p.ring|, |p.ring|);
  }

  /** Taking from the ring puts no wrap between its indices, and adding takes none away. */
  lemma LapsOfRings(p: Peer, q: Peer)
    requires |p.ring| <= p.opSeq <= q.opSeq && |q.ring| <= q.opSeq
    ensures q.opSeq == p.opSeq && |q.ring| <= |p.ring| && InOneLap(p) ==> InOneLap(q)
    ensures q.opSeq - |q.ring| == p.opSeq - |p.ring| && !InOneLap(p) ==> !InOneLap(q)
  {
    if q.opSeq == p.opSeq && |q.ring| <= |p.ring| {
      LapsAreOrdered(p.opSeq - |p.ring|, |p.ring|, |p.ring| - |q.ring|, 0);
    }
    if q.opSeq - |q.ring| == p.opSeq - |p.ring| {
      LapsAreOrdered(p.opSeq - |p.ring|, |p.ring|, 0, q.opSeq - p.opSeq);
    }
  }

  /** With a wrap inside the ring the drain does nothing. Otherwise it retires everything. Either way
      it posts nothing. */
  lemma {:induction false} DrainRingKeeps(p: Peer)
    requires Inv(p)
    ensures var q := DrainRing(p);
      && Inv(q) && Evolves(p, q) && q.flight == p.flight && q.posted == p.posted
      && (q.ring == [] <==> InOneLap(p)) && (!InOneLap(p) ==> q == p)
    decreases |p.ring|
  {
    hide Inv, Evolves, DrainOne, InOneLap, LooksEmpty;
    LooksEmptyExact(p);
    if LooksEmpty(p) {
      EvolvesSame(p);
    } else {
      DrainOneKeeps(p);
      var q := DrainOne(p);
      LooksEmptyExact(q);
      LapsOfRings(p, q);
      DrainRingKeeps(q);
      EvolvesTransitive(p, q, DrainRing(p));
    }
  }
}
