// What a successful result means: the operation was posted, or it is an IPC GET that waited for
// everything before it.

module RmaOutcome {
  import opened Results
  import opened NetTransport
  import opened RmaPeer
  import opened RmaBoard
  import opened RmaFlow
  import opened RmaSteps
  import opened RmaProgress
  import opened RmaIssue
  import Visibility

  ghost predicate InvOutcome(p: Peer) {
    && (forall i :: 0 <= i < |p.flight| ==>
          p.flight[i].desc.kind != IpcGet
          && (p.flight[i].result == Success ==> p.flight[i].desc.opSeq in p.posted))
    && (forall s <- p.retired :: 1 <= s <= |p.accepted| &&
          (p.retired[s] == Success && s !in p.posted ==>
             p.accepted[s - 1].kind == IpcGet && forall t :: 1 <= t < s ==> IsSettled(p, t)))
  }

  ghost predicate SucceedsInFlight(p: Peer, s: nat) {
    exists i :: 0 <= i < |p.flight| && p.flight[i].desc.opSeq == s && p.flight[i].result == Success
  }

  /** Where the successes of a step may come from. */
  ghost predicate OutcomeStep(p: Peer, q: Peer) {
    && (forall j :: 0 <= j < |q.flight| ==> q.flight[j].desc.kind == IpcGet ==>
          exists i :: 0 <= i < |p.flight| && p.flight[i].desc == q.flight[j].desc)
    && (forall j :: 0 <= j < |q.flight| && q.flight[j].result == Success ==>
          q.flight[j].desc.opSeq in q.posted || SucceedsInFlight(p, q.flight[j].desc.opSeq))
    && (forall s <- q.retired :: s !in p.retired && q.retired[s] == Success ==>
          SucceedsInFlight(p, s) ||
          (1 <= s <= |p.accepted| && p.accepted[s - 1].kind == IpcGet && p.done >= s - 1))
  }

  lemma OutcomeKept(p: Peer, q: Peer)
    requires Inv(p) && InvOutcome(p) && Evolves(p, q) && OutcomeStep(p, q) && Inv(q)
    ensures InvOutcome(q)
  {
    assert InvBoard(p) && InvBoard(q);
    hide Inv;
    forall s | s in q.retired && q.retired[s] == Success && s !in q.posted
      ensures 1 <= s <= |q.accepted| && q.accepted[s - 1].kind == IpcGet && forall t :: 1 <= t < s ==> IsSettled(q, t)
    {
      assert 1 <= s <= q.opSeq;
      if s in p.retired {
        assert q.accepted[s - 1] == p.accepted[s - 1];
        forall t | 1 <= t < s ensures IsSettled(q, t) { assert IsSettled(p, t); }
      } else {
        forall t | 1 <= t < s ensures IsSettled(q, t) { assert IsSettled(p, t); }
      }
    }
  }

  lemma RetireOutcome(p: Peer, i: nat, result: Status)
    requires i < |p.flight| && (result == Success ==> p.flight[i].result == Success)
    ensures OutcomeStep(p, Retire(p.(flight := Without(p.flight, i)), p.flight[i].desc, result).0)
  {
    RetireFrame(p.(flight := Without(p.flight, i)), p.flight[i].desc, result);
    WithoutExact(p.flight, i);
    hide Retire, Without;
  }

  lemma PollOutcome(p: Peer, i: nat, probe: Probe)
    requires i < |p.flight| && probe != Failed(Success)
    ensures OutcomeStep(p, PollFlight(p, i, probe).0) && OutcomeStep(p, RetireVisible(p, i).0)
  {
    hide Retire, Without;
    var f := p.flight[i];
    RetireOutcome(p, i, if f.request && probe.Failed? then probe.error else f.result);
    RetireOutcome(p, i, f.result);
  }

  lemma DomainOutcome(p: Peer, k: nat, result: Status, request: bool)
    requires k in p.domains
    ensures OutcomeStep(p, AdvanceData(p, k).0) && OutcomeStep(p, FinishFlush(p, k, result).0)
    ensures OutcomeStep(p, StartFlush(p, k, result, request).0)
  {
    FinishFlushFrame(p, k, result);
    StartFlushFrame(p, k, result, request);
    hide FinishFlush, StartFlush, DataPrefix;
  }

  lemma IssueOutcome(p: Peer, w: World)
    requires Inv(p) && p.ring != []
    ensures OutcomeStep(p, Issue(p, w).0)
  {
    HeadAccepted(p);
    assert p.ring[0].opSeq <= |p.accepted| && p.accepted[p.ring[0].opSeq - 1] == p.ring[0] by { RingHead(p); }
    DecideExact(p, w);
    hide Inv, InvAccepted, Retire, PostHead, PostBatch, Decide, OutcomeStep;
    match Decide(p, w)
    case Wait => SameOutcome(p);
    case Deny(e) => DenyOutcome(p, e);
    case Conclude(result) => ConcludeOutcome(p, result);
    case PostOne => HeadOutcome(p, w);
    case PostMany(n) => BatchOutcome(p, n, w);
  }

  lemma SameOutcome(p: Peer)
    ensures OutcomeStep(p, p)
  {}

  lemma DenyOutcome(p: Peer, e: Status)
    requires p.ring != [] && e != Success && p.ring[0].kind != IpcGet
    ensures OutcomeStep(p, Launch(p, Flight(p.ring[0], false, e, false, 0)))
  {}

  lemma ConcludeOutcome(p: Peer, result: Status)
    requires p.ring != [] && 1 <= p.ring[0].opSeq <= |p.accepted| && p.accepted[p.ring[0].opSeq - 1] == p.ring[0]
    requires result == Success ==> p.ring[0].kind == IpcGet && p.done >= p.ring[0].opSeq - 1
    ensures OutcomeStep(p, Retire(p.(ring := p.ring[1..]), p.ring[0], result).0)
  {
    RetireFrame(p.(ring := p.ring[1..]), p.ring[0], result);
    hide Retire;
  }

  lemma HeadOutcome(p: Peer, w: World)
    requires p.ring != [] && p.ring[0].kind != IpcGet
    ensures OutcomeStep(p, PostHead(p, w).0)
  {}

  lemma BatchOutcome(p: Peer, n: nat, w: World)
    requires n <= |p.ring| && forall i :: 0 <= i < n ==> p.ring[i].kind == Put
    ensures OutcomeStep(p, PostBatch(p, n, w).0)
  {
    BatchIsLaunch(p, n, w);
    hide PostBatch;
  }

  lemma DrainOutcome(p: Peer)
    requires p.ring != []
    ensures OutcomeStep(p, DrainOne(p))
  {
    RetireFrame(p.(ring := p.ring[1..]), p.ring[0], RemoteError);
    hide Retire;
  }
}
