// Status exchange among the ranks of a communicator, and the rounds of the connection mesh
// (flagcx/flagcx.cc). Rank 0 gathers one report from every other rank and sends the outcome back;
// bootstrap transfers are taken to be reliable.

module Convergence {
  import opened Results

  // --------------------------------------------------------------------- status only

  /** The first failure in rank order. */
  function FirstFailure(statuses: seq<Status>): (common: Status)
    ensures common == Success <==> forall r :: 0 <= r < |statuses| ==> statuses[r] == Success
    ensures common != Success ==> common in statuses
  {
    if statuses == [] then Success
    else if statuses[0] != Success then statuses[0]
    else
      assert forall r :: 0 < r < |statuses| ==> statuses[r] == statuses[1..][r - 1];
      FirstFailure(statuses[1..])
  }

  lemma {:induction false} FirstFailureAppend(a: seq<Status>, s: Status)
    ensures FirstFailure(a + [s]) == if FirstFailure(a) != Success then FirstFailure(a) else s
    decreases |a|
  {
    if a != [] {
      assert (a + [s])[1..] == a[1..] + [s];
      FirstFailureAppend(a[1..], s);
    }
  }

  /** flagcxOneSideConvergeStatus: the outcome every rank receives. */
  method ConvergeStatus(statuses: seq<Status>) returns (received: seq<Status>)
    requires statuses != []
    ensures |received| == |statuses|
    ensures forall r :: 0 <= r < |received| ==> received[r] == FirstFailure(statuses)
  {
    var common := statuses[0];
    var peer := 1;
    assert statuses[..1] == [statuses[0]];
    while peer < |statuses|
      invariant 1 <= peer <= |statuses| && common == FirstFailure(statuses[..peer])
    {
      assert statuses[..peer + 1] == statuses[..peer] + [statuses[peer]];
      FirstFailureAppend(statuses[..peer], statuses[peer]);
      var peerStatus := statuses[peer];
      if common == Success && peerStatus != Success { common := peerStatus; }
      peer := peer + 1;
    }
    assert statuses[..peer] == statuses;
    received := [common];
    while |received| < |statuses|
      invariant 1 <= |received| <= |statuses|
      invariant forall r :: 0 <= r < |received| ==> received[r] == FirstFailure(statuses)
    {
      received := received + [common];
    }
  }

  // ---------------------------------------------------------------- progress of a round

  datatype Progress = Progress(context: nat, round: nat, status: Status, ready: bool)

  predicate SameRound(ps: seq<Progress>) {
    forall r :: 0 <= r < |ps| ==> ps[r].context == ps[0].context && ps[r].round == ps[0].round
  }

  function Statuses(ps: seq<Progress>): (s: seq<Status>)
    ensures |s| == |ps| && forall r :: 0 <= r < |ps| ==> s[r] == ps[r].status
  {
    seq(|ps|, r requires 0 <= r < |ps| => ps[r].status)
  }

  predicate AllReady(ps: seq<Progress>) { forall r :: 0 <= r < |ps| ==> ps[r].ready }

  /** flagcxOneSideConvergeRound at the root: with every rank in the same round the outcome is the
      first failure and the conjunction of the ready flags; otherwise it is an internal error. */
  method ConvergeRound(ps: seq<Progress>) returns (status: Status, ready: bool)
    requires ps != []
    ensures SameRound(ps) ==> status == FirstFailure(Statuses(ps))
    ensures !SameRound(ps) ==> status == InternalError
    ensures ready <==> AllReady(ps)
  {
    status, ready := ps[0].status, ps[0].ready;
    var peer := 1;
    assert Statuses(ps[..1]) == [ps[0].status];
    while peer < |ps|
      invariant 1 <= peer <= |ps|
      invariant SameRound(ps[..peer]) ==> status == FirstFailure(Statuses(ps[..peer]))
      invariant !SameRound(ps[..peer]) ==> status == InternalError
      invariant ready <==> AllReady(ps[..peer])
    {
      var remote := ps[peer];
      assert Statuses(ps[..peer + 1]) == Statuses(ps[..peer]) + [remote.status];
      FirstFailureAppend(Statuses(ps[..peer]), remote.status);
      OneMoreRank(ps, peer);
      if remote.context != ps[0].context || remote.round != ps[0].round {
        status := InternalError;
      } else if status == Success && remote.status != Success {
        status := remote.status;
      }
      ready := ready && remote.ready;
      peer := peer + 1;
    }
    assert ps[..peer] == ps;
  }

  lemma OneMoreRank(ps: seq<Progress>, peer: nat)
    requires 1 <= peer < |ps|
    ensures SameRound(ps[..peer + 1]) <==>
      SameRound(ps[..peer]) && ps[peer].context == ps[0].context && ps[peer].round == ps[0].round
    ensures AllReady(ps[..peer + 1]) <==> AllReady(ps[..peer]) && ps[peer].ready
  {
    assert ps[..peer + 1][peer] == ps[peer];
    assert forall r :: 0 <= r < peer ==> ps[..peer + 1][r] == ps[..peer][r];
  }

  // ------------------------------------------------------------------------ mesh rounds

  function ConnectPeer(rank: nat, round: nat, n: nat): (p: nat)
    requires rank < n && round < n
    ensures p < n
  {
    (rank + round) % n
  }

  function AcceptPeer(rank: nat, round: nat, n: nat): (p: nat)
    requires rank < n && round < n
    ensures p < n
  {
    (rank - round + n) % n
  }

  lemma ModOnce(x: nat, n: nat)
    requires n > 0 && x < 2 * n
    ensures x % n == if x < n then x else x - n
  {}

  /** In every round connections match: a connects to b exactly when b accepts from a, so the
      connect peers of a round are a permutation of the ranks. */
  lemma RoundMatches(a: nat, b: nat, round: nat, n: nat)
    requires a < n && b < n && round < n
    ensures ConnectPeer(a, round, n) == b <==> AcceptPeer(b, round, n) == a
  {
    ModOnce(a + round, n);
    ModOnce(b - round + n, n);
  }

  /** Over the n rounds every ordered pair of ranks, a rank with itself included, connects exactly
      once. */
  lemma EveryPairOnce(a: nat, b: nat, n: nat)
    requires a < n && b < n
    ensures var round := if b >= a then b - a else b - a + n;
      && round < n
      && (forall i :: 0 <= i < n ==> (ConnectPeer(a, i, n) == b <==> i == round))
  {
    forall i | 0 <= i < n
      ensures ConnectPeer(a, i, n) == b <==> i == (if b >= a then b - a else b - a + n)
    {
      ModOnce(a + i, n);
    }
  }
}
