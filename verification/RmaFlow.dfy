// Flow of descriptors of one peer: accepted -> ring -> in-progress queue -> retired. The ring is
// a FIFO over the accepted descriptors, every descriptor is in exactly one place, and what was
// posted respects release groups and IPC barriers.

module RmaFlow {
  import opened Results
  import opened NetTransport
  import opened RmaPeer
  import opened RmaBoard
  import RmaAccept

  /** How many descriptors left the ring (the consumer index, not wrapped). */
  function Issued(p: Peer): int { p.opSeq - |p.ring| }

  /** The ring holds exactly the newest accepted descriptors, in order. */
  ghost predicate InvRing(p: Peer) {
    && |p.accepted| == p.opSeq
    && |p.ring| <= p.queueSize && |p.ring| <= p.opSeq
    && p.ring == p.accepted[p.opSeq - |p.ring|..]
  }

  ghost predicate InFlight(fs: seq<Flight>, s: nat) {
    exists i :: 0 <= i < |fs| && fs[i].desc.opSeq == s
  }

  ghost predicate LiveFlights(p: Peer)
    requires |p.accepted| == p.opSeq && |p.ring| <= p.opSeq
  {
    forall i :: 0 <= i < |p.flight| ==>
      var s := p.flight[i].desc.opSeq;
      1 <= s <= Issued(p) && p.flight[i].desc == p.accepted[s - 1] && s !in p.retired
  }

  ghost predicate DistinctFlights(fs: seq<Flight>) {
    forall i, j :: 0 <= i < j < |fs| ==> fs[i].desc.opSeq != fs[j].desc.opSeq
  }

  /** Whatever left the ring is retired or in progress. */
  ghost predicate NoneLost(p: Peer) {
    forall s :: 1 <= s <= Issued(p) ==> s in p.retired || InFlight(p.flight, s)
  }

  ghost predicate InvFlight(p: Peer) {
    && |p.accepted| == p.opSeq && |p.ring| <= p.opSeq
    && |p.flight| <= p.queueSize
    && LiveFlights(p)
    && DistinctFlights(p.flight)
    && (forall s <- p.retired :: 1 <= s <= Issued(p))
    && NoneLost(p)
    && p.twice == {}
  }

  ghost predicate AllSucceeded(p: Peer, g: nat) {
    forall m <- Members(p, g) :: m in p.retired && p.retired[m] == Success
  }

  ghost predicate InvPosted(p: Peer) {
    forall t <- p.posted ::
      && 1 <= t <= |p.accepted|
      && p.accepted[t - 1].kind != IpcGet
      && (forall i :: 0 <= i < |p.ring| && p.ring[i].kind == IpcGet ==> t < p.ring[i].opSeq)
      && (p.accepted[t - 1].kind == Release ==> AllSucceeded(p, p.accepted[t - 1].group))
  }

  /** API operations that completed successfully. */
  ghost function Successes(p: Peer): set<nat> {
    set s | s in p.retired && p.retired[s] == Success && 1 <= s <= |p.accepted|
            && CompletesApiOperation(p.accepted[s - 1])
  }

  ghost predicate InvCount(p: Peer) { p.completions == |Successes(p)| }

  // ----------------------------------------------------------------- retiring, in general

  lemma SuccessesAfter(p: Peer, q: Peer, s: nat, result: Status)
    requires q.accepted == p.accepted && q.retired == p.retired[s := result]
    requires 1 <= s <= |p.accepted| && s !in p.retired
    ensures |Successes(q)| == |Successes(p)| +
      (if result == Success && CompletesApiOperation(p.accepted[s - 1]) then 1 else 0)
  {
    if s in Successes(q) {
      assert Successes(q) == Successes(p) + {s};
    } else {
      assert Successes(q) == Successes(p);
    }
  }

  /** The public counter grows by one exactly for a successful API operation. */
  lemma RetireCounts(p: Peer, s: nat, result: Status)
    requires InvAccepted(p) && InvCount(p)
    requires 1 <= s <= p.opSeq && s !in p.retired
    ensures InvCount(Retire(p, p.accepted[s - 1], result).0)
  {
    hide TrackCompletion, Successes;
    SuccessesAfter(p, Retire(p, p.accepted[s - 1], result).0, s, result);
  }

  /** Retired results never change, so what had succeeded has still succeeded. */
  lemma RetirePostedGroups(p: Peer, s: nat, result: Status, g: nat)
    requires InvAccepted(p) && 1 <= s <= p.opSeq && s !in p.retired
    requires AllSucceeded(p, g)
    ensures AllSucceeded(Retire(p, p.accepted[s - 1], result).0, g)
  {
    var q := Retire(p, p.accepted[s - 1], result).0;
    assert Members(q, g) == Members(p, g);
  }

  lemma RetireKeepsPosted(p: Peer, s: nat, result: Status)
    requires InvAccepted(p) && InvPosted(p)
    requires 1 <= s <= p.opSeq && s !in p.retired
    ensures InvPosted(Retire(p, p.accepted[s - 1], result).0)
  {
    hide TrackCompletion, AllSucceeded;
    var q := Retire(p, p.accepted[s - 1], result).0;
    forall t | t in q.posted && p.accepted[t - 1].kind == Release
      ensures AllSucceeded(q, p.accepted[t - 1].group)
    {
      RetirePostedGroups(p, s, result, p.accepted[t - 1].group);
    }
  }

  // ------------------------------------------------------------- leaving the two queues

  lemma WithoutExact(fs: seq<Flight>, i: nat)
    requires i < |fs|
    ensures |Without(fs, i)| == |fs| - 1
    ensures forall j :: 0 <= j < |fs| - 1 ==> Without(fs, i)[j] == fs[if j < i then j else j + 1]
    ensures forall s :: InFlight(fs, s) && s != fs[i].desc.opSeq ==> InFlight(Without(fs, i), s)
  {
    forall s | InFlight(fs, s) && s != fs[i].desc.opSeq ensures InFlight(Without(fs, i), s) {
      var j :| 0 <= j < |fs| && fs[j].desc.opSeq == s;
      assert Without(fs, i)[if j < i then j else j - 1] == fs[j];
    }
  }

  lemma RetireFromFlight(p: Peer, i: nat, result: Status)
    requires InvAccepted(p) && InvFlight(p) && i < |p.flight|
    ensures var f := p.flight[i];
      && f.desc == p.accepted[f.desc.opSeq - 1] && f.desc.opSeq !in p.retired
      && InvFlight(Retire(p.(flight := Without(p.flight, i)), f.desc, result).0)
  {
    hide TrackCompletion, InFlight, Without, InvAccepted;
    WithoutExact(p.flight, i);
  }

  lemma RingHead(p: Peer)
    requires InvAccepted(p) && InvRing(p) && p.ring != []
    ensures p.ring[0] == p.accepted[Issued(p)] && p.ring[0].opSeq == Issued(p) + 1
    ensures forall i :: 0 <= i < |p.ring| ==>
      p.ring[i] == p.accepted[Issued(p) + i] && p.ring[i].opSeq == Issued(p) + i + 1
  {}

  lemma RetireFromRing(p: Peer, result: Status)
    requires InvAccepted(p) && InvRing(p) && InvFlight(p) && p.ring != []
    ensures var d := p.ring[0];
      && d == p.accepted[d.opSeq - 1] && d.opSeq !in p.retired && d.opSeq == Issued(p) + 1
      && InvFlight(Retire(p.(ring := p.ring[1..]), d, result).0)
      && InvRing(Retire(p.(ring := p.ring[1..]), d, result).0)
  {
    hide TrackCompletion, InFlight, InvAccepted;
    RingHead(p);
  }

  /** A prefix of the ring moves to the in-progress queue. */
  function LaunchAll(p: Peer, fs: seq<Flight>): Peer
    requires |fs| <= |p.ring|
  {
    p.(ring := p.ring[|fs|..], flight := p.flight + fs)
  }

  lemma LaunchKeepsRing(p: Peer, n: nat, fs: seq<Flight>)
    requires InvRing(p) && n <= |p.ring|
    ensures InvRing(p.(ring := p.ring[n..], flight := fs))
  {}

  lemma LaunchKeepsFlight(p: Peer, f: Flight)
    requires InvAccepted(p) && InvRing(p) && InvFlight(p)
    requires p.ring != [] && |p.flight| < p.queueSize && f.desc == p.ring[0]
    ensures InvFlight(Launch(p, f))
  {
    RingHead(p);
    hide InvAccepted, InvRing;
    AppendFlight(p.flight, f);
    hide InFlight;
  }

  lemma AppendFlight(fs: seq<Flight>, f: Flight)
    ensures forall s :: InFlight(fs, s) ==> InFlight(fs + [f], s)
    ensures InFlight(fs + [f], f.desc.opSeq)
  {
    assert (fs + [f])[|fs|] == f;
    forall s | InFlight(fs, s) ensures InFlight(fs + [f], s) {
      var j :| 0 <= j < |fs| && fs[j].desc.opSeq == s;
      assert (fs + [f])[j] == fs[j];
    }
  }

  /** Launching one after the other is launching all at once. */
  lemma LaunchSplit(p: Peer, fs: seq<Flight>)
    requires 0 < |fs| <= |p.ring|
    ensures LaunchAll(Launch(p, fs[0]), fs[1..]) == LaunchAll(p, fs)
    ensures forall i :: 0 <= i < |fs| - 1 ==> Launch(p, fs[0]).ring[i] == p.ring[i + 1]
  {
    assert p.flight + [fs[0]] + fs[1..] == p.flight + fs;
    assert p.ring[1..][|fs| - 1..] == p.ring[|fs|..];
  }

  lemma {:induction false} LaunchAllKeepsFlight(p: Peer, fs: seq<Flight>)
    requires InvAccepted(p) && InvRing(p) && InvFlight(p)
    requires |fs| <= |p.ring| && |p.flight| + |fs| <= p.queueSize
    requires forall i :: 0 <= i < |fs| ==> fs[i].desc == p.ring[i]
    ensures InvRing(LaunchAll(p, fs)) && InvFlight(LaunchAll(p, fs))
    decreases |fs|
  {
    hide InvFlight;
    if fs == [] {
      assert LaunchAll(p, fs) == p;
    } else {
      LaunchKeepsFlight(p, fs[0]);
      var q := Launch(p, fs[0]);
      LaunchKeepsRing(p, 1, q.flight);
      LaunchSplit(p, fs);
      assert InvAccepted(q);
      LaunchAllKeepsFlight(q, fs[1..]);
    }
  }

  /** Replacing an in-flight record keeps the descriptor it stands for. */
  lemma UpdateKeepsFlight(p: Peer, q: Peer)
    requires InvFlight(p)
    requires q == p.(flight := q.flight, domains := q.domains, snaps := q.snaps, flushed := q.flushed)
    requires |q.flight| == |p.flight|
    requires forall i :: 0 <= i < |p.flight| ==> q.flight[i].desc == p.flight[i].desc
    ensures InvFlight(q)
  {
    forall s | InFlight(p.flight, s) ensures InFlight(q.flight, s) {
      var j :| 0 <= j < |p.flight| && p.flight[j].desc.opSeq == s;
      assert q.flight[j].desc.opSeq == s;
    }
    hide InFlight;
  }

  // ------------------------------------------------------------------------- accepting

  lemma AcceptKeepsFlight(p: Peer, run: seq<Desc>, b: Board)
    requires InvRing(p) && InvFlight(p) && |p.ring| + |run| <= p.queueSize
    ensures InvRing(Accept(p, run, b)) && InvFlight(Accept(p, run, b))
  {
    hide InFlight;
    var q := Accept(p, run, b);
    assert forall k :: 0 <= k < p.opSeq ==> q.accepted[k] == p.accepted[k];
  }

  lemma AcceptKeepsPosted(p: Peer, run: seq<Desc>, b: Board)
    requires |p.accepted| == p.opSeq && InvPosted(p)
    requires forall i :: 0 <= i < |run| ==> run[i].opSeq == p.opSeq + i + 1
    requires forall t <- p.posted :: p.accepted[t - 1].kind == Release ==>
      forall i :: 0 <= i < |run| && Member(run[i]) ==> run[i].group != p.accepted[t - 1].group
    ensures InvPosted(Accept(p, run, b))
  {
    var q := Accept(p, run, b);
    assert forall k :: 0 <= k < p.opSeq ==> q.accepted[k] == p.accepted[k];
    assert forall k :: 0 <= k < |run| ==> q.accepted[p.opSeq + k] == run[k];
    assert forall i :: 0 <= i < |p.ring| ==> q.ring[i] == p.ring[i];
    forall t | t in q.posted && q.accepted[t - 1].kind == Release
      ensures AllSucceeded(q, q.accepted[t - 1].group)
    {
      var g := q.accepted[t - 1].group;
      RmaAccept.MembersAfter(p, run, b, g);
      assert Members(q, g) == Members(p, g);
      assert AllSucceeded(p, g);
    }
  }

  lemma AcceptKeepsCount(p: Peer, run: seq<Desc>, b: Board)
    requires |p.accepted| == p.opSeq && InvCount(p)
    requires forall s <- p.retired :: 1 <= s <= p.opSeq
    ensures InvCount(Accept(p, run, b))
  {
    assert Successes(Accept(p, run, b)) == Successes(p);
  }
}
