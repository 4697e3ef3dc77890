// The words flagcxHeteroRmaProxyQuiesce reads, one store at a time. Inside one step of a peer the
// progress thread publishes the consumer index before it counts the descriptor as in progress, and
// takes a descriptor out of the count before it retires it (flagcx/core/flagcx_hetero.cc).

module RmaQuiesce {
  import opened Results
  import opened NetTransport
  import opened RmaIndex
  import opened RmaPeer
  import opened RmaFlow
  import opened RmaGets
  import opened RmaSteps
  import opened RmaProgress
  import opened RmaIssue

  /** The two indices, not wrapped, and the in-progress count. `hand` descriptors have left the one
      place and not reached the next; `taken` tells that they come from the ring. */
  datatype Words = Words(pi: nat, ci: nat, inFlight: nat, hand: nat, taken: bool)

  /** Put is a producer's, the others are the progress thread's. */
  datatype Store = Put(n: nat) | Take(n: nat) | Count | Land | Finish

  predicate CanStore(w: Words, s: Store) {
    match s
    case Put(n) => 0 < n
    case Take(n) => w.hand == 0 && 0 < n && w.ci + n <= w.pi
    case Count => w.hand > 0 && w.taken
    case Land => w.hand == 0 && w.inFlight > 0
    case Finish => w.hand > 0
  }

  function Do(w: Words, s: Store): Words
    requires CanStore(w, s)
  {
    match s
    case Put(n) => w.(pi := w.pi + n)
    case Take(n) => w.(ci := w.ci + n, hand := n, taken := true)
    case Count => w.(inFlight := w.inFlight + w.hand, hand := 0, taken := false)
    case Land => w.(inFlight := w.inFlight - 1, hand := 1)
    case Finish => w.(hand := 0, taken := false)
  }

  /** Accepted and not retired. */
  function Unretired(w: Words): int { w.pi - w.ci + w.inFlight + w.hand }

  // -------------------------------------------------------- steps of a peer, store by store

  /** What the words say between two steps of a peer. */
  ghost function View(p: Peer): Words
    requires |p.ring| <= p.opSeq
  {
    Words(p.opSeq, p.opSeq - |p.ring|, |p.flight|, 0, false)
  }

  ghost predicate TwoStores(w: Words, v: Words, s: Store, t: Store) {
    CanStore(w, s) && CanStore(Do(w, s), t) && v == Do(Do(w, s), t) && Do(w, s).hand > 0
  }

  /** Nothing changed here, or the progress thread took from the ring and then counted or retired
      what it took. */
  ghost predicate Taken(p: Peer, q: Peer)
    requires |p.ring| <= p.opSeq
  {
    && |q.ring| <= q.opSeq
    && (View(q) == View(p) || exists n: nat, s <- {Count, Finish} :: TwoStores(View(p), View(q), Take(n), s))
  }

  lemma TakeThen(p: Peer, q: Peer, n: nat)
    requires 0 < n <= |p.ring| <= p.opSeq && q.opSeq == p.opSeq && |q.ring| == |p.ring| - n
    ensures |q.flight| == |p.flight| + n ==> TwoStores(View(p), View(q), Take(n), Count) && Taken(p, q)
    ensures |q.flight| == |p.flight| ==> TwoStores(View(p), View(q), Take(n), Finish) && Taken(p, q)
  {}

  lemma LandThen(p: Peer, q: Peer)
    requires |p.ring| <= p.opSeq && q.opSeq == p.opSeq && q.ring == p.ring && |q.flight| == |p.flight| - 1
    ensures TwoStores(View(p), View(q), Land, Finish)
  {}

  lemma HeadStores(p: Peer, w: World)
    requires 0 < |p.ring| <= p.opSeq
    ensures Taken(p, PostHead(p, w).0)
  {
    hide Taken, TrackGet;
    var q := PostHead(p, w).0;
    if w.post == InProgress { SameView(p, q); } else { TakeThen(p, q, 1); }
  }

  lemma BatchStores(p: Peer, n: nat, w: World)
    requires n <= |p.ring| <= p.opSeq
    ensures Taken(p, PostBatch(p, n, w).0)
  {
    hide Taken, PostBatch, HeadSeqs;
    BatchIsLaunch(p, n, w);
    var q := PostBatch(p, n, w).0;
    if PostedCount(n, w) == 0 { SameView(p, q); } else { TakeThen(p, q, PostedCount(n, w)); }
  }

  /** One iteration of the issue loop, store by store. */
  lemma IssueStores(p: Peer, w: World)
    requires Inv(p) && p.ring != []
    ensures |p.ring| <= p.opSeq && Taken(p, Issue(p, w).0)
  {
    assert |p.ring| <= p.opSeq;
    hide Inv, Taken, Retire, PostHead, PostBatch, Decide;
    var q := Issue(p, w).0;
    match Decide(p, w)
    case Wait => SameView(p, q);
    case Deny(e) => TakeThen(p, q, 1);
    case Conclude(result) =>
      RetireFrame(p.(ring := p.ring[1..]), p.ring[0], result);
      TakeThen(p, q, 1);
    case PostOne => HeadStores(p, w);
    case PostMany(n) => BatchStores(p, n, w);
  }

  lemma SameView(p: Peer, q: Peer)
    requires |p.ring| <= p.opSeq == q.opSeq && |q.ring| == |p.ring| && |q.flight| == |p.flight|
    ensures View(q) == View(p) && Taken(p, q)
  {}

  lemma DrainStores(p: Peer)
    requires Inv(p) && p.ring != []
    ensures |p.ring| <= p.opSeq && |DrainOne(p).ring| <= DrainOne(p).opSeq
    ensures TwoStores(View(p), View(DrainOne(p)), Take(1), Finish)
  {
    assert |p.ring| <= p.opSeq;
    hide Inv, Retire;
    RetireFrame(p.(ring := p.ring[1..]), p.ring[0], RemoteError);
    TakeThen(p, DrainOne(p), 1);
  }

  /** A completion leaves the count first and is retired then. */
  lemma PollStores(p: Peer, i: nat, probe: Probe)
    requires Inv(p) && i < |p.flight|
    ensures |p.ring| <= p.opSeq
    ensures var q := PollFlight(p, i, probe).0;
      |q.ring| <= q.opSeq && (View(q) == View(p) || TwoStores(View(p), View(q), Land, Finish))
    ensures var q := RetireVisible(p, i).0;
      |q.ring| <= q.opSeq && (View(q) == View(p) || TwoStores(View(p), View(q), Land, Finish))
  {
    assert |p.ring| <= p.opSeq;
    hide Inv, Retire, View, TwoStores;
    var f := p.flight[i];
    var p1 := p.(flight := Without(p.flight, i));
    RetireFrame(p1, f.desc, if f.request && probe.Failed? then probe.error else f.result);
    RetireFrame(p1, f.desc, f.result);
    var q, r := PollFlight(p, i, probe).0, RetireVisible(p, i).0;
    if |q.flight| == |p.flight| { SameView(p, q); } else { LandThen(p, q); }
    if |r.flight| == |p.flight| { SameView(p, r); } else { LandThen(p, r); }
  }

  // -------------------------------------------------------------------------- the wait

  /** Stores one after the other. */
  ghost predicate Stores(ws: seq<Words>, acts: seq<Store>) {
    && |ws| == |acts| + 1
    && forall i :: 0 <= i < |acts| ==> CanStore(ws[i], acts[i]) && ws[i + 1] == Do(ws[i], acts[i])
  }

  lemma {:induction false} StoresKeep(ws: seq<Words>, acts: seq<Store>, a: nat, b: nat)
    requires Stores(ws, acts) && a <= b < |ws| && ws[a].ci <= ws[a].pi
    requires forall i :: a <= i < b ==> !acts[i].Put?
    ensures ws[b].pi == ws[a].pi && ws[a].ci <= ws[b].ci <= ws[b].pi
    ensures Unretired(ws[b]) <= Unretired(ws[a])
    decreases b
  {
    if a < b {
      StoresKeep(ws, acts, a, b - 1);
      assert ws[b - 1 + 1] == Do(ws[b - 1], acts[b - 1]);
    }
  }

  predicate LooksDrained(w: Words) { EmptyTest(w.ci % WRAP, w.pi % WRAP) }

  /** After the barrier no producer stores any more. The wait reads the indices and then, later, the
      count. Where no wrap lies between the indices and the count reads 0, exactly what the progress
      thread has in hand is not yet retired. */
  lemma QuietReadsExact(ws: seq<Words>, acts: seq<Store>, a: nat, b: nat)
    requires Stores(ws, acts) && a <= b < |ws| && ws[a].ci <= ws[a].pi <= ws[a].ci + UINT32_MAX / 2
    requires forall i :: a <= i < b ==> !acts[i].Put?
    requires LooksDrained(ws[a]) && ws[b].inFlight == 0
    requires SameLap(ws[a].ci, ws[a].pi - ws[a].ci)
    ensures Unretired(ws[b]) == ws[b].hand
    ensures Unretired(ws[b]) == 0 <==> ws[b].hand == 0
  {
    StoresKeep(ws, acts, a, b);
    EmptyTestExact(ws[a].ci, ws[a].pi - ws[a].ci);
  }
}
