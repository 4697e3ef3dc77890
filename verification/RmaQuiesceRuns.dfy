// Runs of the proxy, store by store. Every action expands, for every peer, to stores of RmaQuiesce, so
// the reads of flagcxHeteroRmaProxyQuiesce can fall between the stores of an action.

module RmaQuiesceRuns {
  import opened Results
  import opened NetTransport
  import opened RmaIndex
  import opened RmaPeer
  import opened RmaBoard
  import opened RmaFlow
  import opened RmaGets
  import opened RmaSteps
  import opened RmaProgress
  import opened RmaIssue
  import opened RmaProxy
  import opened RmaOnePeer
  import opened RmaRuns
  import opened RmaTheorems
  import opened RmaVisible
  import opened RmaQuiesce
  import RmaFlushGap

  // ------------------------------------------------------------------ one action, one peer

  /** Nothing changed, a producer published something, or the progress thread made two stores with
      something in hand between them. */
  ghost predicate Expandable(p: Peer, q: Peer) {
    && |p.ring| <= p.opSeq && |q.ring| <= q.opSeq
    && (|| View(q) == View(p)
        || (q.accepted != p.accepted && exists n: nat :: CanStore(View(p), Store.Put(n)) && View(q) == Do(View(p), Store.Put(n)))
        || (exists s: Store, t: Store :: !s.Put? && !t.Put? && TwoStores(View(p), View(q), s, t)))
  }

  lemma SameExpands(p: Peer, q: Peer)
    requires |p.ring| <= p.opSeq == q.opSeq && |q.ring| == |p.ring| && |q.flight| == |p.flight|
    ensures Expandable(p, q)
  {}

  lemma TakenExpands(p: Peer, q: Peer)
    requires |p.ring| <= p.opSeq && Taken(p, q)
    ensures Expandable(p, q)
  {
    hide View, TwoStores;
  }

  lemma TwoExpand(p: Peer, q: Peer, s: Store, t: Store)
    requires |p.ring| <= p.opSeq && |q.ring| <= q.opSeq && !s.Put? && !t.Put? && TwoStores(View(p), View(q), s, t)
    ensures Expandable(p, q)
  {
    hide View, TwoStores;
  }

  /** What producers do is one store, if anything. */
  lemma ProducedExpands(p: Peer, q: Peer)
    requires |p.accepted| == p.opSeq && |q.accepted| == q.opSeq && |p.ring| <= p.opSeq && |q.ring| <= q.opSeq
    requires p.ring <= q.ring && Issued(q) == Issued(p) && q.flight == p.flight
    ensures Expandable(p, q)
  {
    if |q.ring| > |p.ring| {
      var n: nat := |q.ring| - |p.ring|;
      assert CanStore(View(p), Store.Put(n)) && View(q) == Do(View(p), Store.Put(n));
    }
  }

  lemma ProducerExpands(x: Proxy, a: Action)
    requires ProxyInv(x) && Can(x, a) && (a.TryBatch? || a.TryRelease? || a.OpenGroup?)
    ensures Expandable(x.peers[a.peer], Apply(x, a).peers[a.peer])
  {
    hide Inv, PeerStep, AllReferenced, Expandable;
    ProducerStep(x, a);
    assert Inv(x.peers[a.peer]) && Inv(Apply(x, a).peers[a.peer]) by { StepKeepsPeer(x, Apply(x, a), a.peer); }
    LooksEmptyExact(x.peers[a.peer]);
    LooksEmptyExact(Apply(x, a).peers[a.peer]);
    hide ProxyInv, Can, Apply;
    ProducedExpands(x.peers[a.peer], Apply(x, a).peers[a.peer]);
  }

  lemma StepKeepsPeer(x: Proxy, y: Proxy, i: nat)
    requires ProxyInv(x) && PeerStep(x, y, i)
    ensures Inv(x.peers[i]) && Inv(y.peers[i])
  {
    hide Inv;
  }

  lemma CompletionExpands(x: Proxy, a: Action)
    requires ProxyInv(x) && Can(x, a) && (a.PollOne? || a.VisibleOne?)
    ensures Expandable(x.peers[x.phase.peer], Apply(x, a).peers[x.phase.peer])
  {
    hide Inv, Expandable, PollFlight, RetireVisible, View, TwoStores;
    var p, q := x.peers[x.phase.peer], Apply(x, a).peers[x.phase.peer];
    assert Inv(p);
    PollStores(p, a.i, if a.PollOne? then a.probe else NotDone);
    hide ProxyInv, Can, Apply;
    if View(q) == View(p) { EqualExpands(p, q); } else { TwoExpand(p, q, Land, Finish); }
  }

  lemma EqualExpands(p: Peer, q: Peer)
    requires |p.ring| <= p.opSeq && |q.ring| <= q.opSeq && View(q) == View(p)
    ensures Expandable(p, q)
  {
    hide View, TwoStores;
  }

  lemma DomainExpands(x: Proxy, a: Action)
    requires ProxyInv(x) && Can(x, a) && (a.FlushDone? || a.MoveData? || a.PostFlush?)
    ensures Expandable(x.peers[x.phase.peer], Apply(x, a).peers[x.phase.peer])
  {
    hide Inv, Expandable, FinishFlush, StartFlush, AdvanceData;
    var p, q := x.peers[x.phase.peer], Apply(x, a).peers[x.phase.peer];
    assert Inv(p);
    LooksEmptyExact(p);
    ProgressAccepts(p, a);
    PollStep(x, a);
    hide ProxyInv;
    assert |q.flight| == |p.flight|;
    hide Can, Apply;
    SameExpands(p, q);
  }

  lemma IssueExpands(x: Proxy, a: Action)
    requires ProxyInv(x) && Can(x, a) && (a.IssueOne? || a.DrainHead?)
    ensures Expandable(x.peers[x.phase.peer], Apply(x, a).peers[x.phase.peer])
  {
    hide Inv, Expandable, Issue, DrainOne, View, TwoStores, Taken;
    var p, q := x.peers[x.phase.peer], Apply(x, a).peers[x.phase.peer];
    assert Inv(p);
    if a.IssueOne? {
      IssueShape(x, a);
      hide ProxyInv, Can, Apply;
      IssueStores(p, a.w);
      TakenExpands(p, q);
    } else {
      DrainShape(x, a);
      hide ProxyInv, Can, Apply;
      DrainStores(p);
      TwoExpand(p, q, Take(1), Finish);
    }
  }

  lemma EndPollExpands(x: Proxy, a: Action)
    requires ProxyInv(x) && Can(x, a) && a.EndPoll?
    ensures Expandable(x.peers[x.phase.peer], Apply(x, a).peers[x.phase.peer])
  {
    hide Inv, Expandable, Prune, PeerStep, AllReferenced;
    var p, q := x.peers[x.phase.peer], Apply(x, a).peers[x.phase.peer];
    assert Inv(p);
    LooksEmptyExact(p);
    EndPollStep(x, a);
    hide ProxyInv, Can, Apply;
    SameExpands(p, q);
  }

  /** Every action expands to stores, for every peer. */
  lemma ActionExpands(x: Proxy, a: Action, k: nat)
    requires ProxyInv(x) && Can(x, a) && k < |x.peers| == |Apply(x, a).peers|
    ensures Expandable(x.peers[k], Apply(x, a).peers[k])
  {
    hide Inv, Expandable;
    assert Shaped(x) && Inv(x.peers[k]);
    LooksEmptyExact(x.peers[k]);
    hide ProxyInv;
    if PeerOf(x, a) != k {
      OtherPeers(x, a, k);
      SameExpands(x.peers[k], x.peers[k]);
    } else if a.Enter? || a.TestRing? || a.EndDrain? || a.FinishPass? || a.ExternalError? || a.Quiesce? || a.PassBarrier? {
      assert Apply(x, a).peers == x.peers;
      SameExpands(x.peers[k], x.peers[k]);
    } else {
      WorkExpands(x, a);
      assert k == if a.TryBatch? || a.TryRelease? || a.OpenGroup? then a.peer else x.phase.peer;
    }
  }

  lemma WorkExpands(x: Proxy, a: Action)
    requires ProxyInv(x) && Can(x, a)
    requires !(a.Enter? || a.TestRing? || a.EndDrain? || a.FinishPass? || a.ExternalError? || a.Quiesce? || a.PassBarrier?)
    ensures PeerOf(x, a) < |x.peers| && PeerOf(x, a) < |Apply(x, a).peers|
    ensures Expandable(x.peers[PeerOf(x, a)], Apply(x, a).peers[PeerOf(x, a)])
  {
    hide Inv, Expandable;
    assert Shaped(x);
    if a.TryBatch? || a.TryRelease? || a.OpenGroup? {
      ProducerExpands(x, a);
    } else if a.PollOne? || a.VisibleOne? {
      CompletionExpands(x, a);
    } else if a.EndPoll? {
      EndPollExpands(x, a);
    } else if a.IssueOne? || a.DrainHead? {
      IssueExpands(x, a);
    } else {
      DomainExpands(x, a);
    }
  }

  // --------------------------------------------------------------------------- whole runs

  ghost predicate Shows(ws: seq<Words>, m: nat, p: Peer) {
    m < |ws| && |p.ring| <= p.opSeq && ws[m] == View(p)
  }

  /** The stores from m to n take p to q: in between the progress thread has something in hand, and
      producers store only what is accepted. */
  ghost predicate Between(ws: seq<Words>, ss: seq<Store>, m: nat, n: nat, p: Peer, q: Peer) {
    && m <= n <= |ss| < |ws|
    && (forall b :: m < b < n ==> ws[b].hand > 0)
    && (forall t :: m <= t < n && ss[t].Put? ==> q.accepted != p.accepted)
  }

  /** The stores of the first i actions of a run on the words of peer k: state j of the run is where
      at[j] says. */
  ghost predicate Expands(xs: seq<Proxy>, k: nat, i: nat, ws: seq<Words>, ss: seq<Store>, at: seq<nat>) {
    && Stores(ws, ss) && i < |xs| && |at| == i + 1 && at[0] == 0 && at[i] == |ss|
    && (forall j :: 0 <= j <= i ==> k < |xs[j].peers| && Shows(ws, at[j], xs[j].peers[k]))
    && (forall j :: 0 <= j < i ==> StepAt(xs, k, ws, ss, at, j))
  }

  ghost predicate StepAt(xs: seq<Proxy>, k: nat, ws: seq<Words>, ss: seq<Store>, at: seq<nat>, j: nat) {
    && j + 1 < |at| && j + 1 < |xs| && k < |xs[j].peers| && k < |xs[j + 1].peers|
    && Between(ws, ss, at[j], at[j + 1], xs[j].peers[k], xs[j + 1].peers[k])
  }

  /** One more step of a peer, as stores behind those there are. */
  lemma OneMoreStep(ws: seq<Words>, ss: seq<Store>, p: Peer, q: Peer) returns (vs: seq<Words>, ts: seq<Store>)
    requires Stores(ws, ss) && Shows(ws, |ss|, p) && Expandable(p, q)
    ensures Stores(vs, ts) && ws <= vs && ss <= ts
    ensures Shows(vs, |ts|, q) && Between(vs, ts, |ss|, |ts|, p, q)
  {
    hide View;
    if View(q) == View(p) {
      vs, ts := ws, ss;
    } else if q.accepted != p.accepted
              && exists n: nat :: CanStore(View(p), Store.Put(n)) && View(q) == Do(View(p), Store.Put(n)) {
      var n: nat :| CanStore(View(p), Store.Put(n)) && View(q) == Do(View(p), Store.Put(n));
      vs, ts := ws + [View(q)], ss + [Store.Put(n)];
      StoresAppend(ws, ss, Store.Put(n));
    } else {
      var s: Store, t: Store :| !s.Put? && !t.Put? && TwoStores(View(p), View(q), s, t);
      var mid := Do(View(p), s);
      StoresAppend(ws, ss, s);
      StoresAppend(ws + [mid], ss + [s], t);
      vs, ts := ws + [mid] + [View(q)], ss + [s] + [t];
      assert vs[|ss| + 1] == mid && ts[|ss|] == s && ts[|ss| + 1] == t;
    }
  }

  lemma StoresAppend(ws: seq<Words>, ss: seq<Store>, s: Store)
    requires Stores(ws, ss) && CanStore(ws[|ss|], s)
    ensures Stores(ws + [Do(ws[|ss|], s)], ss + [s])
  {
    var vs, ts := ws + [Do(ws[|ss|], s)], ss + [s];
    forall i | 0 <= i < |ts| ensures CanStore(vs[i], ts[i]) && vs[i + 1] == Do(vs[i], ts[i]) {
      if i < |ss| { assert vs[i] == ws[i] && vs[i + 1] == ws[i + 1] && ts[i] == ss[i]; }
    }
  }

  lemma BetweenFrame(ws: seq<Words>, ss: seq<Store>, vs: seq<Words>, ts: seq<Store>, m: nat, n: nat, p: Peer, q: Peer)
    requires Between(ws, ss, m, n, p, q) && ws <= vs && ss <= ts && |ts| < |vs|
    ensures Between(vs, ts, m, n, p, q)
  {}

  lemma ExpandsMore(xs: seq<Proxy>, k: nat, i: nat, ws: seq<Words>, ss: seq<Store>, at: seq<nat>,
                    vs: seq<Words>, ts: seq<Store>)
    requires Expands(xs, k, i, ws, ss, at) && i + 1 < |xs| && k < |xs[i + 1].peers|
    requires Stores(vs, ts) && ws <= vs && ss <= ts
    requires Shows(vs, |ts|, xs[i + 1].peers[k])
    requires k < |xs[i].peers| && Between(vs, ts, |ss|, |ts|, xs[i].peers[k], xs[i + 1].peers[k])
    ensures Expands(xs, k, i + 1, vs, ts, at + [|ts|])
  {
    var at' := at + [|ts|];
    forall j | 0 <= j <= i + 1 ensures k < |xs[j].peers| && Shows(vs, at'[j], xs[j].peers[k]) {
      if j <= i { assert Shows(ws, at[j], xs[j].peers[k]); }
    }
    hide View, Shows;
    forall j | 0 <= j < i + 1 ensures StepAt(xs, k, vs, ts, at', j) {
      if j < i {
        assert StepAt(xs, k, ws, ss, at, j);
        BetweenFrame(ws, ss, vs, ts, at[j], at[j + 1], xs[j].peers[k], xs[j + 1].peers[k]);
      }
    }
  }

  /** Every run expands to stores on the words of every peer. */
  lemma {:induction false} RunExpands(xs: seq<Proxy>, acts: seq<Action>, nRanks: nat, queueSize: nat, i: nat, k: nat)
    returns (ws: seq<Words>, ss: seq<Store>, at: seq<nat>)
    requires At(xs, acts, nRanks, queueSize, i, k)
    ensures Expands(xs, k, i, ws, ss, at)
    decreases i
  {
    hide Run, ProxyInv, Apply, Can, Expandable, Inv;
    if i == 0 {
      PeerAt(xs, acts, nRanks, queueSize, 0, k);
      LooksEmptyExact(xs[0].peers[k]);
      ws, ss, at := [View(xs[0].peers[k])], [], [0];
    } else {
      RunBack(xs, acts, nRanks, queueSize, i, k);
      ws, ss, at := RunExpands(xs, acts, nRanks, queueSize, i - 1, k);
      RunStep(xs, acts, nRanks, queueSize, i - 1, k);
      assert Expandable(xs[i - 1].peers[k], xs[i].peers[k]) by { StepExpands(xs, acts, nRanks, queueSize, i - 1, k); }
      assert Shows(ws, |ss|, xs[i - 1].peers[k]);
      var vs, ts := OneMoreStep(ws, ss, xs[i - 1].peers[k], xs[i].peers[k]);
      ExpandsMore(xs, k, i - 1, ws, ss, at, vs, ts);
      ws, ss, at := vs, ts, at + [|ts|];
    }
  }

  lemma StepExpands(xs: seq<Proxy>, acts: seq<Action>, nRanks: nat, queueSize: nat, t: nat, k: nat)
    requires At(xs, acts, nRanks, queueSize, t, k) && t < |acts|
    requires At(xs, acts, nRanks, queueSize, t + 1, k)
    ensures Expandable(xs[t].peers[k], xs[t + 1].peers[k])
  {
    hide ProxyInv, Apply, Can, Expandable, NewProxy, Later;
    RunInv(xs, acts, nRanks, queueSize, t);
    assert xs[t + 1] == Apply(xs[t], acts[t]);
    RunLater(xs, acts, nRanks, queueSize, t, t + 1);
    LaterPeers(xs[t], xs[t + 1]);
    ActionExpands(xs[t], acts[t], k);
  }

  // ------------------------------------------------------------------------ the two reads

  /** Where store position b lies among the states of the run. */
  lemma {:induction false} Located(xs: seq<Proxy>, k: nat, i: nat, ws: seq<Words>, ss: seq<Store>, at: seq<nat>,
                                   b: nat, n: nat) returns (j: nat)
    requires Expands(xs, k, i, ws, ss, at) && n <= i && b <= at[n]
    ensures j <= n && at[j] <= b && (b == at[j] || (j < n && b < at[j + 1]))
    decreases n
  {
    hide Between, Shows, Stores;
    if b == at[n] {
      j := n;
    } else {
      assert n > 0;
      assert k < |xs[n - 1].peers|;
      if at[n - 1] <= b { j := n - 1; } else { j := Located(xs, k, i, ws, ss, at, b, n - 1); }
    }
  }

  lemma {:induction false} AtGrows(xs: seq<Proxy>, k: nat, i: nat, ws: seq<Words>, ss: seq<Store>, at: seq<nat>, m: nat, n: nat)
    requires Expands(xs, k, i, ws, ss, at) && m <= n <= i
    ensures at[m] <= at[n]
    decreases n
  {
    if m < n {
      AtGrows(xs, k, i, ws, ss, at, m, n - 1);
      assert StepAt(xs, k, ws, ss, at, n - 1);
    }
  }

  /** Behind the barrier of peer k no producer stores. */
  lemma NoPuts(xs: seq<Proxy>, acts: seq<Action>, nRanks: nat, queueSize: nat, i: nat, k: nat,
               ws: seq<Words>, ss: seq<Store>, at: seq<nat>, m: nat, t: nat)
    requires At(xs, acts, nRanks, queueSize, i, k) && Expands(xs, k, i, ws, ss, at)
    requires m <= i && k < |xs[m].peers| && k in xs[m].barrier && at[m] <= t < |ss|
    ensures !ss[t].Put?
  {
    hide Run, Later, Shows, Stores, LaterPeer;
    var j := Located(xs, k, i, ws, ss, at, t, i);
    assert j < i;
    if t == at[j] { j := LastAt(xs, k, i, ws, ss, at, t, j); }
    if j < m { AtGrows(xs, k, i, ws, ss, at, j + 1, m); }
    RunLater(xs, acts, nRanks, queueSize, m, j);
    RunLater(xs, acts, nRanks, queueSize, m, j + 1);
    SameAccepted(xs[m], xs[j], k);
    SameAccepted(xs[m], xs[j + 1], k);
    assert StepAt(xs, k, ws, ss, at, j);
  }

  /** The last state before store t, when some state is right there. */
  lemma LastAt(xs: seq<Proxy>, k: nat, i: nat, ws: seq<Words>, ss: seq<Store>, at: seq<nat>, t: nat, j: nat)
    returns (n: nat)
    requires Expands(xs, k, i, ws, ss, at) && t < |ss| && j < i && at[j] <= t
    ensures n < i && at[n] <= t < at[n + 1]
    decreases i - j
  {
    hide Between, Shows, Stores;
    if t < at[j + 1] { n := j; } else { n := LastAt(xs, k, i, ws, ss, at, t, j + 1); }
  }

  lemma SameAccepted(x: Proxy, y: Proxy, k: nat)
    requires Later(x, y) && k < |x.peers| && k in x.barrier
    ensures k < |y.peers| && y.peers[k].accepted == x.peers[k].accepted
  {
    assert LaterPeer(x, y, k) && Closed(x, k);
  }

  /** What the words say where a state of the run is. */
  lemma StateWords(xs: seq<Proxy>, acts: seq<Action>, nRanks: nat, queueSize: nat, i: nat, k: nat,
                   ws: seq<Words>, ss: seq<Store>, at: seq<nat>, j: nat)
    requires At(xs, acts, nRanks, queueSize, i, k) && Expands(xs, k, i, ws, ss, at) && j <= i
    ensures k < |xs[j].peers| && at[j] < |ws| && |ws| == |ss| + 1 && |xs[j].peers[k].accepted| == xs[j].peers[k].opSeq
    ensures var w := ws[at[j]]; var p := xs[j].peers[k];
      && w.hand == 0 && w.pi - w.ci == |p.ring| && w.inFlight == |p.flight|
      && w.ci <= w.pi <= w.ci + UINT32_MAX / 2
  {
    hide Run, ProxyInv, Inv, Later, InvGroups, StepAt;
    assert Shows(ws, at[j], xs[j].peers[k]);
    hide Expands;
    RunLater(xs, acts, nRanks, queueSize, j, i);
    LaterPeers(xs[j], xs[i]);
    PeerAt(xs, acts, nRanks, queueSize, j, k);
    UnpackInv(xs[j].peers[k]);
  }

  /** The wait of the quiesce in a run, behind its barrier: it reads the indices at store a and the count
      at store b, with no wrap between the indices. What is not retired then is what the progress thread
      has in hand. So everything is retired exactly when b lies at a state of the run and not inside an
      action, and there the peer is idle. */
  lemma QuiesceReads(xs: seq<Proxy>, acts: seq<Action>, nRanks: nat, queueSize: nat, i: nat, k: nat,
                     ws: seq<Words>, ss: seq<Store>, at: seq<nat>, m: nat, a: nat, b: nat)
    requires At(xs, acts, nRanks, queueSize, i, k) && Expands(xs, k, i, ws, ss, at)
    requires m <= i && k < |xs[m].peers| && k in xs[m].barrier && at[m] <= a <= b < |ws|
    requires LooksDrained(ws[a]) && SameLap(ws[a].ci, ws[a].pi - ws[a].ci) && ws[b].inFlight == 0
    ensures Unretired(ws[b]) == ws[b].hand
    ensures Unretired(ws[b]) == 0 <==> exists j :: m <= j <= i && at[j] == b
    ensures forall j :: m <= j <= i && at[j] == b ==>
      k < |xs[j].peers| && Idle(xs[j].peers[k]) && forall s :: 1 <= s <= |xs[j].peers[k].accepted| ==> s in xs[j].peers[k].retired
  {
    hide Run, LooksDrained, SameLap, StepAt, Shows, Idle;
    StateWords(xs, acts, nRanks, queueSize, i, k, ws, ss, at, m);
    forall t | at[m] <= t < b ensures !ss[t].Put? {
      NoPuts(xs, acts, nRanks, queueSize, i, k, ws, ss, at, m, t);
    }
    StoresKeep(ws, ss, at[m], a);
    QuietReadsExact(ws, ss, a, b);
    StoresKeep(ws, ss, a, b);
    InHandInside(xs, k, i, ws, ss, at, m, b);
    forall j | m <= j <= i && at[j] == b
      ensures k < |xs[j].peers| && Idle(xs[j].peers[k]) && ws[b].hand == 0
      ensures forall s :: 1 <= s <= |xs[j].peers[k].accepted| ==> s in xs[j].peers[k].retired
    {
      StateWords(xs, acts, nRanks, queueSize, i, k, ws, ss, at, j);
      IdleAt(xs, acts, nRanks, queueSize, i, j, k);
    }
  }

  /** Nothing in hand means that a state of the run is right there. */
  lemma InHandInside(xs: seq<Proxy>, k: nat, i: nat, ws: seq<Words>, ss: seq<Store>, at: seq<nat>, m: nat, b: nat)
    requires Expands(xs, k, i, ws, ss, at) && m <= i && at[m] <= b < |ws|
    ensures ws[b].hand == 0 ==> exists j :: m <= j <= i && at[j] == b
  {
    hide Shows, Stores;
    assert b <= at[i] by { StoresLength(ws, ss); }
    var j := Located(xs, k, i, ws, ss, at, b, i);
    if b == at[j] {
      if j < m { AtGrows(xs, k, i, ws, ss, at, j, m); }
      assert at[if j < m then m else j] == b;
    } else {
      assert StepAt(xs, k, ws, ss, at, j);
    }
  }

  lemma StoresLength(ws: seq<Words>, ss: seq<Store>)
    requires Stores(ws, ss)
    ensures |ws| == |ss| + 1
  {}

  lemma IdleAt(xs: seq<Proxy>, acts: seq<Action>, nRanks: nat, queueSize: nat, i: nat, j: nat, k: nat)
    requires At(xs, acts, nRanks, queueSize, i, k) && j <= i && k < |xs[j].peers|
    requires |xs[j].peers[k].ring| == 0 && |xs[j].peers[k].flight| == 0
    ensures Idle(xs[j].peers[k])
    ensures forall s :: 1 <= s <= |xs[j].peers[k].accepted| ==> s in xs[j].peers[k].retired
  {
    hide Run, ProxyInv, Inv, InvGroups, InvBoard;
    PeerAt(xs, acts, nRanks, queueSize, j, k);
    LooksEmptyExact(xs[j].peers[k]);
    RetiredLeftRing(xs[j].peers[k]);
  }

  // ------------------------------------------------------------------- an answer too early

  /** The proxy behind the barrier of its peer. */
  function Barred(p: Peer, phase: Phase): Proxy {
    One(p, false, phase, false).(quiesced := true, barrier := {0})
  }

  lemma StepQuiesce()
    ensures var x := One(RmaFlushGap.Accepted(), false, Polling(0), false);
      && Can(x, Quiesce) && Can(Apply(x, Quiesce), PassBarrier(0))
      && Apply(Apply(x, Quiesce), PassBarrier(0)) == Barred(RmaFlushGap.Accepted(), Polling(0))
  {
    hide RmaFlushGap.Accepted;
  }

  lemma StepToPosting()
    ensures var x := Barred(RmaFlushGap.Accepted(), Polling(0));
      && Can(x, EndPoll(true, false))
      && Apply(x, EndPoll(true, false)) == Barred(RmaFlushGap.Accepted(), Issuing(0))
      && Can(Barred(RmaFlushGap.Accepted(), Issuing(0)), TestRing)
      && Apply(Barred(RmaFlushGap.Accepted(), Issuing(0)), TestRing) == Barred(RmaFlushGap.Accepted(), Posting(0))
  {
    hide Prune, LooksEmpty, RmaFlushGap.Accepted;
    AcceptedLooks();
  }

  lemma AcceptedLooks()
    ensures var p := RmaFlushGap.Accepted();
      Prune(p) == p && p.ring == [RmaFlushGap.FIRST] && !LooksEmpty(p)
  {}

  lemma StepPost()
    ensures var x := Barred(RmaFlushGap.Accepted(), Posting(0)); var a := IssueOne(RmaFlushGap.POSTED);
      Can(x, a) && Apply(x, a) == Barred(RmaFlushGap.Native(), Issuing(0))
  {
    RmaFlushGap.PostNative();
    assert RmaFlushGap.Accepted().ring != [];
    hide Issue, RmaFlushGap.Accepted, RmaFlushGap.Native;
  }

  /** A run in which a producer and then the quiesce come before the post of the only descriptor. */
  lemma EarlyRun() returns (xs: seq<Proxy>, acts: seq<Action>)
    ensures |xs| == 8 && At(xs, acts, 1, 2, 7, 0) && 0 in xs[4].barrier
    ensures xs[6].peers == [RmaFlushGap.Accepted()] && xs[7].peers == [RmaFlushGap.Native()]
  {
    RmaFlushGap.StepEnter(); RmaFlushGap.StepEnqueue(); StepQuiesce(); StepToPosting(); StepPost();
    hide Can, Apply, NewProxy;
    var p := RmaFlushGap.Accepted();
    var x2 := One(p, false, Polling(0), false);
    acts := [Enter(0), TryBatch(0, [PUT]), Quiesce, PassBarrier(0), EndPoll(true, false),
             TestRing, IssueOne(RmaFlushGap.POSTED)];
    xs := [One(NewPeer(2), false, Polling(0), false), One(NewPeer(2), true, Polling(0), false),
           x2, Apply(x2, Quiesce), Barred(p, Polling(0)), Barred(p, Issuing(0)), Barred(p, Posting(0)),
           Barred(RmaFlushGap.Native(), Issuing(0))];
    assert Shaped(Apply(x2, Quiesce)) by { QuiesceShaped(x2); }
    forall i | 0 <= i < |acts|
      ensures Shaped(xs[i]) && Can(xs[i], acts[i]) && xs[i + 1] == Apply(xs[i], acts[i])
    {
      if i == 0 {} else if i == 1 {} else if i == 2 {} else if i == 3 {} else if i == 4 {} else if i == 5 {} else {}
    }
  }

  lemma QuiesceShaped(x: Proxy)
    requires Shaped(x)
    ensures Shaped(Apply(x, Quiesce))
  {}

  /** The wait can end too early: behind the barrier both reads find nothing, and in the state after that
      action the descriptor is in progress. */
  ghost predicate TooEarly(xs: seq<Proxy>, acts: seq<Action>, i: nat, ws: seq<Words>, ss: seq<Store>, at: seq<nat>, b: nat) {
    && At(xs, acts, 1, 2, i, 0) && Expands(xs, 0, i, ws, ss, at)
    && exists m :: 0 <= m < i && 0 < |xs[m].peers| && 0 in xs[m].barrier && at[m] <= b < at[i] < |ws|
         && LooksDrained(ws[b]) && SameLap(ws[b].ci, ws[b].pi - ws[b].ci) && ws[b].inFlight == 0
         && |xs[i].peers[0].flight| == 1
  }

  lemma QuiesceTooEarly()
    ensures exists xs: seq<Proxy>, acts: seq<Action>, i: nat, ws: seq<Words>, ss: seq<Store>, at: seq<nat>, b: nat ::
      TooEarly(xs, acts, i, ws, ss, at, b)
  {
    hide Run;
    var xs, acts := EarlyRun();
    var ws, ss, at := RunExpands(xs, acts, 1, 2, 7, 0);
    var b := at[6] + 1;
    EarlyWords(xs, acts, ws, ss, at);
    assert TooEarly(xs, acts, 7, ws, ss, at, b);
    hide TooEarly;
  }

  lemma EarlyWords(xs: seq<Proxy>, acts: seq<Action>, ws: seq<Words>, ss: seq<Store>, at: seq<nat>)
    requires |xs| == 8 && At(xs, acts, 1, 2, 7, 0) && Expands(xs, 0, 7, ws, ss, at) && 0 in xs[4].barrier
    requires xs[6].peers == [RmaFlushGap.Accepted()] && xs[7].peers == [RmaFlushGap.Native()]
    ensures at[4] <= at[6] && at[6] + 1 < at[7] < |ws|
    ensures var w := ws[at[6] + 1];
      LooksDrained(w) && SameLap(w.ci, w.pi - w.ci) && w.inFlight == 0
  {
    hide Run, LooksDrained;
    AtGrows(xs, 0, 7, ws, ss, at, 4, 6);
    var p, q := RmaFlushGap.Accepted(), RmaFlushGap.Native();
    assert xs[6].peers[0] == p && xs[7].peers[0] == q;
    assert Shows(ws, at[6], p) && Shows(ws, at[7], q);
    assert View(p) == Words(1, 0, 0, 0, false) && View(q) == Words(1, 1, 1, 0, false);
    assert StepAt(xs, 0, ws, ss, at, 6) && at[6 + 1] == at[7];
    assert p.accepted == q.accepted;
    hide RmaFlushGap.Accepted, RmaFlushGap.Native;
    assert at[6] < at[7];
    FirstStore(ws, ss, at[6]);
    EqualLooksDrained(ws[at[6] + 1]);
  }

  /** From one descriptor in the ring the progress thread can only take it. */
  lemma FirstStore(ws: seq<Words>, ss: seq<Store>, m: nat)
    requires Stores(ws, ss) && m < |ss| && ws[m] == Words(1, 0, 0, 0, false) && !ss[m].Put?
    ensures ws[m + 1] == Words(1, 1, 0, 1, true)
  {}

  lemma EqualLooksDrained(w: Words)
    requires w.ci == w.pi
    ensures LooksDrained(w) && SameLap(w.ci, w.pi - w.ci)
  {}
}
