// The books of a P2P worker pool, as values: which slices wait, fly and are marked, which credits they
// hold, and how each turn of a worker changes that. P2pWorkers keeps them in place.

module P2pBooks {
  import opened Results
  import opened P2pLoad

  /** A completion: the slice its work request carried, if it was one of the pool's, and its status. */
  datatype Wc = Wc(slice: Option<nat>, ok: bool)

  /** A PoolQpEntry and its queue pair: a destroyed queue pair is not alive, and its entry stays. */
  datatype Qp = Qp(comm: nat, registered: bool, alive: bool)

  function CreditsOf(flights: map<nat, nat>, e: nat): set<nat> { set s | s in flights && flights[s] == e }

  predicate QpsOk(qps: seq<Qp>, owners: seq<int>) {
    forall e :: 0 <= e < |qps| ==> qps[e].comm < |owners| && (qps[e].registered ==> qps[e].alive)
  }

  /** Worker t's list holds exactly the registered entries of its connections. */
  ghost predicate OwnOk(own: seq<nat>, t: nat, qps: seq<Qp>, owners: seq<int>)
    requires QpsOk(qps, owners)
  {
    && NoRepeats(own)
    && forall e: nat :: e in own <==> e < |qps| && qps[e].registered && owners[qps[e].comm] == t
  }

  /** A slice on the wire flies on a queue pair of its worker's. The worker knows that one, unless it is
      aborting connections: then it is aborting this one, or has destroyed its queue pairs. */
  predicate FlightOk(e: nat, t: nat, qps: seq<Qp>, owners: seq<int>, aborting: set<nat>)
    requires QpsOk(qps, owners)
  {
    && e < |qps|
    && owners[qps[e].comm] == t
    && (if aborting == {} then qps[e].registered else qps[e].comm in aborting || !qps[e].alive)
  }

  predicate FlightsOk(flights: map<nat, nat>, t: nat, qps: seq<Qp>, owners: seq<int>, aborting: set<nat>)
    requires QpsOk(qps, owners)
  {
    forall s :: s in flights ==> FlightOk(flights[s], t, qps, owners, aborting)
  }

  /** Only a failed worker aborts connections, and only its own. */
  predicate AbortOk(aborting: set<nat>, t: nat, owners: seq<int>, failed: bool) {
    && (aborting != {} ==> failed)
    && forall c :: c in aborting ==> c < |owners| && owners[c] == t
  }

  function Pending(pend: map<nat, nat>, e: nat): nat { if e in pend then pend[e] else 0 }

  /** The work requests an entry has outstanding. */
  function Outstanding(e: nat, owner: int, inflight: seq<map<nat, nat>>): nat {
    if 0 <= owner < |inflight| then |CreditsOf(inflight[owner], e)| else 0
  }

  /** Every entry's depth counts the slices flying on it, and completions not yet given back. */
  predicate CreditsOk(wrDepth: seq<nat>, qps: seq<Qp>, owners: seq<int>, inflight: seq<map<nat, nat>>, pend: map<nat, nat>)
    requires QpsOk(qps, owners) && |wrDepth| == |qps|
  {
    && (forall e :: e in pend ==> e < |qps|)
    && (forall e :: 0 <= e < |qps| ==>
          wrDepth[e] == Outstanding(e, owners[qps[e].comm], inflight) + Pending(pend, e))
  }

  predicate WithinCq(inflight: seq<map<nat, nat>>, depth: nat) {
    forall t :: 0 <= t < |inflight| ==> |inflight[t]| <= depth
  }

  predicate NoOwnerNoSlices(owners: seq<int>, queued: seq<seq<nat>>, local: seq<seq<nat>>)
    requires |owners| == |queued| == |local|
  {
    forall c :: 0 <= c < |owners| && owners[c] < 0 ==> queued[c] == [] && local[c] == []
  }

  /** Worker t has taken slices from the front of its own queues only; the rest is as in Posts. */
  predicate Served(owners: seq<int>, l0: seq<seq<nat>>, l: seq<seq<nat>>, w0: seq<map<nat, nat>>, w: seq<map<nat, nat>>,
                   t: nat, d0: seq<nat>, d: seq<nat>, max: nat) {
    && |l0| == |l| == |owners|
    && (forall c :: 0 <= c < |owners| && owners[c] != t ==> l[c] == l0[c])
    && (forall c :: 0 <= c < |owners| ==> |l[c]| <= |l0[c]| && l[c] == l0[c][|l0[c]| - |l[c]|..])
    && t < |w| == |w0|
    && (forall i :: 0 <= i < |w| && i != t ==> w[i] == w0[i])
    && |d| == |d0|
    && (max != 0 ==> forall e :: 0 <= e < |d| ==> d[e] <= d0[e] || d[e] <= max)
  }

  /** Apart from the connections still to do, worker t has nothing it could post: no slice waits, or every
      queue pair is full. */
  predicate NothingMore(owners: seq<int>, l: seq<seq<nat>>, t: nat, todo: set<nat>, qps: seq<Qp>, d: seq<nat>, max: nat) {
    |l| == |owners| && forall c :: 0 <= c < |owners| && owners[c] == t && c !in todo ==> l[c] == [] || CommFull(qps, d, c, max)
  }

  lemma NoneServed(owners: seq<int>, l: seq<seq<nat>>, w: seq<map<nat, nat>>, t: nat, d: seq<nat>, max: nat,
                   todo: set<nat>, qps: seq<Qp>)
    requires |l| == |owners| && t < |w| && todo == set c: nat | c < |owners| && owners[c] == t
    ensures Served(owners, l, l, w, w, t, d, d, max) && NothingMore(owners, l, t, todo, qps, d, max)
  {}

  lemma ServedShape(owners: seq<int>, l0: seq<seq<nat>>, l: seq<seq<nat>>, w0: seq<map<nat, nat>>, w: seq<map<nat, nat>>,
                    t: nat, d0: seq<nat>, d: seq<nat>, max: nat)
    requires Served(owners, l0, l, w0, w, t, d0, d, max)
    ensures |l| == |owners|
  {}

  lemma ServedMore(owners: seq<int>, l0: seq<seq<nat>>, l1: seq<seq<nat>>, l2: seq<seq<nat>>, c: nat, w0: seq<map<nat, nat>>,
                   w1: seq<map<nat, nat>>, w2: seq<map<nat, nat>>, t: nat, d0: seq<nat>, d1: seq<nat>, d2: seq<nat>,
                   max: nat, qps: seq<Qp>)
    requires Served(owners, l0, l1, w0, w1, t, d0, d1, max) && Posts(l1, l2, c, w1, w2, t, d1, d2, max, qps)
    requires c < |owners| && owners[c] == t
    ensures Served(owners, l0, l2, w0, w2, t, d0, d2, max)
  {
    assert l0[c][|l0[c]| - |l1[c]|..][|l1[c]| - |l2[c]|..] == l0[c][|l0[c]| - |l2[c]|..];
  }

  lemma DoneAfter(owners: seq<int>, l1: seq<seq<nat>>, l2: seq<seq<nat>>, c: nat, w1: seq<map<nat, nat>>,
                  w2: seq<map<nat, nat>>, t: nat, todo: set<nat>, d1: seq<nat>, d2: seq<nat>, max: nat, qps: seq<Qp>)
    requires NothingMore(owners, l1, t, todo, qps, d1, max) && Posts(l1, l2, c, w1, w2, t, d1, d2, max, qps)
    requires c < |l2| && (l2[c] == [] || CommFull(qps, d2, c, max))
    ensures NothingMore(owners, l2, t, todo - {c}, qps, d2, max)
  {
    forall x | 0 <= x < |owners| && owners[x] == t && x !in todo - {c}
      ensures l2[x] == [] || CommFull(qps, d2, x, max)
    {
      if x != c { assert l2[x] == l1[x] && x !in todo; }
    }
  }

  lemma DoneNow(owners: seq<int>, l: seq<seq<nat>>, c: nat, t: nat, todo: set<nat>, d: seq<nat>, max: nat, qps: seq<Qp>)
    requires NothingMore(owners, l, t, todo, qps, d, max) && c < |l| && l[c] == []
    ensures NothingMore(owners, l, t, todo - {c}, qps, d, max)
  {}

  predicate TakenOver(owners: seq<int>, l0: seq<seq<nat>>, q0: seq<seq<nat>>, l: seq<seq<nat>>, q: seq<seq<nat>>, t: nat, done: nat) {
    && |l0| == |q0| == |l| == |q| == |owners|
    && forall c :: 0 <= c < |owners| ==>
         if c < done && owners[c] == t then l[c] == l0[c] + q0[c] && q[c] == [] else l[c] == l0[c] && q[c] == q0[c]
  }

  lemma TakenNext(owners: seq<int>, l0: seq<seq<nat>>, q0: seq<seq<nat>>, l: seq<seq<nat>>, q: seq<seq<nat>>, t: nat, c: nat)
    requires TakenOver(owners, l0, q0, l, q, t, c) && c < |owners|
    ensures c < |l| == |q|
    ensures if owners[c] == t then TakenOver(owners, l0, q0, l[c := l[c] + q[c]], q[c := []], t, c + 1)
            else TakenOver(owners, l0, q0, l, q, t, c + 1)
  {}

  lemma NoneTakenOver(owners: seq<int>, l: seq<seq<nat>>, q: seq<seq<nat>>, t: nat)
    requires |l| == |q| == |owners|
    ensures TakenOver(owners, l, q, l, q, t, 0)
  {}

  lemma NoPosts(l: seq<seq<nat>>, c: nat, w: seq<map<nat, nat>>, t: nat, d: seq<nat>, max: nat, qps: seq<Qp>)
    requires c < |l| && t < |w| && |d| == |qps|
    ensures Posts(l, l, c, w, w, t, d, d, max, qps)
    ensures Posts(l, l[c := []], c, w, w, t, d, d, max, qps)
  {
    assert l[c][0..] == l[c] && l[c][|l[c]|..] == [];
  }

  lemma PostsThrough(l0: seq<seq<nat>>, l1: seq<seq<nat>>, l2: seq<seq<nat>>, c: nat, w0: seq<map<nat, nat>>,
                     w1: seq<map<nat, nat>>, w2: seq<map<nat, nat>>, t: nat, d0: seq<nat>, d1: seq<nat>, d2: seq<nat>,
                     max: nat, qps: seq<Qp>)
    requires Posts(l0, l1, c, w0, w1, t, d0, d1, max, qps) && Posts(l1, l2, c, w1, w2, t, d1, d2, max, qps)
    ensures Posts(l0, l2, c, w0, w2, t, d0, d2, max, qps)
  {
    assert l0[c][|l0[c]| - |l1[c]|..][|l1[c]| - |l2[c]|..] == l0[c][|l0[c]| - |l2[c]|..];
  }

  lemma RingFull(ring: seq<nat>, c: nat, t: nat, qps: seq<Qp>, owners: seq<int>, wrDepth: seq<nat>, max: nat)
    requires RingOk(ring, c, t, qps, owners) && AllFull(ring, wrDepth, max) && |wrDepth| == |qps|
    ensures CommFull(qps, wrDepth, c, max)
  {
    forall e: nat | e < |qps| && qps[e].registered && qps[e].comm == c
      ensures wrDepth[e] >= max
    {
      assert e in ring;
    }
  }

  /** Every registered queue pair of connection c that its worker can use has as many outstanding work
      requests as it can hold. */
  predicate CommFull(qps: seq<Qp>, wrDepth: seq<nat>, c: nat, max: nat) {
    |wrDepth| == |qps| && max != 0 && forall e :: 0 <= e < |qps| && qps[e].registered && qps[e].comm == c ==> wrDepth[e] >= max
  }

  function Least(a: nat, b: nat, c: nat, d: nat): (r: nat)
    ensures r <= a && r <= b && r <= c && r <= d && (r == a || r == b || r == c || r == d)
  {
    var ab, cd := if a < b then a else b, if c < d then c else d;
    if ab < cd then ab else cd
  }

  predicate RingOk(ring: seq<nat>, c: nat, t: nat, qps: seq<Qp>, owners: seq<int>) {
    && c < |owners| && owners[c] == t
    && (forall i :: 0 <= i < |ring| ==> ring[i] < |qps| && qps[ring[i]].registered && qps[ring[i]].comm == c)
    && (forall e: nat :: e < |qps| && qps[e].registered && qps[e].comm == c ==> e in ring)
  }

  predicate AllFull(ring: seq<nat>, wrDepth: seq<nat>, max: nat) {
    max != 0 && forall i :: 0 <= i < |ring| && ring[i] < |wrDepth| ==> wrDepth[ring[i]] >= max
  }

  /** Posting for connection c takes slices from the front of its queue only, changes worker t's part of
      the wire only, and takes no entry beyond the depth of the queue pairs once that is known. */
  predicate Posts(l0: seq<seq<nat>>, l: seq<seq<nat>>, c: nat, w0: seq<map<nat, nat>>, w: seq<map<nat, nat>>, t: nat,
                  d0: seq<nat>, d: seq<nat>, max: nat, qps: seq<Qp>) {
    && c < |l| == |l0|
    && |l[c]| <= |l0[c]|
    && l == l0[c := l0[c][|l0[c]| - |l[c]|..]]
    && t < |w| == |w0|
    && (forall i :: 0 <= i < |w| && i != t ==> w[i] == w0[i])
    && |d| == |d0| == |qps|
    && (max != 0 ==> forall e :: 0 <= e < |d| ==> d[e] <= d0[e] || d[e] <= max)
    && (forall e :: 0 <= e < |d| && qps[e].comm != c ==> d[e] == d0[e])
  }

  /** Every entry has its turn. */
  lemma Turn(start: nat, i: nat, n: nat) returns (k: nat)
    requires i < n
    ensures k < n && (start + k) % n == i
  {
    DivSplit(start, n);
    var q, r := start / n, start % n;
    if i >= r {
      k := i - r;
      ModUnique(start + k, q, n, i);
    } else {
      k := i + n - r;
      assert (q + 1) * n == q * n + n;
      ModUnique(start + k, q + 1, n, i);
    }
  }

  /** The marks the slices of a transfer have got: what its task counts. */
  function MarksOf(list: seq<nat>, marks: multiset<nat>): nat {
    if list == [] then 0 else MarksOf(list[..|list| - 1], marks) + marks[list[|list| - 1]]
  }

  lemma {:induction false} MarksAndHeld(list: seq<nat>, succ: multiset<nat>, fail: multiset<nat>, held: multiset<nat>)
    requires forall s :: s in list ==> held[s] + succ[s] + fail[s] == 1
    ensures MarksOf(list, succ) + MarksOf(list, fail) <= |list|
    ensures MarksOf(list, succ) + MarksOf(list, fail) == |list| <==> forall s :: s in list ==> s !in held
    decreases |list|
  {
    if list != [] {
      var m := |list| - 1;
      MarksAndHeld(list[..m], succ, fail, held);
      assert list == list[..m] + [list[m]];
      assert list[m] in list;
    }
  }

  lemma FrontIsApart(q: seq<nat>, k: nat)
    requires NoRepeats(q) && k <= |q|
    ensures NoRepeats(q[..k])
  {}

  lemma PostBooks(queued: seq<seq<nat>>, local: seq<seq<nat>>, inflight: seq<map<nat, nat>>, c: nat, t: nat,
                  take: nat, ok: nat, e: nat, succeeded: multiset<nat>, fails: multiset<nat>,
                  accepted: multiset<nat>, depth: nat)
    requires c < |local| && t < |inflight| && ok <= take <= |local[c]| && |inflight[t]| + take <= depth
    requires NoRepeats(local[c]) && forall s :: s in local[c] ==> s !in inflight[t]
    requires Balanced(Held(queued, local, inflight), succeeded + fails, accepted) && WithinCq(inflight, depth)
    ensures var w := inflight[t := FlyOn(inflight[t], local[c][..ok], e)];
      && Balanced(Held(queued, local[c := local[c][take..]], w), succeeded + (fails + multiset(local[c][ok..take])), accepted)
      && WithinCq(w, depth)
  {
    hide Held, Balanced, FlyOn, NoRepeats;
    var w := inflight[t := FlyOn(inflight[t], local[c][..ok], e)];
    Posted(queued, local, inflight, c, t, take, ok, e);
    var bad := multiset(local[c][ok..take]);
    assert succeeded + (fails + bad) == (succeeded + fails) + bad;
    Marked(Held(queued, local, inflight), Held(queued, local[c := local[c][take..]], w), succeeded + fails,
           succeeded + (fails + bad), bad, accepted);
  }

  lemma PostFlights(flights: map<nat, nat>, batch: seq<nat>, e: nat, t: nat, qps: seq<Qp>, owners: seq<int>)
    requires QpsOk(qps, owners) && FlightsOk(flights, t, qps, owners, {})
    requires e < |qps| && qps[e].registered && owners[qps[e].comm] == t
    ensures FlightsOk(FlyOn(flights, batch, e), t, qps, owners, {})
  {
    forall s | s in FlyOn(flights, batch, e)
      ensures FlightOk(FlyOn(flights, batch, e)[s], t, qps, owners, {})
    {
      assert s !in batch ==> FlightOk(flights[s], t, qps, owners, {});
    }
  }

  lemma PostCredit(wrDepth: seq<nat>, qps: seq<Qp>, owners: seq<int>, inflight: seq<map<nat, nat>>, t: nat,
                   batch: seq<nat>, e: nat)
    requires QpsOk(qps, owners) && |wrDepth| == |qps| && CreditsOk(wrDepth, qps, owners, inflight, map[])
    requires t < |inflight| && e < |qps| && owners[qps[e].comm] == t
    requires NoRepeats(batch) && forall s :: s in batch ==> s !in inflight[t]
    ensures CreditsOk(wrDepth[e := wrDepth[e] + |batch|], qps, owners,
                      inflight[t := FlyOn(inflight[t], batch, e)], map[])
  {
    var w := inflight[t := FlyOn(inflight[t], batch, e)];
    hide FlyOn, NoRepeats, CreditsOf, QpsOk;
    forall x: nat
      ensures Outstanding(x, t, w) == Outstanding(x, t, inflight) + if x == e then |batch| else 0
    {
      FlyCredits(inflight[t], batch, e, x);
    }
  }

  lemma FlyCredits(flights: map<nat, nat>, batch: seq<nat>, e: nat, x: nat)
    requires NoRepeats(batch) && forall s :: s in batch ==> s !in flights
    ensures |CreditsOf(FlyOn(flights, batch, e), x)| == |CreditsOf(flights, x)| + if x == e then |batch| else 0
  {
    hide NoRepeats;
    var f := FlyOn(flights, batch, e);
    var before, more := CreditsOf(flights, x), if x == e then Elements(batch) else {};
    forall s
      ensures s in CreditsOf(f, x) <==> s in before + more
      ensures s in more ==> s !in before
    {
      assert s in f <==> s in flights || s in batch;
    }
    assert CreditsOf(f, x) == before + more && before !! more;
    NoRepeatsSize(batch);
  }

  /** The slices of some completions, and those of them with a given status. */
  function Slices(wcs: seq<Wc>): set<nat> {
    if wcs == [] then {} else
      Slices(wcs[..|wcs| - 1]) + if wcs[|wcs| - 1].slice.Some? then {wcs[|wcs| - 1].slice.value} else {}
  }

  function Marks(wcs: seq<Wc>, ok: bool): multiset<nat> {
    if wcs == [] then multiset{} else
      var last := wcs[|wcs| - 1];
      Marks(wcs[..|wcs| - 1], ok) + if last.slice.Some? && last.ok == ok then multiset{last.slice.value} else multiset{}
  }

  /** A work request on the wire completes once. */
  predicate Completions(wcs: seq<Wc>, flights: map<nat, nat>) {
    && (forall i :: 0 <= i < |wcs| && wcs[i].slice.Some? ==> wcs[i].slice.value in flights)
    && (forall i, j :: 0 <= i < j < |wcs| && wcs[i].slice.Some? ==> wcs[j].slice != wcs[i].slice)
  }

  ghost predicate Polled(w: seq<map<nat, nat>>, succ: multiset<nat>, fail: multiset<nat>, w0: seq<map<nat, nat>>,
                         succ0: multiset<nat>, fail0: multiset<nat>, t: nat, wcs: seq<Wc>) {
    && t < |w0|
    && w == w0[t := w0[t] - Slices(wcs)]
    && succ == succ0 + Marks(wcs, true)
    && fail == fail0 + Marks(wcs, false)
  }

  lemma PolledStart(w: seq<map<nat, nat>>, succ: multiset<nat>, fail: multiset<nat>, t: nat)
    requires t < |w|
    ensures forall wcs: seq<Wc> :: wcs == [] ==> Polled(w, succ, fail, w, succ, fail, t, wcs)
  {
    assert w[t] - {} == w[t];
  }

  lemma PolledEnd(w: seq<map<nat, nat>>, succ: multiset<nat>, fail: multiset<nat>, w0: seq<map<nat, nat>>,
                  succ0: multiset<nat>, fail0: multiset<nat>, t: nat, wcs: seq<Wc>)
    requires Polled(w, succ, fail, w0, succ0, fail0, t, wcs)
    ensures t < |w0| && w == w0[t := w0[t] - Slices(wcs)]
    ensures succ == succ0 + Marks(wcs, true) && fail == fail0 + Marks(wcs, false)
  {}

  lemma {:induction false} SlicesIn(wcs: seq<Wc>)
    ensures forall s :: s in Slices(wcs) <==> exists i :: 0 <= i < |wcs| && wcs[i].slice == Some(s)
    decreases |wcs|
  {
    if wcs != [] {
      var m := |wcs| - 1;
      SlicesIn(wcs[..m]);
      forall s
        ensures s in Slices(wcs) <==> exists i :: 0 <= i < |wcs| && wcs[i].slice == Some(s)
      {
        if s in Slices(wcs[..m]) {
          var i :| 0 <= i < m && wcs[..m][i].slice == Some(s);
          assert wcs[i].slice == Some(s);
        }
        if wcs[m].slice == Some(s) { assert s in Slices(wcs); }
        if i :| 0 <= i < m && wcs[i].slice == Some(s) { assert wcs[..m][i].slice == Some(s); }
      }
    }
  }

  lemma PolledNext(w: seq<map<nat, nat>>, succ: multiset<nat>, fail: multiset<nat>, w0: seq<map<nat, nat>>,
                   succ0: multiset<nat>, fail0: multiset<nat>, t: nat, wcs: seq<Wc>, i: nat)
    requires i < |wcs| && Polled(w, succ, fail, w0, succ0, fail0, t, wcs[..i]) && Completions(wcs, w0[t])
    ensures t < |w|
    ensures wcs[i].slice.None? ==> Polled(w, succ, fail, w0, succ0, fail0, t, wcs[..i + 1])
    ensures wcs[i].slice.Some? ==>
      && wcs[i].slice.value in w[t]
      && var s := wcs[i].slice.value;
         Polled(w[t := w[t] - {s}], if wcs[i].ok then succ + multiset{s} else succ,
                if wcs[i].ok then fail else fail + multiset{s}, w0, succ0, fail0, t, wcs[..i + 1])
  {
    hide Slices, Marks;
    var done, more := wcs[..i], wcs[..i + 1];
    MarksStep(wcs, i);
    if wcs[i].slice.Some? {
      var s := wcs[i].slice.value;
      NotYetTaken(wcs, i, w0[t]);
      assert (w0[t] - Slices(done)) - {s} == w0[t] - Slices(more);
      LandedTwice(w0, t, w0[t] - Slices(done), w0[t] - Slices(more));
    }
  }

  /** One more completion, in the sets of slices and marks. */
  lemma MarksStep(wcs: seq<Wc>, i: nat)
    requires i < |wcs|
    ensures Slices(wcs[..i + 1]) == (if wcs[i].slice.Some? then Slices(wcs[..i]) + {wcs[i].slice.value} else Slices(wcs[..i]))
    ensures wcs[i].slice.None? ==> forall ok :: Marks(wcs[..i + 1], ok) == Marks(wcs[..i], ok)
    ensures wcs[i].slice.Some? ==>
      && Marks(wcs[..i + 1], wcs[i].ok) == Marks(wcs[..i], wcs[i].ok) + multiset{wcs[i].slice.value}
      && Marks(wcs[..i + 1], !wcs[i].ok) == Marks(wcs[..i], !wcs[i].ok)
  {
    assert wcs[..i + 1][..i] == wcs[..i];
  }

  lemma NotYetTaken(wcs: seq<Wc>, i: nat, flights: map<nat, nat>)
    requires i < |wcs| && wcs[i].slice.Some? && Completions(wcs, flights)
    ensures wcs[i].slice.value in flights && wcs[i].slice.value !in Slices(wcs[..i])
  {
    SlicesIn(wcs[..i]);
    hide Slices;
  }

  lemma LandedTwice(w: seq<map<nat, nat>>, t: nat, first: map<nat, nat>, second: map<nat, nat>)
    requires t < |w|
    ensures w[t := first][t := second] == w[t := second]
  {}

  lemma FewerKeys(m: map<nat, nat>, e: nat)
    requires e in m
    ensures |m - {e}| < |m|
  {
    assert (m - {e}).Keys == m.Keys - {e};
  }

  lemma GiveCredit(wrDepth: seq<nat>, qps: seq<Qp>, owners: seq<int>, inflight: seq<map<nat, nat>>,
                   pend: map<nat, nat>, e: nat)
    requires QpsOk(qps, owners) && |wrDepth| == |qps| && CreditsOk(wrDepth, qps, owners, inflight, pend) && e in pend
    ensures e < |qps| && wrDepth[e] >= pend[e]
    ensures CreditsOk(wrDepth[e := wrDepth[e] - pend[e]], qps, owners, inflight, pend - {e})
  {}

  lemma UpdateTwice<T>(table: seq<T>, t: nat, first: T, second: T)
    requires t < |table|
    ensures table[t := first][t := second] == table[t := second]
  {}

  /** The queue pairs these slices flew on have all been destroyed. */
  predicate Grounded(flights: map<nat, nat>, qps: seq<Qp>) {
    forall s :: s in flights ==> flights[s] < |qps| && !qps[flights[s]].alive
  }

  lemma KeepBusy(flights: map<nat, nat>, t: nat, qps: seq<Qp>, owners: seq<int>, aborting: set<nat>, busy: set<nat>)
    requires QpsOk(qps, owners) && FlightsOk(flights, t, qps, owners, aborting) && aborting != {}
    requires AllDead(qps, aborting - busy) && busy <= aborting && AbortOk(aborting, t, owners, true)
    ensures AbortOk(busy, t, owners, true)
    ensures busy != {} ==> FlightsOk(flights, t, qps, owners, busy)
    ensures busy == {} ==> Grounded(flights, qps)
  {
    forall s | s in flights
      ensures busy != {} ==> FlightOk(flights[s], t, qps, owners, busy)
      ensures busy == {} ==> flights[s] < |qps| && !qps[flights[s]].alive
    {
      assert FlightOk(flights[s], t, qps, owners, aborting);
    }
  }

  lemma NoneFlying(t: nat, qps: seq<Qp>, owners: seq<int>)
    requires QpsOk(qps, owners)
    ensures FlightsOk(map[], t, qps, owners, {}) && Grounded(map[], qps) && AbortOk({}, t, owners, true)
  {}

  predicate SameComms(before: seq<Qp>, after: seq<Qp>) {
    |after| == |before| && forall e :: 0 <= e < |after| ==> after[e].comm == before[e].comm
  }

  predicate AllDead(qps: seq<Qp>, comms: set<nat>) {
    forall e :: 0 <= e < |qps| && qps[e].comm in comms ==> !qps[e].alive
  }

  lemma NoneDead(qps: seq<Qp>, comms: set<nat>)
    requires comms == {}
    ensures AllDead(qps, comms) && SameComms(qps, qps)
  {}

  lemma SameCommsThrough(a: seq<Qp>, b: seq<Qp>, c: seq<Qp>)
    requires SameComms(a, b) && SameComms(b, c)
    ensures SameComms(a, c)
  {}

  lemma StillDead(before: seq<Qp>, after: seq<Qp>, dead: set<nat>, c: nat, ok: bool, dead': set<nat>)
    requires AllDead(before, dead) && Destroyed(before, after, c, if ok then |after| else 0)
    requires dead' <= if ok then dead + {c} else dead
    ensures AllDead(after, dead') && SameComms(before, after)
  {}

  lemma EmptyStart(owners: seq<int>, table: seq<seq<nat>>, t: nat)
    requires |table| == |owners|
    ensures Emptied(owners, table, table, t, 0)
  {}

  lemma EmptyNext(owners: seq<int>, before: seq<seq<nat>>, after: seq<seq<nat>>, t: nat, done: nat)
    requires Emptied(owners, before, after, t, done) && done < |owners|
    ensures Emptied(owners, before, if owners[done] == t then after[done := []] else after, t, done + 1)
  {}

  /** The queues of worker t's first connections are empty, and the others as they were. */
  predicate Emptied(owners: seq<int>, before: seq<seq<nat>>, after: seq<seq<nat>>, t: nat, done: nat) {
    && |after| == |before| == |owners|
    && forall c :: 0 <= c < |owners| ==> after[c] == if c < done && owners[c] == t then [] else before[c]
  }

  lemma DropKeeps(owners: seq<int>, queued: seq<seq<nat>>, local: seq<seq<nat>>, c: nat)
    requires |owners| == |queued| == |local| && c < |owners| && NoOwnerNoSlices(owners, queued, local)
    ensures NoOwnerNoSlices(owners, queued[c := []], local) && NoOwnerNoSlices(owners, queued, local[c := []])
  {}

  /** Slices that leave a queue failed. */
  lemma DropBooks(queued: seq<seq<nat>>, local: seq<seq<nat>>, inflight: seq<map<nat, nat>>, c: nat,
                  succeeded: multiset<nat>, failedMarks: multiset<nat>, accepted: multiset<nat>)
    requires c < |queued| == |local|
    requires Balanced(Held(queued, local, inflight), succeeded + failedMarks, accepted)
    ensures Balanced(Held(queued[c := []], local, inflight), succeeded + (failedMarks + multiset(queued[c])), accepted)
    ensures Balanced(Held(queued, local[c := []], inflight), succeeded + (failedMarks + multiset(local[c])), accepted)
    ensures |failedMarks + multiset(queued[c])| == |failedMarks| + |queued[c]|
    ensures |failedMarks + multiset(local[c])| == |failedMarks| + |local[c]|
  {
    Dropped(queued, local, inflight, c);
    hide Held, Balanced;
    assert succeeded + (failedMarks + multiset(queued[c])) == (succeeded + failedMarks) + multiset(queued[c]);
    assert succeeded + (failedMarks + multiset(local[c])) == (succeeded + failedMarks) + multiset(local[c]);
    Marked(Held(queued, local, inflight), Held(queued[c := []], local, inflight), succeeded + failedMarks,
           succeeded + (failedMarks + multiset(queued[c])), multiset(queued[c]), accepted);
    Marked(Held(queued, local, inflight), Held(queued, local[c := []], inflight), succeeded + failedMarks,
           succeeded + (failedMarks + multiset(local[c])), multiset(local[c]), accepted);
  }

  /** Since some moment, n slices have left worker t's part of the wire, and they are the ones marked since. */
  ghost predicate Midway(w: seq<map<nat, nat>>, marks: multiset<nat>, w0: seq<map<nat, nat>>, marks0: multiset<nat>,
                         t: nat, n: nat) {
    && t < |w| == |w0|
    && w == w0[t := w[t]]
    && marks + multiset(w[t].Keys) == marks0 + multiset(w0[t].Keys)
    && n + |w[t]| == |w0[t]|
  }

  lemma StillFlying(w: seq<map<nat, nat>>, marks: multiset<nat>, t: nat)
    requires t < |w|
    ensures Midway(w, marks, w, marks, t, 0)
  {}

  lemma NextMark(w: seq<map<nat, nat>>, marks: multiset<nat>, w0: seq<map<nat, nat>>, marks0: multiset<nat>,
                 t: nat, n: nat, s: nat)
    requires Midway(w, marks, w0, marks0, t, n) && s in w[t]
    ensures Midway(w[t := w[t] - {s}], marks + multiset{s}, w0, marks0, t, n + 1)
    ensures |w[t] - {s}| < |w[t]|
  {
    assert (w[t] - {s}).Keys == w[t].Keys - {s};
    assert multiset(w[t].Keys) == multiset((w[t] - {s}).Keys) + multiset{s};
    assert (marks + multiset{s}) + multiset((w[t] - {s}).Keys) == marks + multiset(w[t].Keys);
  }

  lemma AllMarked(w: seq<map<nat, nat>>, marks: multiset<nat>, w0: seq<map<nat, nat>>, marks0: multiset<nat>,
                  t: nat, n: nat)
    requires Midway(w, marks, w0, marks0, t, n) && w[t] == map[]
    ensures w == w0[t := map[]] && n == |w0[t]| && marks == marks0 + multiset(w0[t].Keys)
  {
    assert multiset(w[t].Keys) == multiset{};
  }

  /** A slice that has landed is marked, one way or the other. */
  lemma LandBooks(queued: seq<seq<nat>>, local: seq<seq<nat>>, inflight: seq<map<nat, nat>>, t: nat, s: nat,
                  succeeded: multiset<nat>, failedMarks: multiset<nat>, accepted: multiset<nat>, depth: nat)
    requires Balanced(Held(queued, local, inflight), succeeded + failedMarks, accepted) && WithinCq(inflight, depth)
    requires t < |inflight| && s in inflight[t]
    ensures var inflight' := inflight[t := inflight[t] - {s}];
      && Balanced(Held(queued, local, inflight'), succeeded + (failedMarks + multiset{s}), accepted)
      && Balanced(Held(queued, local, inflight'), (succeeded + multiset{s}) + failedMarks, accepted)
      && WithinCq(inflight', depth)
  {
    var inflight' := inflight[t := inflight[t] - {s}];
    Landed(queued, local, inflight, t, s);
    assert succeeded + (failedMarks + multiset{s}) == (succeeded + failedMarks) + multiset{s};
    assert (succeeded + multiset{s}) + failedMarks == (succeeded + failedMarks) + multiset{s};
    hide Held, Balanced;
    Marked(Held(queued, local, inflight), Held(queued, local, inflight'), succeeded + failedMarks,
           (succeeded + failedMarks) + multiset{s}, multiset{s}, accepted);
  }

  lemma LandKeeps(flights: map<nat, nat>, t: nat, s: nat, qps: seq<Qp>, owners: seq<int>, aborting: set<nat>)
    requires QpsOk(qps, owners) && FlightsOk(flights, t, qps, owners, aborting) && s in flights
    ensures FlightsOk(flights - {s}, t, qps, owners, aborting)
    ensures flights[s] < |qps| && owners[qps[flights[s]].comm] == t
  {
    assert FlightOk(flights[s], t, qps, owners, aborting);
  }

  /** A slice that leaves the wire frees one credit of its entry, at once or when it is given back. */
  lemma LandCredit(wrDepth: seq<nat>, qps: seq<Qp>, owners: seq<int>, inflight: seq<map<nat, nat>>,
                   pend: map<nat, nat>, t: nat, s: nat)
    requires QpsOk(qps, owners) && |wrDepth| == |qps| && CreditsOk(wrDepth, qps, owners, inflight, pend)
    requires t < |inflight| && s in inflight[t] && inflight[t][s] < |qps| && owners[qps[inflight[t][s]].comm] == t
    ensures var e := inflight[t][s];
      var inflight' := inflight[t := inflight[t] - {s}];
      && wrDepth[e] >= 1
      && CreditsOk(wrDepth[e := wrDepth[e] - 1], qps, owners, inflight', pend)
      && CreditsOk(wrDepth, qps, owners, inflight', pend[e := Pending(pend, e) + 1])
  {
    var e := inflight[t][s];
    var inflight' := inflight[t := inflight[t] - {s}];
    forall x: nat
      ensures CreditsOf(inflight'[t], x) == CreditsOf(inflight[t], x) - {s}
      ensures x != e ==> s !in CreditsOf(inflight[t], x)
    {}
    assert s in CreditsOf(inflight[t], e);
    assert Outstanding(e, t, inflight) == Outstanding(e, t, inflight') + 1;
    forall x | 0 <= x < |qps| && x != e
      ensures Outstanding(x, owners[qps[x].comm], inflight') == Outstanding(x, owners[qps[x].comm], inflight)
    {
      assert CreditsOf(inflight'[t], x) == CreditsOf(inflight[t], x);
    }
  }

  lemma KnownFlights(flights: map<nat, nat>, t: nat, qps: seq<Qp>, owners: seq<int>, found: set<nat>)
    requires QpsOk(qps, owners) && FlightsOk(flights, t, qps, owners, {}) && flights != map[]
    requires forall s :: s in flights ==> flights[s] < |qps| && qps[flights[s]].comm in found
    ensures FlightsOk(flights, t, qps, owners, found) && found != {}
  {
    var s :| s in flights;
    forall s | s in flights
      ensures FlightOk(flights[s], t, qps, owners, found)
    {
      assert FlightOk(flights[s], t, qps, owners, {});
    }
  }

  predicate NoFlightsOf(flights: map<nat, nat>, qps: seq<Qp>, c: nat) {
    forall s :: s in flights && flights[s] < |qps| ==> qps[flights[s]].comm != c
  }

  /** Only connection c has lost queue pairs, and its first entries have lost theirs. */
  predicate Destroyed(before: seq<Qp>, after: seq<Qp>, c: nat, done: nat) {
    && |after| == |before|
    && (forall x :: 0 <= x < |after| ==>
          && after[x].comm == before[x].comm
          && (after[x].comm != c ==> after[x] == before[x])
          && (after[x].registered ==> before[x].registered)
          && (after[x].alive ==> before[x].alive))
    && (forall x :: 0 <= x < |after| && x < done && after[x].comm == c ==> !after[x].alive)
  }

  lemma NothingDestroyed(qps: seq<Qp>, c: nat)
    ensures Destroyed(qps, qps, c, 0)
  {}

  lemma DestroyNext(before: seq<Qp>, after: seq<Qp>, c: nat, e: nat, gone: bool)
    requires Destroyed(before, after, c, e) && e < |after| && after[e].comm == c && after[e].alive
    ensures Destroyed(before, after[e := Qp(c, false, !gone)], c, if gone then e + 1 else 0)
  {}

  lemma SkipEntry(before: seq<Qp>, after: seq<Qp>, c: nat, e: nat)
    requires Destroyed(before, after, c, e) && e < |after| && !(after[e].comm == c && after[e].alive)
    ensures Destroyed(before, after, c, e + 1)
  {}

  function Erase(own: seq<nat>, e: nat): (r: seq<nat>)
    ensures forall x :: x in r <==> x in own && x != e
    ensures NoRepeats(own) ==> NoRepeats(r)
  {
    if own == [] then [] else
      var m := |own| - 1;
      var front := Erase(own[..m], e);
      assert own == own[..m] + [own[m]];
      assert NoRepeats(own) ==> NoRepeats(own[..m]) && own[m] !in own[..m];
      if own[m] == e then front else front + [own[m]]
  }

  lemma RetiredFlights(flights: map<nat, nat>, t: nat, qps: seq<Qp>, owners: seq<int>, aborting: set<nat>, e: nat, gone: bool)
    requires QpsOk(qps, owners) && FlightsOk(flights, t, qps, owners, aborting) && e < |qps|
    requires owners[qps[e].comm] == t ==> qps[e].comm in aborting || NoFlightsOf(flights, qps, qps[e].comm)
    ensures var qps' := qps[e := Qp(qps[e].comm, false, !gone)];
      QpsOk(qps', owners) && FlightsOk(flights, t, qps', owners, aborting)
  {
    var qps' := qps[e := Qp(qps[e].comm, false, !gone)];
    forall s | s in flights
      ensures FlightOk(flights[s], t, qps', owners, aborting)
    {
      assert FlightOk(flights[s], t, qps, owners, aborting);
    }
  }

  lemma RetiredOwn(own: seq<nat>, t: nat, qps: seq<Qp>, owners: seq<int>, e: nat, gone: bool)
    requires QpsOk(qps, owners) && OwnOk(own, t, qps, owners) && e < |qps|
    ensures var qps' := qps[e := Qp(qps[e].comm, false, !gone)];
      && QpsOk(qps', owners)
      && OwnOk(if t == owners[qps[e].comm] then Erase(own, e) else own, t, qps', owners)
      && (!qps[e].registered ==> OwnOk(own, t, qps', owners))
  {}

  lemma RetiredRest(qps: seq<Qp>, e: nat, gone: bool, wrDepth: seq<nat>, owners: seq<int>, inflight: seq<map<nat, nat>>)
    requires QpsOk(qps, owners) && |wrDepth| == |qps| && e < |qps| && CreditsOk(wrDepth, qps, owners, inflight, map[])
    ensures var qps' := qps[e := Qp(qps[e].comm, false, !gone)];
      && QpsOk(qps', owners)
      && CreditsOk(wrDepth, qps', owners, inflight, map[])
      && (forall t :: 0 <= t < |inflight| && NoFlightsOf(inflight[t], qps, qps[e].comm) ==>
            NoFlightsOf(inflight[t], qps', qps[e].comm))
  {
    hide CreditsOf;
  }

  /** An entry that loses its registration, and perhaps its queue pair. */
  lemma Retired(qps: seq<Qp>, e: nat, gone: bool, wrDepth: seq<nat>, owners: seq<int>, inflight: seq<map<nat, nat>>,
                aborting: seq<set<nat>>, ownQps: seq<seq<nat>>)
    requires QpsOk(qps, owners) && |wrDepth| == |qps| && |inflight| == |aborting| == |ownQps| && e < |qps|
    requires forall c :: 0 <= c < |owners| ==> -1 <= owners[c] < |inflight|
    requires var c := qps[e].comm;
      owners[c] >= 0 ==> c in aborting[owners[c]] || NoFlightsOf(inflight[owners[c]], qps, c)
    requires forall t :: 0 <= t < |inflight| ==> FlightsOk(inflight[t], t, qps, owners, aborting[t])
    requires forall t :: 0 <= t < |ownQps| ==> OwnOk(ownQps[t], t, qps, owners)
    requires CreditsOk(wrDepth, qps, owners, inflight, map[])
    ensures var qps' := qps[e := Qp(qps[e].comm, false, !gone)];
      && QpsOk(qps', owners)
      && CreditsOk(wrDepth, qps', owners, inflight, map[])
      && (forall t :: 0 <= t < |inflight| ==> FlightsOk(inflight[t], t, qps', owners, aborting[t]))
      && (forall t :: 0 <= t < |ownQps| ==>
            OwnOk(if t == owners[qps[e].comm] then Erase(ownQps[t], e) else ownQps[t], t, qps', owners))
      && (forall t :: 0 <= t < |ownQps| && !qps[e].registered ==> OwnOk(ownQps[t], t, qps', owners))
      && (forall t :: 0 <= t < |inflight| && NoFlightsOf(inflight[t], qps, qps[e].comm) ==>
            NoFlightsOf(inflight[t], qps', qps[e].comm))
  {
    hide CreditsOk, NoFlightsOf, FlightsOk, OwnOk;
    RetiredRest(qps, e, gone, wrDepth, owners, inflight);
    forall t | 0 <= t < |inflight|
      ensures FlightsOk(inflight[t], t, qps[e := Qp(qps[e].comm, false, !gone)], owners, aborting[t])
    {
      RetiredFlights(inflight[t], t, qps, owners, aborting[t], e, gone);
    }
    forall t | 0 <= t < |ownQps|
      ensures var qps' := qps[e := Qp(qps[e].comm, false, !gone)];
        && OwnOk(if t == owners[qps[e].comm] then Erase(ownQps[t], e) else ownQps[t], t, qps', owners)
        && (!qps[e].registered ==> OwnOk(ownQps[t], t, qps', owners))
    {
      RetiredOwn(ownQps[t], t, qps, owners, e, gone);
    }
  }

  lemma AcceptMore(held: multiset<nat>, marked: multiset<nat>, accepted: multiset<nat>, more: seq<nat>)
    requires Balanced(held, marked, accepted) && NoRepeats(more) && forall s :: s in more ==> s !in accepted
    ensures Balanced(held + multiset(more), marked, accepted + multiset(more))
  {
    OnceEach(more);
    assert held + multiset(more) + marked == (held + marked) + multiset(more);
    forall s: nat
      ensures (accepted + multiset(more))[s] <= 1
    {
      assert multiset(more)[s] == multiset(Elements(more))[s] <= 1;
      assert accepted[s] <= 1 && (s in more ==> accepted[s] == 0);
    }
  }

  /** A new entry belongs to its connection's owner, and nothing flies on it. */
  lemma NewEntry(qps: seq<Qp>, q: Qp, wrDepth: seq<nat>, owners: seq<int>, inflight: seq<map<nat, nat>>,
                 aborting: seq<set<nat>>, ownQps: seq<seq<nat>>)
    requires QpsOk(qps, owners) && |wrDepth| == |qps| && |inflight| == |aborting| == |ownQps|
    requires forall c :: 0 <= c < |owners| ==> -1 <= owners[c] < |inflight|
    requires q.comm < |owners| && q.registered && q.alive
    requires forall t :: 0 <= t < |inflight| ==> FlightsOk(inflight[t], t, qps, owners, aborting[t])
    requires forall t :: 0 <= t < |ownQps| ==> OwnOk(ownQps[t], t, qps, owners)
    requires CreditsOk(wrDepth, qps, owners, inflight, map[])
    ensures QpsOk(qps + [q], owners) && CreditsOk(wrDepth + [0], qps + [q], owners, inflight, map[])
    ensures forall t :: 0 <= t < |inflight| ==> FlightsOk(inflight[t], t, qps + [q], owners, aborting[t])
    ensures forall t :: 0 <= t < |ownQps| ==>
      OwnOk(if t == owners[q.comm] then ownQps[t] + [|qps|] else ownQps[t], t, qps + [q], owners)
  {
    forall t | 0 <= t < |inflight|
      ensures FlightsOk(inflight[t], t, qps + [q], owners, aborting[t]) && CreditsOf(inflight[t], |qps|) == {}
    {
      forall s | s in inflight[t]
        ensures FlightOk(inflight[t][s], t, qps + [q], owners, aborting[t]) && inflight[t][s] < |qps|
      {
        assert FlightOk(inflight[t][s], t, qps, owners, aborting[t]);
      }
    }
    forall t | 0 <= t < |ownQps|
      ensures OwnOk(if t == owners[q.comm] then ownQps[t] + [|qps|] else ownQps[t], t, qps + [q], owners)
    {
      assert OwnOk(ownQps[t], t, qps, owners);
      assert |qps| !in ownQps[t];
    }
  }

  lemma {:induction false} NothingHeld(qs: seq<seq<nat>>, ms: seq<map<nat, nat>>)
    requires forall c :: 0 <= c < |qs| ==> qs[c] == []
    requires forall t :: 0 <= t < |ms| ==> ms[t] == map[]
    ensures Flat(qs) == OnWire(ms) == multiset{}
    decreases |qs| + |ms|
  {
    if qs != [] { NothingHeld(qs[..|qs| - 1], ms); }
    if ms != [] { NothingHeld(qs, ms[..|ms| - 1]); }
  }
}
