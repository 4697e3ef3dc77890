// What a P2P worker pool holds: slices waiting in queues and slices on the wire, counted as multisets.

module P2pLoad {
  import opened Results

  /** All slices of a table of queues. */
  function Flat(qs: seq<seq<nat>>): multiset<nat> {
    if qs == [] then multiset{} else Flat(qs[..|qs| - 1]) + multiset(qs[|qs| - 1])
  }

  /** All slices on the wire: one map a worker, from a slice to the QP entry whose credit it holds. */
  function OnWire(ms: seq<map<nat, nat>>): multiset<nat> {
    if ms == [] then multiset{} else OnWire(ms[..|ms| - 1]) + multiset(ms[|ms| - 1].Keys)
  }

  function Queued(qs: seq<seq<nat>>): nat { if qs == [] then 0 else Queued(qs[..|qs| - 1]) + |qs[|qs| - 1]| }

  function Flying(ms: seq<map<nat, nat>>): nat { if ms == [] then 0 else Flying(ms[..|ms| - 1]) + |ms[|ms| - 1]| }

  lemma {:induction false} FlatSize(qs: seq<seq<nat>>)
    ensures |Flat(qs)| == Queued(qs)
    decreases |qs|
  {
    if qs != [] { FlatSize(qs[..|qs| - 1]); }
  }

  lemma {:induction false} OnWireSize(ms: seq<map<nat, nat>>)
    ensures |OnWire(ms)| == Flying(ms)
    decreases |ms|
  {
    if ms != [] {
      OnWireSize(ms[..|ms| - 1]);
      assert |multiset(ms[|ms| - 1].Keys)| == |ms[|ms| - 1]|;
    }
  }

  lemma AddBoth(a: multiset<nat>, b: multiset<nat>, x: multiset<nat>, y: multiset<nat>, more: multiset<nat>)
    requires a + x == b + y
    ensures (a + more) + x == (b + more) + y
  {
    assert (a + more) + x == (a + x) + more == (b + y) + more;
  }

  lemma {:induction false} FlatUpdate(qs: seq<seq<nat>>, c: nat, q: seq<nat>)
    requires c < |qs|
    ensures Flat(qs[c := q]) + multiset(qs[c]) == Flat(qs) + multiset(q)
    decreases |qs|
  {
    var m := |qs| - 1;
    if c < m {
      FlatUpdate(qs[..m], c, q);
      assert qs[c := q][..m] == qs[..m][c := q];
      AddBoth(Flat(qs[..m][c := q]), Flat(qs[..m]), multiset(qs[c]), multiset(q), multiset(qs[m]));
    } else {
      assert qs[c := q][..m] == qs[..m];
    }
  }

  lemma {:induction false} OnWireUpdate(ms: seq<map<nat, nat>>, t: nat, f: map<nat, nat>)
    requires t < |ms|
    ensures OnWire(ms[t := f]) + multiset(ms[t].Keys) == OnWire(ms) + multiset(f.Keys)
    decreases |ms|
  {
    var m := |ms| - 1;
    if t < m {
      OnWireUpdate(ms[..m], t, f);
      assert ms[t := f][..m] == ms[..m][t := f];
      AddBoth(OnWire(ms[..m][t := f]), OnWire(ms[..m]), multiset(ms[t].Keys), multiset(f.Keys), multiset(ms[m].Keys));
    } else {
      assert ms[t := f][..m] == ms[..m];
    }
  }

  lemma {:induction false} FlatHas(qs: seq<seq<nat>>, c: nat)
    requires c < |qs|
    ensures multiset(qs[c]) <= Flat(qs)
    decreases |qs|
  {
    if c < |qs| - 1 { FlatHas(qs[..|qs| - 1], c); }
  }

  lemma {:induction false} OnWireHas(ms: seq<map<nat, nat>>, t: nat)
    requires t < |ms|
    ensures multiset(ms[t].Keys) <= OnWire(ms)
    decreases |ms|
  {
    if t < |ms| - 1 { OnWireHas(ms[..|ms| - 1], t); }
  }

  function Held(queued: seq<seq<nat>>, local: seq<seq<nat>>, inflight: seq<map<nat, nat>>): multiset<nat> {
    Flat(queued) + Flat(local) + OnWire(inflight)
  }

  lemma HeldOnWire(queued: seq<seq<nat>>, local: seq<seq<nat>>, inflight: seq<map<nat, nat>>, t: nat, s: nat)
    requires t < |inflight| && s in inflight[t]
    ensures s in Held(queued, local, inflight)
  {
    OnWireHas(inflight, t);
  }

  ghost predicate Single(m: multiset<nat>) { forall s: nat :: m[s] <= 1 }

  /** Every accepted slice is held or marked, and only once. */
  ghost predicate Balanced(held: multiset<nat>, marked: multiset<nat>, accepted: multiset<nat>) {
    held + marked == accepted && Single(accepted)
  }

  lemma SingleSeq(q: seq<nat>)
    requires Single(multiset(q))
    ensures NoRepeats(q)
  {
    forall a, b | 0 <= a < b < |q|
      ensures q[a] != q[b]
    {
      assert q == q[..b] + q[b..];
      assert multiset(q) == multiset(q[..b]) + multiset(q[b..]);
      assert q[a] in q[..b] && q[b] in q[b..];
      assert multiset(q)[q[b]] == multiset(q[..b])[q[b]] + multiset(q[b..])[q[b]];
    }
  }

  /** No slice waits twice, and no waiting slice is on the wire. */
  lemma WaitingIsApart(queued: seq<seq<nat>>, local: seq<seq<nat>>, inflight: seq<map<nat, nat>>,
                       marked: multiset<nat>, accepted: multiset<nat>, c: nat, t: nat)
    requires Balanced(Held(queued, local, inflight), marked, accepted) && c < |local| && t < |inflight|
    ensures NoRepeats(local[c]) && forall s :: s in local[c] ==> s !in inflight[t]
  {
    FlatHas(local, c);
    OnWireHas(inflight, t);
    var l, f := multiset(local[c]), multiset(inflight[t].Keys);
    assert l + f <= accepted;
    forall s: nat
      ensures l[s] <= 1 && (s in local[c] ==> s !in inflight[t])
    {
      assert (l + f)[s] <= accepted[s] <= 1;
      assert s in inflight[t] ==> f[s] == 1;
      assert s in local[c] ==> l[s] >= 1;
    }
    SingleSeq(local[c]);
  }

  // ------------------------------------------------------------ how the load moves

  lemma Appended(queued: seq<seq<nat>>, local: seq<seq<nat>>, inflight: seq<map<nat, nat>>, c: nat, more: seq<nat>)
    requires c < |queued|
    ensures Held(queued[c := queued[c] + more], local, inflight) == Held(queued, local, inflight) + multiset(more)
  {
    FlatUpdate(queued, c, queued[c] + more);
    Cancel(Flat(queued[c := queued[c] + more]), Flat(queued), multiset(queued[c]), multiset(more));
  }

  lemma Cancel(after: multiset<nat>, before: multiset<nat>, q: multiset<nat>, more: multiset<nat>)
    requires after + q == before + (q + more)
    ensures after == before + more
  {
    assert before + (q + more) == (before + more) + q;
    Minus(after, q);
    Minus(before + more, q);
  }

  lemma Minus(a: multiset<nat>, b: multiset<nat>)
    ensures (a + b) - b == a
  {}

  /** Appending a worker's new slices to its own queue moves them. */
  lemma Handed(queued: seq<seq<nat>>, local: seq<seq<nat>>, inflight: seq<map<nat, nat>>, c: nat)
    requires c < |queued| == |local|
    ensures Held(queued[c := []], local[c := local[c] + queued[c]], inflight) == Held(queued, local, inflight)
  {
    FlatUpdate(queued, c, []);
    FlatUpdate(local, c, local[c] + queued[c]);
    Cancel(Flat(local[c := local[c] + queued[c]]), Flat(local), multiset(local[c]), multiset(queued[c]));
    assert Flat(queued[c := []]) + multiset(queued[c]) == Flat(queued);
  }

  function FlyOn(flights: map<nat, nat>, batch: seq<nat>, e: nat): map<nat, nat> {
    flights + map s | s in batch :: e
  }

  lemma {:induction false} FlyOnKeys(flights: map<nat, nat>, batch: seq<nat>, e: nat)
    requires NoRepeats(batch) && forall s :: s in batch ==> s !in flights
    ensures multiset(FlyOn(flights, batch, e).Keys) == multiset(flights.Keys) + multiset(batch)
    ensures |FlyOn(flights, batch, e)| == |flights| + |batch|
  {
    NoRepeatsSize(batch);
    assert FlyOn(flights, batch, e).Keys == flights.Keys + Elements(batch);
    OnceEach(batch);
    assert multiset(flights.Keys + Elements(batch)) == multiset(flights.Keys) + multiset(Elements(batch));
  }

  lemma {:induction false} OnceEach(q: seq<nat>)
    requires NoRepeats(q)
    ensures multiset(Elements(q)) == multiset(q)
    decreases |q|
  {
    if q != [] {
      var m := |q| - 1;
      OnceEach(q[..m]);
      assert q == q[..m] + [q[m]];
      assert Elements(q) == Elements(q[..m]) + {q[m]};
      assert q[m] !in Elements(q[..m]);
    }
  }

  /** A batch leaves the front of a queue: its accepted part flies, the rest of it has failed. */
  lemma Posted(queued: seq<seq<nat>>, local: seq<seq<nat>>, inflight: seq<map<nat, nat>>,
               c: nat, t: nat, take: nat, ok: nat, e: nat)
    requires c < |local| && t < |inflight| && ok <= take <= |local[c]|
    requires NoRepeats(local[c]) && forall s :: s in local[c] ==> s !in inflight[t]
    ensures var flown := inflight[t := FlyOn(inflight[t], local[c][..ok], e)];
      Held(queued, local[c := local[c][take..]], flown) + multiset(local[c][ok..take]) == Held(queued, local, inflight)
    ensures |FlyOn(inflight[t], local[c][..ok], e)| == |inflight[t]| + ok
  {
    var q := local[c];
    var flight := FlyOn(inflight[t], q[..ok], e);
    FlatUpdate(local, c, q[take..]);
    FlyOnKeys(inflight[t], q[..ok], e);
    OnWireUpdate(inflight, t, flight);
    ThreeParts(q, ok, take);
    hide Flat, OnWire, FlyOn, NoRepeats;
    PostedSums(Flat(queued), Flat(local), Flat(local[c := q[take..]]), OnWire(inflight), OnWire(inflight[t := flight]),
               multiset(q[..ok]), multiset(q[ok..take]), multiset(q[take..]), multiset(inflight[t].Keys));
  }

  lemma ThreeParts(q: seq<nat>, i: nat, j: nat)
    requires i <= j <= |q|
    ensures multiset(q) == multiset(q[..i]) + multiset(q[i..j]) + multiset(q[j..])
  {
    assert q == q[..i] + q[i..j] + q[j..];
  }

  lemma PostedSums(queued: multiset<nat>, local: multiset<nat>, local': multiset<nat>, wire: multiset<nat>,
                   wire': multiset<nat>, ok: multiset<nat>, bad: multiset<nat>, rest: multiset<nat>, keys: multiset<nat>)
    requires local' + (ok + bad + rest) == local + rest
    requires wire' + keys == wire + (keys + ok)
    ensures queued + local' + wire' + bad == queued + local + wire
  {
    Cancel(wire', wire, keys, ok);
    assert (local' + (ok + bad)) + rest == local + rest;
    Minus(local' + (ok + bad), rest);
    Minus(local, rest);
  }

  lemma Landed(queued: seq<seq<nat>>, local: seq<seq<nat>>, inflight: seq<map<nat, nat>>, t: nat, s: nat)
    requires t < |inflight| && s in inflight[t]
    ensures Held(queued, local, inflight[t := inflight[t] - {s}]) + multiset{s} == Held(queued, local, inflight)
    ensures |inflight[t] - {s}| == |inflight[t]| - 1
  {
    var f := inflight[t];
    OnWireUpdate(inflight, t, f - {s});
    assert (f - {s}).Keys == f.Keys - {s};
    assert multiset(f.Keys) == multiset((f - {s}).Keys) + multiset{s};
    LandedSums(Flat(queued) + Flat(local), OnWire(inflight), OnWire(inflight[t := f - {s}]),
               multiset((f - {s}).Keys), multiset{s});
  }

  lemma LandedSums(rest: multiset<nat>, wire: multiset<nat>, wire': multiset<nat>, keys: multiset<nat>, one: multiset<nat>)
    requires wire' + (keys + one) == wire + keys
    ensures rest + wire' + one == rest + wire
  {
    Cancel(wire, wire', keys, one);
  }

  lemma Dropped(queued: seq<seq<nat>>, local: seq<seq<nat>>, inflight: seq<map<nat, nat>>, c: nat)
    requires c < |queued| == |local|
    ensures Held(queued[c := []], local, inflight) + multiset(queued[c]) == Held(queued, local, inflight)
    ensures Held(queued, local[c := []], inflight) + multiset(local[c]) == Held(queued, local, inflight)
  {
    FlatUpdate(queued, c, []);
    FlatUpdate(local, c, []);
    assert Flat(queued[c := []]) + multiset(queued[c]) == Flat(queued);
    assert Flat(local[c := []]) + multiset(local[c]) == Flat(local);
  }

  /** Marking what is no longer held keeps the books balanced. */
  lemma Marked(held: multiset<nat>, held': multiset<nat>, marked: multiset<nat>, marked': multiset<nat>,
               some: multiset<nat>, accepted: multiset<nat>)
    requires Balanced(held, marked, accepted) && held' + some == held && marked' == marked + some
    ensures Balanced(held', marked', accepted)
  {
    assert held' + marked' == (held' + some) + marked;
  }
}
