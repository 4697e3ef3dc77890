// GET visibility: a GET that needs a flush is retired as a success only after a flush that was
// snapshotted at or after its own data completion has finished successfully.

module RmaGets {
  import opened Results
  import opened NetTransport
  import opened RmaPeer
  import opened RmaBoard
  import opened RmaFlow
  import Visibility

  ghost predicate HasGet(fs: seq<Flight>, k: nat, n: nat) {
    exists i :: 0 <= i < |fs| && IsGet(fs[i], k, n)
  }

  /** Every GET sequence in (lo, hi] of domain k is still in progress. */
  ghost predicate Held(fs: seq<Flight>, k: nat, lo: nat, hi: nat) {
    forall n :: lo < n <= hi ==> HasGet(fs, k, n)
  }

  ghost predicate DistinctGets(fs: seq<Flight>) {
    forall i, j :: 0 <= i < j < |fs| && fs[i].getSeq != 0 && fs[i].desc.key == fs[j].desc.key ==>
      fs[i].getSeq != fs[j].getSeq
  }

  ghost predicate DomainOk(fs: seq<Flight>, issued: int, k: nat, d: Visibility.Domain) {
    && Visibility.Ordered(d)
    && d.issued <= issued
    && Held(fs, k, d.visible, d.issued)
    && (d.target > d.visible ==> FlushRange(fs, k, d.visible, d.target))
  }

  /** What a tracked GET may rely on in its domain. */
  ghost predicate GetOk(f: Flight, d: Visibility.Domain, snap: set<nat>, flushed: set<nat>) {
    && f.getSeq <= d.issued
    && (f.getSeq <= d.dataDone ==> f.dataDone)
    && (f.getSeq <= d.visible && f.result == Success ==> f.desc.opSeq in flushed)
    && (d.visible < f.getSeq <= d.target ==> f.desc.opSeq in snap)
  }

  function SnapOf(p: Peer, k: nat): set<nat> { if k in p.snaps then p.snaps[k] else {} }

  ghost predicate FlightOk(p: Peer, f: Flight) {
    && (f.dataDone ==> f.getSeq != 0)
    && (f.getSeq == 0 && f.desc.needsFlush ==> f.result != Success)
    && (f.getSeq != 0 ==>
          f.desc.key in p.domains && GetOk(f, p.domains[f.desc.key], SnapOf(p, f.desc.key), p.flushed))
  }

  ghost predicate AllFlightsOk(p: Peer) {
    forall i :: 0 <= i < |p.flight| ==> FlightOk(p, p.flight[i])
  }

  ghost predicate AllDomainsOk(p: Peer) {
    forall k :: k in p.domains ==> DomainOk(p.flight, Issued(p), k, p.domains[k])
  }

  /** The safety statement: no flush-requiring GET succeeded without its flush. */
  ghost predicate SuccessFlushed(p: Peer) {
    forall s <- p.retired :: 1 <= s <= |p.accepted| &&
      (p.retired[s] == Success && p.accepted[s - 1].needsFlush ==> s in p.flushed)
  }

  ghost predicate InvGets(p: Peer) {
    AllDomainsOk(p) && AllFlightsOk(p) && DistinctGets(p.flight) && SuccessFlushed(p)
  }

  // ------------------------------------------------------- queue changes seen by a domain

  /** fs' serves domain k over (lo, hi] as well as fs does. */
  lemma HeldKept(fs: seq<Flight>, fs': seq<Flight>, k: nat, lo: nat, hi: nat)
    requires Held(fs, k, lo, hi)
    requires forall i :: 0 <= i < |fs| && fs[i].getSeq > lo && fs[i].desc.key == k ==>
      exists j :: 0 <= j < |fs'| && fs'[j].desc.key == k && fs'[j].getSeq == fs[i].getSeq
    ensures Held(fs', k, lo, hi)
  {
    forall n | lo < n <= hi ensures HasGet(fs', k, n) {
      assert HasGet(fs, k, n);
      var i :| 0 <= i < |fs| && IsGet(fs[i], k, n);
      var j :| 0 <= j < |fs'| && fs'[j].desc.key == k && fs'[j].getSeq == fs[i].getSeq;
      assert IsGet(fs'[j], k, n);
    }
  }

  lemma FlushRangeKept(fs: seq<Flight>, fs': seq<Flight>, k: nat, lo: nat, hi: nat)
    requires FlushRange(fs, k, lo, hi)
    requires forall i :: 0 <= i < |fs| && Covered(fs[i], k, lo, hi) && fs[i].result == Success ==> fs[i] in fs'
    ensures FlushRange(fs', k, lo, hi)
  {}

  // ------------------------------------------------------------------------ leaving

  lemma RemoveKeepsDomains(p: Peer, i: nat)
    requires i < |p.flight| && AllDomainsOk(p)
    requires var f := p.flight[i]; f.getSeq != 0 ==>
      f.desc.key in p.domains && f.getSeq <= p.domains[f.desc.key].visible
    ensures AllDomainsOk(p.(flight := Without(p.flight, i)))
  {
    var fs := Without(p.flight, i);
    forall j | 0 <= j < |p.flight| && j != i ensures p.flight[j] in fs {
      assert fs[if j < i then j else j - 1] == p.flight[j];
    }
    forall k | k in p.domains ensures DomainOk(fs, Issued(p), k, p.domains[k]) {
      var d := p.domains[k];
      assert DomainOk(p.flight, Issued(p), k, d);
      HeldKept(p.flight, fs, k, d.visible, d.issued);
      if d.target > d.visible { FlushRangeKept(p.flight, fs, k, d.visible, d.target); }
    }
  }

  lemma RemoveKeepsGets(p: Peer, i: nat, result: Status)
    requires i < |p.flight| && InvGets(p)
    requires var f := p.flight[i];
      && 1 <= f.desc.opSeq <= |p.accepted| && f.desc == p.accepted[f.desc.opSeq - 1]
      && (f.getSeq != 0 ==> f.desc.key in p.domains && f.getSeq <= p.domains[f.desc.key].visible)
      && (result == Success && f.desc.needsFlush ==> f.desc.opSeq in p.flushed)
    ensures InvGets(Retire(p.(flight := Without(p.flight, i)), p.flight[i].desc, result).0)
  {
    hide TrackCompletion;
    RemoveKeepsDomains(p, i);
    var p1 := p.(flight := Without(p.flight, i));
    var q := Retire(p1, p.flight[i].desc, result).0;
    assert forall j :: 0 <= j < |q.flight| ==> q.flight[j] == p.flight[if j < i then j else j + 1];
    forall k | k in q.domains ensures DomainOk(q.flight, Issued(q), k, q.domains[k]) {
      assert DomainOk(p1.flight, Issued(p1), k, p1.domains[k]);
    }
    forall j | 0 <= j < |q.flight| ensures FlightOk(q, q.flight[j]) {
      assert FlightOk(p, q.flight[j]);
    }
  }

  // ------------------------------------------------------------------------ polling

  lemma MarkDataDone(p: Peer, i: nat, result: Status)
    requires i < |p.flight| && InvGets(p)
    requires !p.flight[i].dataDone && p.flight[i].getSeq != 0
    ensures InvGets(p.(flight := p.flight[i := p.flight[i].(request := false, result := result, dataDone := true)]))
  {
    var f := p.flight[i];
    var fs := p.flight[i := f.(request := false, result := result, dataDone := true)];
    var q := p.(flight := fs);
    assert FlightOk(p, f);
    forall j | 0 <= j < |fs| ensures FlightOk(q, fs[j]) { assert FlightOk(p, p.flight[j]); }
    forall k | k in q.domains ensures DomainOk(fs, Issued(q), k, q.domains[k]) {
      var d := p.domains[k];
      assert DomainOk(p.flight, Issued(p), k, d);
      assert forall j :: 0 <= j < |fs| ==> fs[j].desc.key == p.flight[j].desc.key && fs[j].getSeq == p.flight[j].getSeq;
      HeldKept(p.flight, fs, k, d.visible, d.issued);
      if d.target > d.visible {
        forall j | 0 <= j < |p.flight| && Covered(p.flight[j], k, d.visible, d.target) && p.flight[j].result == Success
          ensures p.flight[j] in fs
        {
          assert j != i;
          assert fs[j] == p.flight[j];
        }
        FlushRangeKept(p.flight, fs, k, d.visible, d.target);
      }
    }
  }

  // ------------------------------------------------------------------- data watermark

  lemma FindIsUnique(fs: seq<Flight>, k: nat, n: nat, i: nat)
    requires DistinctGets(fs) && i < |fs| && IsGet(fs[i], k, n)
    ensures FindGet(fs, k, n) == Some(fs[i])
  {
    var g := FindGet(fs, k, n).value;
    var j :| 0 <= j < |fs| && fs[j] == g;
    assert i == j;
  }

  /** The data watermark never passes a GET that is not data complete. */
  lemma {:induction false} PrefixIsDone(fs: seq<Flight>, k: nat, from: nat, issued: nat, i: nat)
    requires DistinctGets(fs) && from <= issued && i < |fs|
    requires fs[i].desc.key == k && from < fs[i].getSeq <= DataPrefix(fs, k, from, issued)
    ensures fs[i].dataDone
    decreases issued - from
  {
    var g := FindGet(fs, k, from + 1);
    if fs[i].getSeq == from + 1 {
      FindIsUnique(fs, k, from + 1, i);
    } else {
      PrefixIsDone(fs, k, from + 1, issued, i);
    }
  }

  lemma AdvanceDataKeepsGets(p: Peer, k: nat)
    requires InvGets(p) && k in p.domains
    ensures InvGets(AdvanceData(p, k).0) && !AdvanceData(p, k).1
  {
    hide DataPrefix;
    var d := p.domains[k];
    assert DomainOk(p.flight, Issued(p), k, d);
    var q := AdvanceData(p, k).0;
    forall i | 0 <= i < |q.flight| ensures FlightOk(q, q.flight[i]) {
      var f := q.flight[i];
      assert FlightOk(p, f);
      if f.getSeq != 0 && f.desc.key == k && d.dataDone < f.getSeq <= q.domains[k].dataDone {
        PrefixIsDone(p.flight, k, d.dataDone, d.issued, i);
      }
    }
    forall j | j in q.domains ensures DomainOk(q.flight, Issued(q), j, q.domains[j]) {
      assert DomainOk(p.flight, Issued(p), j, p.domains[j]);
    }
  }

  // -------------------------------------------------------------------------- flushing

  /** A finished flush moves the visible watermark to its snapshot and no further: covered
      successes take its error or count as flushed, everything else is untouched. */
  lemma FinishFlushExact(p: Peer, k: nat, result: Status)
    requires AllDomainsOk(p) && k in p.domains && p.domains[k].visible < p.domains[k].target
    ensures var d := p.domains[k];
      var (q, raise) := FinishFlush(p, k, result);
      && raise == (result != Success)
      && q.domains == p.domains[k := d.(flushing := false, visible := d.target)]
      && |q.flight| == |p.flight|
      && (forall i :: 0 <= i < |p.flight| ==>
            q.flight[i] == (if result != Success && Covered(p.flight[i], k, d.visible, d.target)
                               && p.flight[i].result == Success
                            then p.flight[i].(result := result) else p.flight[i]))
      && q.flushed == (if result == Success then p.flushed + SnapOf(p, k) else p.flushed)
      && q == p.(domains := q.domains, flight := q.flight, flushed := q.flushed)
  {
    assert DomainOk(p.flight, Issued(p), k, p.domains[k]);
  }

  lemma FinishFlushKeepsDomains(p: Peer, k: nat, result: Status)
    requires AllDomainsOk(p) && k in p.domains && p.domains[k].visible < p.domains[k].target
    ensures AllDomainsOk(FinishFlush(p, k, result).0)
  {
    FinishFlushExact(p, k, result);
    hide FinishFlush;
    var q := FinishFlush(p, k, result).0;
    forall j | j in q.domains ensures DomainOk(q.flight, Issued(q), j, q.domains[j]) {
      var d := p.domains[j];
      assert DomainOk(p.flight, Issued(p), j, d);
      HeldKept(p.flight, q.flight, j, d.visible, d.issued);
      if j != k && d.target > d.visible {
        forall i | 0 <= i < |p.flight| && Covered(p.flight[i], j, d.visible, d.target) ensures p.flight[i] in q.flight {
          assert q.flight[i] == p.flight[i];
        }
        FlushRangeKept(p.flight, q.flight, j, d.visible, d.target);
      }
    }
  }

  lemma FinishFlushFlight(p: Peer, k: nat, result: Status, i: nat)
    requires AllDomainsOk(p) && k in p.domains && p.domains[k].visible < p.domains[k].target
    requires i < |p.flight| && FlightOk(p, p.flight[i])
    ensures var q := FinishFlush(p, k, result).0;
      && |q.flight| == |p.flight| && FlightOk(q, q.flight[i])
      && q.flight[i].getSeq == p.flight[i].getSeq && q.flight[i].desc == p.flight[i].desc
  {
    FinishFlushExact(p, k, result);
    assert DomainOk(p.flight, Issued(p), k, p.domains[k]);
    hide FinishFlush, AllDomainsOk, Held, FlushRange;
  }

  lemma FinishFlushKeepsGets(p: Peer, k: nat, result: Status)
    requires InvGets(p) && k in p.domains && p.domains[k].visible < p.domains[k].target
    ensures InvGets(FinishFlush(p, k, result).0)
  {
    FinishFlushKeepsDomains(p, k, result);
    var q := FinishFlush(p, k, result).0;
    assert q.accepted == p.accepted && q.retired == p.retired && p.flushed <= q.flushed;
    hide FinishFlush, AllDomainsOk, FlightOk;
    forall i | 0 <= i < |p.flight|
      ensures |q.flight| == |p.flight| && FlightOk(q, q.flight[i])
      ensures q.flight[i].getSeq == p.flight[i].getSeq && q.flight[i].desc == p.flight[i].desc
    {
      FinishFlushFlight(p, k, result, i);
    }
    FinishFlushExact(p, k, result);
  }

  /** Taking the snapshot: the target is the data watermark, and the snapshot is every GET of
      the domain that is already data complete and not yet visible. */
  lemma BeginKeepsGets(p: Peer, k: nat)
    requires InvGets(p) && k in p.domains
    requires var d := p.domains[k];
      !d.flushing && d.target == d.visible && d.dataDone > d.visible && FlushRange(p.flight, k, d.visible, d.dataDone)
    ensures var d := p.domains[k];
      && Visibility.BeginFlush(d) == (d.(target := d.dataDone), Success)
      && InvGets(p.(domains := p.domains[k := d.(target := d.dataDone)],
                    snaps := p.snaps[k := Snapshot(p.flight, k, d.visible, d.dataDone)]))
  {
    var d := p.domains[k];
    var q := p.(domains := p.domains[k := d.(target := d.dataDone)],
                snaps := p.snaps[k := Snapshot(p.flight, k, d.visible, d.dataDone)]);
    forall j | j in q.domains ensures DomainOk(q.flight, Issued(q), j, q.domains[j]) {
      assert DomainOk(p.flight, Issued(p), j, p.domains[j]);
    }
    forall i | 0 <= i < |q.flight| ensures FlightOk(q, q.flight[i]) {
      var f := p.flight[i];
      assert FlightOk(p, f);
      if f.getSeq != 0 && f.desc.key == k && d.visible < f.getSeq <= d.dataDone {
        assert Covered(f, k, d.visible, d.dataDone) && f.dataDone;
      }
    }
  }

  /** Without a success to make visible the watermark moves past failures only. */
  lemma SkipKeepsGets(p: Peer, k: nat)
    requires InvGets(p) && k in p.domains
    requires var d := p.domains[k];
      !d.flushing && d.target == d.visible && !FlushRange(p.flight, k, d.visible, d.dataDone)
    ensures var (d', st) := Visibility.AdvanceVisible(p.domains[k], p.domains[k].dataDone);
      st == Success && InvGets(p.(domains := p.domains[k := d']))
  {
    var d := p.domains[k];
    assert DomainOk(p.flight, Issued(p), k, d);
    var q := p.(domains := p.domains[k := Visibility.AdvanceVisible(d, d.dataDone).0]);
    forall j | j in q.domains ensures DomainOk(q.flight, Issued(q), j, q.domains[j]) {
      assert DomainOk(p.flight, Issued(p), j, p.domains[j]);
    }
    forall i | 0 <= i < |q.flight| ensures FlightOk(q, q.flight[i]) {
      var f := p.flight[i];
      assert FlightOk(p, f);
      if f.getSeq != 0 && f.desc.key == k && d.visible < f.getSeq <= d.dataDone {
        assert Covered(f, k, d.visible, d.dataDone);
      }
    }
  }

  lemma ArmedKeepsGets(p: Peer, k: nat)
    requires InvGets(p) && k in p.domains && p.domains[k].target > p.domains[k].visible
    ensures InvGets(p.(domains := p.domains[k := p.domains[k].(flushing := true)]))
  {
    var q := p.(domains := p.domains[k := p.domains[k].(flushing := true)]);
    forall j | j in q.domains ensures DomainOk(q.flight, Issued(q), j, q.domains[j]) {
      assert DomainOk(p.flight, Issued(p), j, p.domains[j]);
    }
    forall i | 0 <= i < |q.flight| ensures FlightOk(q, q.flight[i]) {
      assert FlightOk(p, p.flight[i]);
    }
  }

  /** Starting or retrying a flush keeps the invariant; it raises only the adaptor's error. */
  lemma StartFlushKeepsGets(p: Peer, k: nat, posted: Status, request: bool)
    requires InvGets(p) && k in p.domains
    ensures var (q, raise) := StartFlush(p, k, posted, request);
      InvGets(q) && (raise ==> posted != Success)
  {
    var d := p.domains[k];
    assert DomainOk(p.flight, Issued(p), k, d);
    if d.flushing || d.dataDone <= d.visible {
    } else {
      hide AllDomainsOk, AllFlightsOk, DistinctGets, SuccessFlushed, FlushRange, DomainOk, FinishFlush, Snapshot;
      var retry := d.target > d.visible;
      if !retry && !FlushRange(p.flight, k, d.visible, d.dataDone) {
        SkipKeepsGets(p, k);
      } else {
        var p1 := p;
        if !retry {
          BeginKeepsGets(p, k);
          p1 := p.(domains := p.domains[k := d.(target := d.dataDone)],
                   snaps := p.snaps[k := Snapshot(p.flight, k, d.visible, d.dataDone)]);
        } else {
          assert p == p.(domains := p.domains[k := d], snaps := p.snaps);
        }
        if posted == InProgress {
        } else if posted == Success && request {
          ArmedKeepsGets(p1, k);
        } else {
          FinishFlushKeepsGets(p1, k, posted);
          FinishFlushExact(p1, k, posted);
        }
      }
    }
  }

  // --------------------------------------------------------------- pruning and allocation

  ghost predicate AllReferenced(p: Peer) { forall k :: k in p.domains ==> Referenced(p, k) }

  /** After pruning, every domain left is referenced by a GET in progress. */
  lemma PruneKeepsGets(p: Peer)
    requires InvGets(p)
    ensures InvGets(Prune(p)) && AllReferenced(Prune(p))
  {
    var q := Prune(p);
    forall k | k in q.domains
      ensures DomainOk(q.flight, Issued(q), k, q.domains[k]) && Referenced(q, k)
    {
      var d := p.domains[k];
      assert DomainOk(p.flight, Issued(p), k, d);
      if d.visible < d.issued {
        assert HasGet(p.flight, k, d.issued);
        var i :| 0 <= i < |p.flight| && IsGet(p.flight[i], k, d.issued);
        assert Referenced(p, k);
      }
      assert Referenced(q, k) by {
        var i :| 0 <= i < |p.flight| && p.flight[i].getSeq != 0 && p.flight[i].desc.key == k;
        assert q.flight[i] == p.flight[i];
      }
    }
    forall i | 0 <= i < |q.flight| ensures FlightOk(q, q.flight[i]) {
      var f := p.flight[i];
      assert FlightOk(p, f);
      if f.getSeq != 0 { assert Referenced(p, f.desc.key); }
    }
  }

  lemma {:induction false} KeysFit(fs: seq<Flight>, keys: set<nat>)
    requires forall k <- keys :: exists i :: 0 <= i < |fs| && fs[i].desc.key == k
    ensures |keys| <= |fs|
    decreases |fs|
  {
    if fs == [] {
      assert keys == {};
    } else {
      var n := |fs| - 1;
      var rest := keys - {fs[n].desc.key};
      forall k | k in rest ensures exists i :: 0 <= i < n && fs[..n][i].desc.key == k {
        var i :| 0 <= i < |fs| && fs[i].desc.key == k;
        assert fs[..n][i].desc.key == k;
      }
      KeysFit(fs[..n], rest);
      assert |keys| <= |rest| + 1 by {
        if fs[n].desc.key in keys { assert keys == rest + {fs[n].desc.key}; } else { assert keys == rest; }
      }
    }
  }

  /** Tracking a GET cannot fail while every domain is referenced: the table has room and no
      domain runs out of sequence numbers. */
  lemma TrackGetSucceeds(p: Peer, d: Desc)
    requires AllDomainsOk(p) && AllReferenced(p) && InvAccepted(p)
    requires |p.flight| < p.queueSize && p.ring != []
    ensures TrackGet(p, d).2 == Success
  {
    assert d.key in p.domains ==> DomainOk(p.flight, Issued(p), d.key, p.domains[d.key]);
    assert d.key in p.domains ==> p.domains[d.key].issued <= Issued(p);
    hide DomainOk;
    forall k | k in p.domains.Keys ensures exists i :: 0 <= i < |p.flight| && p.flight[i].desc.key == k {
      assert Referenced(p, k);
    }
    KeysFit(p.flight, p.domains.Keys);
    assert |p.domains| == |p.domains.Keys|;
  }

  // --------------------------------------------------------------------------- posting

  lemma LaunchGetFlight(p: Peer, f: Flight)
    requires FlightOk(p, f) && p.ring != [] && TrackGet(p, p.ring[0]).2 == Success && p.ring[0].needsFlush
    ensures FlightOk(p.(domains := TrackGet(p, p.ring[0]).0), f)
    ensures !IsGet(f, p.ring[0].key, TrackGet(p, p.ring[0]).1)
  {}

  lemma LaunchGetIsOk(p: Peer, request: bool)
    requires AllDomainsOk(p) && p.ring != [] && TrackGet(p, p.ring[0]).2 == Success && p.ring[0].needsFlush
    ensures var (doms, n, st) := TrackGet(p, p.ring[0]);
      FlightOk(p.(domains := doms), Flight(p.ring[0], request, Success, false, n))
  {
    var d := p.ring[0];
    assert d.key in p.domains ==> DomainOk(p.flight, Issued(p), d.key, p.domains[d.key]);
    hide Held, FlushRange, AllDomainsOk;
  }

  /** A posted GET takes the next sequence of its domain. */
  lemma LaunchGetKeepsGets(p: Peer, request: bool)
    requires InvGets(p) && p.ring != [] && |p.ring| <= p.opSeq && p.ring[0].needsFlush
    requires TrackGet(p, p.ring[0]).2 == Success
    ensures var (doms, n, st) := TrackGet(p, p.ring[0]);
      InvGets(Launch(p, Flight(p.ring[0], request, Success, false, n)).(domains := doms))
  {
    LaunchGetKeepsDomains(p, request);
    LaunchGetIsOk(p, request);
    var d := p.ring[0];
    var (doms, n, st) := TrackGet(p, d);
    hide TrackGet, AllDomainsOk;
    var f := Flight(d, request, Success, false, n);
    var q := Launch(p, f).(domains := doms);
    assert q.flight[|p.flight|] == f;
    assert forall i :: 0 <= i < |p.flight| ==> q.flight[i] == p.flight[i];
    forall i | 0 <= i < |p.flight| ensures FlightOk(q, q.flight[i]) && !IsGet(p.flight[i], d.key, n) {
      LaunchGetFlight(p, p.flight[i]);
    }
    hide FlightOk;
  }

  lemma LaunchGetKeepsDomains(p: Peer, request: bool)
    requires AllDomainsOk(p) && p.ring != [] && |p.ring| <= p.opSeq && p.ring[0].needsFlush
    requires TrackGet(p, p.ring[0]).2 == Success
    ensures var (doms, n, st) := TrackGet(p, p.ring[0]);
      AllDomainsOk(Launch(p, Flight(p.ring[0], request, Success, false, n)).(domains := doms))
  {
    var d := p.ring[0];
    var (doms, n, st) := TrackGet(p, d);
    var f := Flight(d, request, Success, false, n);
    var q := Launch(p, f).(domains := doms);
    forall i | 0 <= i < |p.flight| ensures p.flight[i] in q.flight { assert q.flight[i] == p.flight[i]; }
    forall k | k in q.domains ensures DomainOk(q.flight, Issued(q), k, q.domains[k]) {
      var old' := if k in p.domains then p.domains[k] else Visibility.NewDomain;
      assert k in p.domains ==> DomainOk(p.flight, Issued(p), k, p.domains[k]);
      assert Held(p.flight, k, old'.visible, old'.issued);
      HeldKept(p.flight, q.flight, k, old'.visible, old'.issued);
      if old'.target > old'.visible { FlushRangeKept(p.flight, q.flight, k, old'.visible, old'.target); }
      if k == d.key { assert IsGet(q.flight[|p.flight|], k, n); }
    }
  }

  /** Anything else that leaves the ring for the queue carries no GET sequence. */
  lemma LaunchPlainKeepsGets(p: Peer, fs: seq<Flight>)
    requires InvGets(p) && |fs| <= |p.ring| <= p.opSeq
    requires forall i :: 0 <= i < |fs| ==>
      fs[i].getSeq == 0 && !fs[i].dataDone && (fs[i].desc.needsFlush ==> fs[i].result != Success)
    ensures InvGets(LaunchAll(p, fs))
  {
    var q := LaunchAll(p, fs);
    forall i | 0 <= i < |p.flight| ensures p.flight[i] in q.flight { assert q.flight[i] == p.flight[i]; }
    assert forall i :: |p.flight| <= i < |q.flight| ==> q.flight[i] == fs[i - |p.flight|];
    forall i | 0 <= i < |q.flight| ensures FlightOk(q, q.flight[i]) {
      if i < |p.flight| { assert FlightOk(p, p.flight[i]); }
    }
    forall k | k in q.domains ensures DomainOk(q.flight, Issued(q), k, q.domains[k]) {
      var d := p.domains[k];
      assert DomainOk(p.flight, Issued(p), k, d);
      HeldKept(p.flight, q.flight, k, d.visible, d.issued);
      if d.target > d.visible { FlushRangeKept(p.flight, q.flight, k, d.visible, d.target); }
    }
  }

  /** A descriptor retired straight from the ring never was in a domain. */
  lemma RetireRingKeepsGets(p: Peer, result: Status)
    requires InvGets(p) && p.ring != [] && |p.ring| <= p.opSeq
    requires 1 <= p.ring[0].opSeq <= |p.accepted| && p.ring[0] == p.accepted[p.ring[0].opSeq - 1]
    requires result == Success ==> !p.ring[0].needsFlush
    ensures InvGets(Retire(p.(ring := p.ring[1..]), p.ring[0], result).0)
  {
    hide TrackCompletion;
    var q := Retire(p.(ring := p.ring[1..]), p.ring[0], result).0;
    forall k | k in q.domains ensures DomainOk(q.flight, Issued(q), k, q.domains[k]) {
      assert DomainOk(p.flight, Issued(p), k, p.domains[k]);
    }
    forall i | 0 <= i < |q.flight| ensures FlightOk(q, q.flight[i]) { assert FlightOk(p, p.flight[i]); }
  }

  lemma AcceptKeepsGets(p: Peer, run: seq<Desc>, b: Board)
    requires InvGets(p) && |p.ring| <= p.opSeq && |p.accepted| == p.opSeq
    ensures InvGets(Accept(p, run, b))
  {
    var q := Accept(p, run, b);
    forall k | k in q.domains ensures DomainOk(q.flight, Issued(q), k, q.domains[k]) {
      assert DomainOk(p.flight, Issued(p), k, p.domains[k]);
    }
    forall i | 0 <= i < |q.flight| ensures FlightOk(q, q.flight[i]) { assert FlightOk(p, p.flight[i]); }
    assert forall k :: 0 <= k < p.opSeq ==> q.accepted[k] == p.accepted[k];
  }

  // ----------------------------------------------------------------- who a flush can cover

  /** A GET whose data completes after the snapshot is not covered by that flush: whatever the
      flush returns, its record does not change and it does not count as flushed. */
  lemma LateGetNotCovered(p: Peer, k: nat, result: Status, i: nat)
    requires InvGets(p) && k in p.domains && i < |p.flight|
    requires p.domains[k].visible < p.domains[k].target
    requires p.flight[i].desc.key == k && !p.flight[i].dataDone
    ensures FinishFlush(p, k, result).0.flight[i] == p.flight[i]
    ensures p.flight[i].getSeq != 0 ==>
      p.flight[i].getSeq > FinishFlush(p, k, result).0.domains[k].visible
  {
    FinishFlushExact(p, k, result);
    assert FlightOk(p, p.flight[i]);
  }
}
