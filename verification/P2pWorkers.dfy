// The workers that post the slices of P2P transfers (flagcx/core/flagcx_p2p.cc, FlagcxWorkerPool).
// Connections are numbered and never reused; each belongs to one worker, so the tables of all workers
// are kept as one table by connection. A method is one turn of a thread.

module P2pWorkers {
  import opened Results
  import opened P2pLoad
  import opened P2pBooks
  import opened P2pScheduler

  datatype SubmitResult = Enqueued | Refused | Spinning

  class WorkerPool {
    const nWorkers: nat
    const owners: seq<int>
    const sharedCqDepth: nat
    const maxWrPerPost: nat
    const maxPending: nat

    var maxWrDepth: nat
    var qps: seq<Qp>
    var wrDepth: seq<nat>
    var ownQps: seq<seq<nat>>
    var cursor: seq<nat>
    var queued: seq<seq<nat>>
    var local: seq<seq<nat>>
    var inflight: seq<map<nat, nat>>
    var aborting: seq<set<nat>>
    var failed: seq<bool>
    var submitted: nat
    var processed: nat
    var succeeded: multiset<nat>
    var failedMarks: multiset<nat>
    ghost var accepted: multiset<nat>

    ghost predicate Shape()
      reads this
    {
      && |ownQps| == |cursor| == |inflight| == |aborting| == |failed| == nWorkers
      && |queued| == |local| == |owners|
      && |wrDepth| == |qps|
      && (forall c :: 0 <= c < |owners| ==> -1 <= owners[c] < nWorkers)
      && QpsOk(qps, owners)
      && 1 <= maxWrPerPost
    }

    ghost predicate Places()
      requires Shape()
      reads this
    {
      && (forall t :: 0 <= t < nWorkers ==> OwnOk(ownQps[t], t, qps, owners))
      && (forall t :: 0 <= t < nWorkers ==> FlightsOk(inflight[t], t, qps, owners, aborting[t]))
      && (forall t :: 0 <= t < nWorkers ==> AbortOk(aborting[t], t, owners, failed[t]))
      && NoOwnerNoSlices(owners, queued, local)
    }

    /** The books, with some retired slices not yet added to processed and some credits not given back. */
    ghost predicate Inv(unreported: nat, pend: map<nat, nat>)
      reads this
    {
      && Shape()
      && Places()
      && Balanced(Held(queued, local, inflight), succeeded + failedMarks, accepted)
      && submitted == |accepted|
      && processed + unreported == |succeeded| + |failedMarks|
      && WithinCq(inflight, sharedCqDepth)
      && CreditsOk(wrDepth, qps, owners, inflight, pend)
    }

    ghost predicate Valid()
      reads this
    {
      Inv(0, map[])
    }

    constructor (addresses: seq<bv64>, workers: nat, cqDepth: nat, perPost: nat, pending: nat)
      requires workers <= 0x7fff_ffff && 1 <= perPost
      ensures Valid()
      ensures |owners| == |addresses|
      ensures forall c :: 0 <= c < |owners| ==> owners[c] == WorkerForAddress(addresses[c], workers)
    {
      nWorkers := workers;
      owners := seq(|addresses|, c requires 0 <= c < |addresses| => WorkerForAddress(addresses[c], workers));
      sharedCqDepth, maxWrPerPost, maxPending := cqDepth, perPost, pending;
      maxWrDepth := 0;
      qps, wrDepth := [], [];
      ownQps := seq(workers, t => []);
      cursor := seq(workers, t => 0);
      queued := seq(|addresses|, c => []);
      local := seq(|addresses|, c => []);
      inflight := seq(workers, t => map[]);
      aborting := seq(workers, t => {});
      failed := seq(workers, t => false);
      submitted, processed := 0, 0;
      succeeded, failedMarks, accepted := multiset{}, multiset{}, multiset{};
      new;
      NothingHeld(queued, inflight);
      NothingHeld(local, inflight);
    }

    /** submitPostSend, one turn of its waiting loop: a refused call enqueues nothing. */
    method Submit(conn: Option<nat>, slices: seq<nat>) returns (r: SubmitResult)
      requires Valid()
      requires conn.Some? ==> conn.value < |owners|
      requires NoRepeats(slices) && forall s :: s in slices ==> s !in accepted
      modifies `queued, `submitted, `accepted
      ensures Valid()
      ensures r.Refused? <==> slices != [] && (conn.None? || owners[conn.value] < 0 || failed[owners[conn.value]])
      ensures r.Spinning? <==> slices != [] && !r.Refused? && old(submitted) - processed > maxPending
      ensures r.Enqueued? && slices != [] ==>
        && queued == old(queued)[conn.value := old(queued)[conn.value] + slices]
        && submitted == old(submitted) + |slices|
        && accepted == old(accepted) + multiset(slices)
      ensures !r.Enqueued? || slices == [] ==> unchanged(this)
    {
      hide Held, Balanced, OwnOk, FlightsOk, CreditsOk, WithinCq, QpsOk, NoRepeats;
      if slices == [] {
        return Enqueued;
      }
      if conn.None? || owners[conn.value] < 0 || failed[owners[conn.value]] {
        return Refused;
      }
      if submitted - processed > maxPending {
        return Spinning;
      }
      var c := conn.value;
      Appended(queued, local, inflight, c, slices);
      AcceptMore(Held(queued, local, inflight), succeeded + failedMarks, accepted, slices);
      queued := queued[c := queued[c] + slices];
      submitted := submitted + |slices|;
      accepted := accepted + multiset(slices);
      return Enqueued;
    }

    /** registerQp: the entry joins the list of its connection's owner; the first known depth is kept. */
    method RegisterQp(c: nat, maxSendWr: Option<nat>)
      requires Valid() && c < |owners|
      modifies `maxWrDepth, `qps, `wrDepth, `ownQps
      ensures Valid()
      ensures nWorkers > 0 ==>
        && qps == old(qps) + [Qp(c, true, true)]
        && wrDepth == old(wrDepth) + [0]
        && (maxWrDepth == if old(maxWrDepth) == 0 && maxSendWr.Some? then maxSendWr.value else old(maxWrDepth))
      ensures nWorkers == 0 ==> unchanged(this)
    {
      hide Balanced, Held, CreditsOk, OwnOk, FlightsOk, WithinCq, QpsOk, NoOwnerNoSlices;
      if nWorkers == 0 {
        return;
      }
      if maxWrDepth == 0 && maxSendWr.Some? {
        maxWrDepth := maxSendWr.value;
      }
      var e := |qps|;
      NewEntry(qps, Qp(c, true, true), wrDepth, owners, inflight, aborting, ownQps);
      qps := qps + [Qp(c, true, true)];
      wrDepth := wrDepth + [0];
      if owners[c] >= 0 {
        ownQps := ownQps[owners[c] := ownQps[owners[c]] + [e]];
      }
    }

    /** One queue pair is unregistered, and then destroyed if the device lets it be. */
    method DestroyQp(c: nat, e: nat, ghost before: seq<Qp>) returns (gone: bool)
      requires Valid() && e < |qps| && qps[e].comm == c < |owners| && qps[e].alive && Destroyed(before, qps, c, e)
      requires owners[c] >= 0 ==> owners[c] < |aborting| == |inflight|
      requires owners[c] >= 0 ==> c in aborting[owners[c]] || NoFlightsOf(inflight[owners[c]], qps, c)
      modifies `qps, `ownQps
      ensures Valid() && |qps| == |old(qps)| && Destroyed(before, qps, c, if gone then e + 1 else 0)
      ensures owners[c] >= 0 ==> c in aborting[owners[c]] || NoFlightsOf(inflight[owners[c]], qps, c)
    {
      hide Balanced, Held, CreditsOk, OwnOk, FlightsOk, AbortOk, WithinCq, NoOwnerNoSlices, NoFlightsOf, QpsOk, Destroyed;
      gone := *;
      DestroyNext(before, qps, c, e, gone);
      Retired(qps, e, gone, wrDepth, owners, inflight, aborting, ownQps);
      if qps[e].registered && owners[c] >= 0 {
        ownQps := ownQps[owners[c] := Erase(ownQps[owners[c]], e)];
      }
      qps := qps[e := Qp(c, false, !gone)];
    }

    /** flagcxP2pDestroyQps: every queue pair of a connection is unregistered and then destroyed; the first
        one that cannot be destroyed ends the call. A connection is closed only when it is drained, and
        aborted only by its failed worker. */
    method DestroyQps(c: nat) returns (ok: bool)
      requires Valid() && c < |owners|
      requires owners[c] >= 0 ==> c in aborting[owners[c]] || NoFlightsOf(inflight[owners[c]], qps, c)
      modifies `qps, `ownQps
      ensures Valid()
      ensures Destroyed(old(qps), qps, c, if ok then |qps| else 0)
    {
      hide Inv, Valid, NoFlightsOf, Destroyed;
      OwnerFacts(c);
      NothingDestroyed(qps, c);
      var e := 0;
      while e < |qps|
        invariant Valid() && e <= |qps| && Destroyed(old(qps), qps, c, e)
        invariant owners[c] >= 0 ==> c in aborting[owners[c]] || NoFlightsOf(inflight[owners[c]], qps, c)
      {
        if qps[e].comm == c && qps[e].alive {
          var gone := DestroyQp(c, e, old(qps));
          if !gone {
            return false;
          }
        } else {
          SkipEntry(old(qps), qps, c, e);
        }
        e := e + 1;
      }
      ok := true;
    }

    /** A connection whose transfers are done by their counters may be closed: nothing of it flies. `list`
        holds the slices of its transfers. */
    lemma DrainedMayClose(c: nat, list: seq<nat>)
      requires Valid() && c < |owners| && 0 <= owners[c] < |inflight|
      requires forall s :: s in list ==> s in accepted
      requires forall s :: s in inflight[owners[c]] && inflight[owners[c]][s] < |qps| ==>
        (qps[inflight[owners[c]][s]].comm == c ==> s in list)
      requires MarksOf(list, succeeded) + MarksOf(list, failedMarks) == |list|
      ensures NoFlightsOf(inflight[owners[c]], qps, c)
    {
      DoneWhenMarked(list);
      var t := owners[c];
      forall s | s in inflight[t] && inflight[t][s] < |qps| ensures qps[inflight[t][s]].comm != c {
        if qps[inflight[t][s]].comm == c {
          HeldOnWire(queued, local, inflight, t, s);
        }
      }
    }

    lemma OwnerFacts(c: nat)
      requires Valid() && c < |owners|
      ensures owners[c] >= 0 ==> owners[c] < |aborting| == |inflight|
    {}

    /** Marks the slices of a queue failed, in order. */
    method MarkAllFailed(q: seq<nat>)
      modifies `failedMarks
      ensures failedMarks == old(failedMarks) + multiset(q)
    {
      for i := 0 to |q|
        invariant failedMarks == old(failedMarks) + multiset(q[..i])
      {
        assert q[..i + 1] == q[..i] + [q[i]];
        failedMarks := failedMarks + multiset{q[i]};
      }
      assert q[..|q|] == q;
    }

    /** The snapshot of failWorkerSlices: the connections whose registered queue pairs carry slices of
        worker t. It is taken only when none is left from an earlier pass. */
    method TrackComms(t: nat)
      requires Valid() && t < nWorkers && failed[t]
      modifies `aborting
      ensures Valid()
      ensures aborting == old(aborting)[t := aborting[t]]
      ensures old(aborting[t]) != {} ==> aborting == old(aborting)
      ensures aborting[t] == {} <==> old(aborting[t]) == {} && inflight[t] == map[]
    {
      hide Balanced, Held, CreditsOk, OwnOk, WithinCq, NoOwnerNoSlices, QpsOk, FlightsOk;
      if aborting[t] == {} && inflight[t] != map[] {
        var found := FlyingComms(t);
        KnownFlights(inflight[t], t, qps, owners, found);
        aborting := aborting[t := found];
      }
    }

    /** The connections of the slices of worker t, by the entries in its list. */
    method FlyingComms(t: nat) returns (found: set<nat>)
      requires Valid() && t < nWorkers && aborting[t] == {}
      ensures forall s :: s in inflight[t] ==> inflight[t][s] < |qps| && qps[inflight[t][s]].comm in found
      ensures AbortOk(found, t, owners, true)
    {
      hide Inv, Valid;
      WorkerFacts(t);
      var flights, own, entries := inflight[t], ownQps[t], qps;
      var todo := flights.Keys;
      found := {};
      while todo != {}
        invariant todo <= flights.Keys && AbortOk(found, t, owners, true)
        invariant forall s :: s in flights && s !in todo ==> flights[s] < |entries| && entries[flights[s]].comm in found
      {
        var s :| s in todo;
        todo := todo - {s};
        assert FlightOk(flights[s], t, entries, owners, {});
        if flights[s] in own {
          found := found + {entries[flights[s]].comm};
        }
      }
    }

    /** A slice of worker t leaves the wire failed and gives back its credit. */
    method FailFlight(t: nat, s: nat, ghost unreported: nat)
      requires Inv(unreported, map[]) && t < |inflight| && s in inflight[t]
      modifies `inflight, `wrDepth, `failedMarks
      ensures Inv(unreported + 1, map[])
      ensures inflight == old(inflight)[t := old(inflight)[t] - {s}]
      ensures failedMarks == old(failedMarks) + multiset{s}
    {
      hide Balanced, Held, CreditsOk, OwnOk, FlightsOk, QpsOk, NoOwnerNoSlices, WithinCq;
      LandKeeps(inflight[t], t, s, qps, owners, aborting[t]);
      LandCredit(wrDepth, qps, owners, inflight, map[], t, s);
      LandBooks(queued, local, inflight, t, s, succeeded, failedMarks, accepted, sharedCqDepth);
      var e := inflight[t][s];
      wrDepth := wrDepth[e := wrDepth[e] - 1];
      failedMarks := failedMarks + multiset{s};
      inflight := inflight[t := inflight[t] - {s}];
    }

    method FailNext(t: nat, ghost unreported: nat, ghost n: nat, ghost w0: seq<map<nat, nat>>, ghost marks0: multiset<nat>)
      requires Inv(unreported + n, map[]) && t < |inflight| && inflight[t] != map[]
      requires Midway(inflight, failedMarks, w0, marks0, t, n)
      modifies `inflight, `wrDepth, `failedMarks
      ensures Inv(unreported + n + 1, map[])
      ensures t < |inflight| && |inflight[t]| < |old(inflight)[t]|
      ensures Midway(inflight, failedMarks, w0, marks0, t, n + 1)
    {
      hide Inv, Midway;
      var s :| s in inflight[t];
      NextMark(inflight, failedMarks, w0, marks0, t, n, s);
      FailFlight(t, s, unreported + n);
    }

    method FailFlights(t: nat, ghost unreported: nat) returns (n: nat)
      requires Inv(unreported, map[]) && t < |inflight|
      modifies `inflight, `wrDepth, `failedMarks
      ensures Inv(unreported + n, map[]) && n == |old(inflight)[t]|
      ensures inflight == old(inflight)[t := map[]]
      ensures failedMarks == old(failedMarks) + multiset(old(inflight)[t].Keys)
    {
      hide Inv, Midway;
      ghost var w0, marks0 := inflight, failedMarks;
      n := 0;
      StillFlying(w0, marks0, t);
      while inflight[t] != map[]
        invariant t < |inflight| && Inv(unreported + n, map[]) && Midway(inflight, failedMarks, w0, marks0, t, n)
        decreases |inflight[t]|
      {
        FailNext(t, unreported, n, w0, marks0);
        n := n + 1;
      }
      AllMarked(inflight, failedMarks, w0, marks0, t, n);
    }

    /** The slices a worker has taken over for connection c fail where they wait. */
    method FailLocal(c: nat, ghost unreported: nat) returns (n: nat)
      requires Inv(unreported, map[]) && c < |owners|
      modifies `local, `failedMarks
      ensures Inv(unreported + n, map[]) && n == |old(local)[c]|
      ensures local == old(local)[c := []] && failedMarks == old(failedMarks) + multiset(old(local)[c])
    {
      hide Balanced, Held, CreditsOk, OwnOk, FlightsOk, QpsOk, NoOwnerNoSlices, WithinCq;
      DropBooks(queued, local, inflight, c, succeeded, failedMarks, accepted);
      DropKeeps(owners, queued, local, c);
      MarkAllFailed(local[c]);
      n := |local[c]|;
      local := local[c := []];
    }

    /** The slices submitted for connection c that its worker has not taken over fail. */
    method FailQueued(c: nat, ghost unreported: nat) returns (n: nat)
      requires Inv(unreported, map[]) && c < |owners|
      modifies `queued, `failedMarks
      ensures Inv(unreported + n, map[]) && n == |old(queued)[c]|
      ensures queued == old(queued)[c := []] && failedMarks == old(failedMarks) + multiset(old(queued)[c])
    {
      hide Balanced, Held, CreditsOk, OwnOk, FlightsOk, QpsOk, NoOwnerNoSlices, WithinCq;
      DropBooks(queued, local, inflight, c, succeeded, failedMarks, accepted);
      DropKeeps(owners, queued, local, c);
      MarkAllFailed(queued[c]);
      n := |queued[c]|;
      queued := queued[c := []];
    }

    method FailLocalOf(t: nat, c: nat, ghost unreported: nat, ghost before: seq<seq<nat>>) returns (n: nat)
      requires Inv(unreported, map[]) && c < |owners| && Emptied(owners, before, local, t, c)
      modifies `local, `failedMarks
      ensures Inv(unreported + n, map[]) && Emptied(owners, before, local, t, c + 1)
    {
      hide Inv, Emptied;
      EmptyNext(owners, before, local, t, c);
      n := 0;
      if owners[c] == t {
        n := FailLocal(c, unreported);
      }
    }

    /** All slices worker t has taken over fail where they wait. */
    method FailLocals(t: nat, ghost unreported: nat) returns (n: nat)
      requires Inv(unreported, map[]) && |local| == |owners|
      modifies `local, `failedMarks
      ensures Inv(unreported + n, map[]) && Emptied(owners, old(local), local, t, |owners|)
    {
      hide Inv, Emptied;
      EmptyStart(owners, local, t);
      n := 0;
      var c := 0;
      while c < |owners|
        invariant c <= |owners| && Inv(unreported + n, map[]) && Emptied(owners, old(local), local, t, c)
      {
        var more := FailLocalOf(t, c, unreported + n, old(local));
        n := n + more;
        c := c + 1;
      }
    }

    method FailQueuedOf(t: nat, c: nat, ghost unreported: nat, ghost before: seq<seq<nat>>) returns (n: nat)
      requires Inv(unreported, map[]) && c < |owners| && Emptied(owners, before, queued, t, c)
      modifies `queued, `failedMarks
      ensures Inv(unreported + n, map[]) && Emptied(owners, before, queued, t, c + 1)
    {
      hide Inv, Emptied;
      EmptyNext(owners, before, queued, t, c);
      n := 0;
      if owners[c] == t {
        n := FailQueued(c, unreported);
      }
    }

    /** All slices submitted to worker t and not taken over yet fail. */
    method FailArrivals(t: nat, ghost unreported: nat) returns (n: nat)
      requires Inv(unreported, map[]) && |queued| == |owners|
      modifies `queued, `failedMarks
      ensures Inv(unreported + n, map[]) && Emptied(owners, old(queued), queued, t, |owners|)
    {
      hide Inv, Emptied;
      EmptyStart(owners, queued, t);
      n := 0;
      var c := 0;
      while c < |owners|
        invariant c <= |owners| && Inv(unreported + n, map[]) && Emptied(owners, old(queued), queued, t, c)
      {
        var more := FailQueuedOf(t, c, unreported + n, old(queued));
        n := n + more;
        c := c + 1;
      }
    }

    /** One abort: a connection whose queue pairs are not all gone stays busy. */
    method AbortOne(t: nat, c: nat, todo: set<nat>, busy: set<nat>) returns (busy': set<nat>)
      requires Valid() && t < nWorkers && c in todo && todo <= aborting[t]
      requires busy <= aborting[t] && AllDead(qps, aborting[t] - todo - busy)
      modifies `qps, `ownQps
      ensures Valid() && busy' <= aborting[t] && AllDead(qps, aborting[t] - (todo - {c}) - busy')
      ensures SameComms(old(qps), qps)
    {
      hide Inv, Valid, AllDead;
      WorkerFacts(t);
      ghost var before := qps;
      var ok := DestroyQps(c);
      busy' := if ok then busy else busy + {c};
      StillDead(before, qps, aborting[t] - todo - busy, c, ok, aborting[t] - (todo - {c}) - busy');
    }

    /** The aborts of one pass, in any order: what is left busy is retried by the next pass. */
    method AbortTracked(t: nat) returns (busy: set<nat>)
      requires Valid() && t < nWorkers
      modifies `qps, `ownQps
      ensures Valid() && busy <= aborting[t] && AllDead(qps, aborting[t] - busy)
      ensures SameComms(old(qps), qps)
    {
      hide Inv, Valid, AllDead, SameComms;
      WorkerFacts(t);
      var todo := aborting[t];
      busy := {};
      NoneDead(qps, aborting[t] - todo - busy);
      while todo != {}
        invariant Valid() && todo <= aborting[t] && busy <= aborting[t]
        invariant AllDead(qps, aborting[t] - todo - busy) && SameComms(old(qps), qps)
      {
        var c :| c in todo;
        ghost var before := qps;
        busy := AbortOne(t, c, todo, busy);
        SameCommsThrough(old(qps), before, qps);
        todo := todo - {c};
      }
      assert aborting[t] - todo - busy == aborting[t] - busy;
    }

    /** What the books say about worker t. */
    lemma WorkerFacts(t: nat)
      requires Valid() && t < nWorkers
      ensures t < |aborting| == |inflight| == |failed| == |ownQps| && QpsOk(qps, owners)
      ensures |queued| == |local| == |owners| && |cursor| == |inflight| == nWorkers && |wrDepth| == |qps| && 1 <= maxWrPerPost
      ensures FlightsOk(inflight[t], t, qps, owners, aborting[t]) && AbortOk(aborting[t], t, owners, failed[t])
      ensures failed[t] ==> AbortOk(aborting[t], t, owners, true)
      ensures OwnOk(ownQps[t], t, qps, owners)
    {}

    method SetAborting(t: nat, busy: set<nat>, ghost unreported: nat)
      requires Inv(unreported, map[]) && t < nWorkers
      requires AbortOk(busy, t, owners, failed[t]) && FlightsOk(inflight[t], t, qps, owners, busy)
      modifies `aborting
      ensures Inv(unreported, map[]) && aborting == old(aborting)[t := busy]
    {
      hide Balanced, Held, CreditsOk, OwnOk, WithinCq, NoOwnerNoSlices, QpsOk, FlightsOk, AbortOk;
      aborting := aborting[t := busy];
    }

    /** Adds slices retired by this turn to the processed count. */
    method Report(n: nat)
      requires Inv(n, map[])
      modifies `processed
      ensures Valid() && processed == old(processed) + n
    {
      hide Balanced, Held, CreditsOk, OwnOk, FlightsOk, AbortOk, NoOwnerNoSlices, WithinCq, QpsOk;
      processed := processed + n;
    }

    /** The aborts of failWorkerSlices: what is left busy still carries the worker's slices. */
    method Abort(t: nat) returns (busy: set<nat>)
      requires Valid() && t < nWorkers && failed[t]
      modifies `aborting, `qps, `ownQps
      ensures Valid() && aborting == old(aborting)[t := aborting[t]] && SameComms(old(qps), qps)
      ensures AbortOk(busy, t, owners, true)
      ensures busy != {} ==> FlightsOk(inflight[t], t, qps, owners, busy)
      ensures busy == {} ==> Grounded(inflight[t], qps)
    {
      hide Inv, Valid, FlightsOk, AbortOk, Grounded, AllDead, SameComms;
      WorkerFacts(t);
      TrackComms(t);
      busy := AbortTracked(t);
      WorkerFacts(t);
      if aborting[t] != {} {
        KeepBusy(inflight[t], t, qps, owners, aborting[t], busy);
      } else {
        assert busy == {};
        NoneFlying(t, qps, owners);
      }
    }

    /** The part of failWorkerSlices about the wire: the worker's slices leave it only when every
        connection that carries one has had all its queue pairs destroyed. */
    method AbortPass(t: nat) returns (n: nat, busy: set<nat>)
      requires Valid() && t < nWorkers && failed[t]
      modifies `aborting, `qps, `ownQps, `inflight, `wrDepth, `failedMarks
      ensures Inv(n, map[]) && SameComms(old(qps), qps)
      ensures aborting == old(aborting)[t := busy]
      ensures inflight == if busy == {} then old(inflight)[t := map[]] else old(inflight)
      ensures busy == {} ==> Grounded(old(inflight)[t], qps)
      ensures n == |old(inflight)[t]| - |inflight[t]|
    {
      hide Inv, Valid, FlightsOk, AbortOk, Grounded, SameComms, QpsOk;
      WorkerFacts(t);
      busy := Abort(t);
      WorkerFacts(t);
      n := FailUnless(t, busy);
      UpdateTwice(old(aborting), t, aborting[t], busy);
      SetAborting(t, busy, n);
    }

    /** The slices on the wire of worker t fail, unless some abort is left busy. */
    method FailUnless(t: nat, busy: set<nat>) returns (n: nat)
      requires Valid() && t < nWorkers && t < |inflight| && QpsOk(qps, owners)
      requires busy != {} ==> FlightsOk(inflight[t], t, qps, owners, busy)
      modifies `inflight, `wrDepth, `failedMarks
      ensures Inv(n, map[]) && inflight == (if busy == {} then old(inflight)[t := map[]] else old(inflight))
      ensures n == |old(inflight)[t]| - |inflight[t]| && FlightsOk(inflight[t], t, qps, owners, busy)
    {
      hide Inv, FlightsOk, QpsOk, Grounded, AbortOk;
      NoneFlying(t, qps, owners);
      if busy == {} {
        n := FailFlights(t, 0);
      } else {
        n := 0;
      }
    }

    /** failWorkerSlices. Everything waiting fails; the slices on the wire fail too, unless some abort
        has to be retried: they then stay as they are. */
    method FailWorker(t: nat) returns (busy: set<nat>)
      requires Valid() && t < nWorkers && failed[t]
      modifies `aborting, `qps, `ownQps, `inflight, `wrDepth, `local, `queued, `failedMarks, `processed
      ensures Valid() && SameComms(old(qps), qps)
      ensures Emptied(owners, old(local), local, t, |owners|) && Emptied(owners, old(queued), queued, t, |owners|)
      ensures aborting == old(aborting)[t := busy]
      ensures inflight == if busy == {} then old(inflight)[t := map[]] else old(inflight)
      ensures busy == {} ==> Grounded(old(inflight)[t], qps)
    {
      hide Inv, Valid, Emptied, Grounded, SameComms, QpsOk, FlightsOk, AbortOk, OwnOk;
      WorkerFacts(t);
      var n;
      n, busy := AbortPass(t);
      var waiting := FailLocals(t, n);
      var arrived := FailArrivals(t, n + waiting);
      Report(n + waiting + arrived);
    }

    /** One completion: its slice leaves the wire and is marked; its credit is given back later. */
    method TakeCompletion(t: nat, s: nat, ok: bool, pend: map<nat, nat>, ghost unreported: nat) returns (pend': map<nat, nat>)
      requires Inv(unreported, pend) && t < nWorkers && s in inflight[t]
      modifies `inflight, `succeeded, `failedMarks
      ensures Inv(unreported + 1, pend')
      ensures inflight == old(inflight)[t := old(inflight)[t] - {s}]
      ensures succeeded == if ok then old(succeeded) + multiset{s} else old(succeeded)
      ensures failedMarks == if ok then old(failedMarks) else old(failedMarks) + multiset{s}
    {
      hide Balanced, Held, CreditsOk, OwnOk, FlightsOk, AbortOk, QpsOk, NoOwnerNoSlices, WithinCq;
      LandKeeps(inflight[t], t, s, qps, owners, aborting[t]);
      LandCredit(wrDepth, qps, owners, inflight, pend, t, s);
      LandBooks(queued, local, inflight, t, s, succeeded, failedMarks, accepted, sharedCqDepth);
      var e := inflight[t][s];
      pend' := pend[e := Pending(pend, e) + 1];
      inflight := inflight[t := inflight[t] - {s}];
      if ok {
        succeeded := succeeded + multiset{s};
      } else {
        failedMarks := failedMarks + multiset{s};
      }
    }

    method GiveOne(e: nat, pend: map<nat, nat>, ghost unreported: nat) returns (pend': map<nat, nat>)
      requires Inv(unreported, pend) && e in pend
      modifies `wrDepth
      ensures Inv(unreported, pend') && pend' == pend - {e}
    {
      hide Balanced, Held, CreditsOk, OwnOk, FlightsOk, AbortOk, QpsOk, NoOwnerNoSlices, WithinCq;
      GiveCredit(wrDepth, qps, owners, inflight, pend, e);
      wrDepth := wrDepth[e := wrDepth[e] - pend[e]];
      pend' := pend - {e};
    }

    /** Gives back the credits of all completions of a poll. */
    method GiveBack(pend: map<nat, nat>, ghost unreported: nat)
      requires Inv(unreported, pend)
      modifies `wrDepth
      ensures Inv(unreported, map[])
    {
      hide Inv;
      var todo := pend;
      while todo != map[]
        invariant Inv(unreported, todo)
        decreases |todo|
      {
        var e :| e in todo;
        FewerKeys(todo, e);
        todo := GiveOne(e, todo, unreported);
      }
    }

    method PollNext(t: nat, wcs: seq<Wc>, i: nat, pend: map<nat, nat>, n: nat, ghost w0: seq<map<nat, nat>>,
                    ghost succ0: multiset<nat>, ghost fail0: multiset<nat>)
      returns (pend': map<nat, nat>, n': nat)
      requires Inv(n, pend) && t < nWorkers && i < |wcs| && t < |w0| && Completions(wcs, w0[t])
      requires Polled(inflight, succeeded, failedMarks, w0, succ0, fail0, t, wcs[..i])
      modifies `inflight, `succeeded, `failedMarks
      ensures Inv(n', pend') && Polled(inflight, succeeded, failedMarks, w0, succ0, fail0, t, wcs[..i + 1])
    {
      hide Inv, Polled, Completions;
      PolledNext(inflight, succeeded, failedMarks, w0, succ0, fail0, t, wcs, i);
      if wcs[i].slice.Some? {
        pend' := TakeCompletion(t, wcs[i].slice.value, wcs[i].ok, pend, n);
        n' := n + 1;
      } else {
        pend', n' := pend, n;
      }
    }

    method MarkWorkerFailed(t: nat)
      requires Valid() && t < nWorkers
      modifies `failed
      ensures Valid() && failed == old(failed)[t := true]
    {
      hide Balanced, Held, CreditsOk, OwnOk, FlightsOk, QpsOk, NoOwnerNoSlices, WithinCq;
      failed := failed[t := true];
    }

    /** performPollCq. Every completion takes one slice off the wire, marks it once by its status and gives
        back its credit; a queue that cannot be polled fails the worker. */
    method PollCq(t: nat, polled: bool, wcs: seq<Wc>) returns (busy: set<nat>)
      requires Valid() && t < nWorkers && Completions(wcs, inflight[t])
      modifies this
      ensures Valid() && accepted == old(accepted) && submitted == old(submitted)
      ensures old(failed)[t] ==> unchanged(this)
      ensures !old(failed)[t] && polled ==>
        && inflight == old(inflight)[t := old(inflight)[t] - Slices(wcs)]
        && succeeded == old(succeeded) + Marks(wcs, true)
        && failedMarks == old(failedMarks) + Marks(wcs, false)
        && unchanged(`queued, `local, `qps, `ownQps, `aborting, `failed)
      ensures !old(failed)[t] && !polled ==>
        && failed == old(failed)[t := true] && succeeded == old(succeeded)
        && Emptied(owners, old(local), local, t, |owners|) && Emptied(owners, old(queued), queued, t, |owners|)
        && inflight == (if busy == {} then old(inflight)[t := map[]] else old(inflight))
        && (busy == {} ==> Grounded(old(inflight)[t], qps))
    {
      hide Inv, Valid, Completions, Polled, Emptied, Grounded, QpsOk, FlightsOk, AbortOk, OwnOk, SameComms, Slices, Marks;
      WorkerFacts(t);
      busy := {};
      if failed[t] {
        return;
      }
      if !polled {
        MarkWorkerFailed(t);
        busy := FailWorker(t);
        return;
      }
      TakeAll(t, wcs);
    }

    method TakeAll(t: nat, wcs: seq<Wc>)
      requires Valid() && t < nWorkers && Completions(wcs, inflight[t])
      modifies `inflight, `wrDepth, `succeeded, `failedMarks, `processed
      ensures Valid()
      ensures inflight == old(inflight)[t := old(inflight)[t] - Slices(wcs)]
      ensures succeeded == old(succeeded) + Marks(wcs, true) && failedMarks == old(failedMarks) + Marks(wcs, false)
    {
      hide Inv, Completions, Polled, QpsOk, FlightsOk, AbortOk, OwnOk;
      WorkerFacts(t);
      PolledStart(inflight, succeeded, failedMarks, t);
      var pend: map<nat, nat> := map[];
      var n, i := 0, 0;
      while i < |wcs|
        invariant i <= |wcs| && Inv(n, pend)
        invariant Polled(inflight, succeeded, failedMarks, old(inflight), old(succeeded), old(failedMarks), t, wcs[..i])
      {
        pend, n := PollNext(t, wcs, i, pend, n, old(inflight), old(succeeded), old(failedMarks));
        i := i + 1;
      }
      assert wcs[..i] == wcs;
      PolledEnd(inflight, succeeded, failedMarks, old(inflight), old(succeeded), old(failedMarks), t, wcs);
      GiveBack(pend, n);
      Report(n);
    }

    /** flagcxP2pSliceBatch: the adaptor accepts some prefix of the batch, none of it if the batch is
        invalid; the rest is marked failed and gives its credits back. */
    method SliceBatch(e: nat, batch: seq<nat>) returns (bad: nat)
      requires e < |wrDepth| && wrDepth[e] >= |batch|
      modifies `wrDepth, `failedMarks
      ensures bad <= |batch| && wrDepth == old(wrDepth)[e := old(wrDepth)[e] - bad]
      ensures failedMarks == old(failedMarks) + multiset(batch[|batch| - bad..])
    {
      var ok: nat :| ok <= |batch|;
      bad := |batch| - ok;
      var k := ok;
      while k < |batch|
        invariant ok <= k <= |batch| && wrDepth == old(wrDepth)[e := old(wrDepth)[e] - (k - ok)]
        invariant failedMarks == old(failedMarks) + multiset(batch[ok..k])
      {
        assert batch[ok..k + 1] == batch[ok..k] + [batch[k]];
        wrDepth := wrDepth[e := wrDepth[e] - 1];
        failedMarks := failedMarks + multiset{batch[k]};
        k := k + 1;
      }
      assert batch[ok..k] == batch[ok..];
    }

    /** One post of a worker: its slices take credits of the entry before they are posted. */
    method PostBatch(c: nat, t: nat, e: nat, take: nat) returns (bad: nat)
      requires Valid() && c < |local| && t < |inflight| && !failed[t]
      requires e < |qps| == |wrDepth| && qps[e].registered && qps[e].comm == c < |owners| && owners[c] == t
      requires take <= |local[c]| && |inflight[t]| + take <= sharedCqDepth
      modifies `wrDepth, `inflight, `processed, `local, `failedMarks
      ensures Valid() && bad <= take
      ensures local == old(local)[c := old(local)[c][take..]]
      ensures inflight == old(inflight)[t := FlyOn(old(inflight)[t], old(local)[c][..take - bad], e)]
      ensures wrDepth == old(wrDepth)[e := old(wrDepth)[e] + take - bad]
      ensures failedMarks == old(failedMarks) + multiset(old(local)[c][take - bad..take])
      ensures processed == old(processed) + bad
    {
      hide Balanced, Held, CreditsOk, OwnOk, FlightsOk, QpsOk, NoOwnerNoSlices, WithinCq, FlyOn, AbortOk, NoRepeats;
      var batch := local[c][..take];
      wrDepth := wrDepth[e := wrDepth[e] + take];
      bad := SliceBatch(e, batch);
      var ok := take - bad;
      PostFacts(c, t, take, ok, e, old(wrDepth), old(failedMarks));
      UpdateTwice(old(wrDepth), e, old(wrDepth)[e] + take, old(wrDepth)[e] + ok);
      inflight := inflight[t := FlyOn(inflight[t], local[c][..ok], e)];
      processed := processed + bad;
      local := local[c := local[c][take..]];
    }

    lemma PostFacts(c: nat, t: nat, take: nat, ok: nat, e: nat, wrDepth0: seq<nat>, fails: multiset<nat>)
      requires Shape() && Places() && c < |local| && t < |inflight| && !failed[t]
      requires e < |qps| == |wrDepth0| && qps[e].registered && qps[e].comm == c < |owners| && owners[c] == t
      requires ok <= take <= |local[c]| && |inflight[t]| + take <= sharedCqDepth
      requires Balanced(Held(queued, local, inflight), succeeded + fails, accepted)
      requires WithinCq(inflight, sharedCqDepth) && CreditsOk(wrDepth0, qps, owners, inflight, map[])
      ensures var f := FlyOn(inflight[t], local[c][..ok], e);
        && Balanced(Held(queued, local[c := local[c][take..]], inflight[t := f]),
                    succeeded + (fails + multiset(local[c][ok..take])), accepted)
        && WithinCq(inflight[t := f], sharedCqDepth)
        && FlightsOk(f, t, qps, owners, aborting[t])
        && CreditsOk(wrDepth0[e := wrDepth0[e] + ok], qps, owners, inflight[t := f], map[])
        && NoOwnerNoSlices(owners, queued, local[c := local[c][take..]])
        && multiset(local[c][..take][ok..]) == multiset(local[c][ok..take])
        && |fails + multiset(local[c][ok..take])| == |fails| + take - ok
    {
      hide Balanced, Held, CreditsOk, OwnOk, QpsOk, WithinCq, FlyOn, NoRepeats;
      assert AbortOk(aborting[t], t, owners, failed[t]);
      WaitingIsApart(queued, local, inflight, succeeded + fails, accepted, c, t);
      FrontIsApart(local[c], ok);
      PostBooks(queued, local, inflight, c, t, take, ok, e, succeeded, fails, accepted, sharedCqDepth);
      PostFlights(inflight[t], local[c][..ok], e, t, qps, owners);
      PostCredit(wrDepth0, qps, owners, inflight, t, local[c][..ok], e);
      assert local[c][..take][ok..] == local[c][ok..take];
    }

    /** The next entry with room, in turn from the cursor: none exactly when all are full. */
    method ChooseQp(ring: seq<nat>, start: nat, rest: nat) returns (chosen: Option<nat>, room: nat, next: nat, ghost k: nat)
      requires ring != [] && 1 <= rest && forall i :: 0 <= i < |ring| ==> ring[i] < |wrDepth|
      ensures chosen.None? <==> maxWrDepth != 0 && forall i :: 0 <= i < |ring| ==> wrDepth[ring[i]] >= maxWrDepth
      ensures chosen.Some? ==>
        && k < |ring| && chosen.value == ring[(start + k) % |ring|] && next == (start + k + 1) % |ring|
        && (forall j :: 0 <= j < k ==> FullAt(ring, start, j))
        && (if maxWrDepth == 0 then room == rest else room >= 1 && wrDepth[chosen.value] + room == maxWrDepth)
    {
      k := 0;
      var tried := 0;
      while tried < |ring|
        invariant k == tried <= |ring|
        invariant tried > 0 ==> maxWrDepth != 0
        invariant forall j :: 0 <= j < tried ==> FullAt(ring, start, j)
      {
        var e := ring[(start + tried) % |ring|];
        if maxWrDepth == 0 || wrDepth[e] < maxWrDepth {
          room := if maxWrDepth == 0 then rest else maxWrDepth - wrDepth[e];
          next := (start + tried + 1) % |ring|;
          return Some(e), room, next, k;
        }
        tried, k := tried + 1, k + 1;
      }
      forall i | 0 <= i < |ring|
        ensures wrDepth[ring[i]] >= maxWrDepth
      {
        var j := Turn(start, i, |ring|);
        assert FullAt(ring, start, j);
      }
      chosen, room, next := None, 0, start;
    }

    predicate FullAt(ring: seq<nat>, start: nat, j: nat)
      requires ring != [] && forall i :: 0 <= i < |ring| ==> ring[i] < |wrDepth|
      reads this
    {
      wrDepth[ring[(start + j) % |ring|]] >= maxWrDepth
    }

    /** Another post for connection c, if there is room in the completion queue and on one of the entries. */
    method PostNext(c: nat, t: nat, ring: seq<nat>) returns (more: bool)
      requires Valid() && c < |local| && local[c] != [] && t < |inflight| && t < |cursor| && !failed[t]
      requires ring != [] && RingOk(ring, c, t, qps, owners) && |wrDepth| == |qps| && 1 <= maxWrPerPost
      modifies `wrDepth, `inflight, `processed, `local, `failedMarks, `cursor
      ensures Valid()
      ensures Posts(old(local), local, c, old(inflight), inflight, t, old(wrDepth), wrDepth, maxWrDepth, qps)
      ensures more ==> |local[c]| < |old(local)[c]|
      ensures !more ==> local == old(local) && inflight == old(inflight) && wrDepth == old(wrDepth)
      ensures !more <==> |old(inflight)[t]| >= sharedCqDepth || AllFull(ring, old(wrDepth), maxWrDepth)
    {
      hide Inv, Valid, FlyOn;
      if |inflight[t]| >= sharedCqDepth {
        return false;
      }
      var chosen, room, next, k := ChooseQp(ring, cursor[t], |local[c]|);
      if chosen.None? {
        return false;
      }
      SetCursor(t, next);
      var take := Least(room, sharedCqDepth - |inflight[t]|, maxWrPerPost, |local[c]|);
      var bad := PostBatch(c, t, chosen.value, take);
      return true;
    }

    method SetCursor(t: nat, next: nat)
      requires Valid() && t < |cursor|
      modifies `cursor
      ensures Valid() && cursor == old(cursor)[t := next]
    {
      hide Balanced, Held, CreditsOk, QpsOk, WithinCq, OwnOk, FlightsOk, AbortOk, NoOwnerNoSlices;
      cursor := cursor[t := next];
    }

    /** The registered entries of connection c, in the order of its worker's list. */
    method RingOf(c: nat, t: nat) returns (ring: seq<nat>)
      requires Valid() && c < |owners| && t < nWorkers && owners[c] == t
      ensures RingOk(ring, c, t, qps, owners)
    {
      hide Inv, Valid, FlightsOk, AbortOk;
      WorkerFacts(t);
      var own := ownQps[t];
      forall j | 0 <= j < |own|
        ensures own[j] < |qps| && qps[own[j]].registered
      {
        assert own[j] in own;
      }
      ring := [];
      var i := 0;
      while i < |own|
        invariant i <= |own| && forall j :: 0 <= j < |own| ==> own[j] < |qps| && qps[own[j]].registered
        invariant forall j :: 0 <= j < |ring| ==> ring[j] in own && qps[ring[j]].comm == c
        invariant forall j :: 0 <= j < i && qps[own[j]].comm == c ==> own[j] in ring
      {
        if qps[own[i]].comm == c {
          ring := ring + [own[i]];
        }
        i := i + 1;
      }
    }

    /** All posts for connection c of one turn. They end when nothing waits, the completion queue has no
        room or every queue pair of the connection is full; without a queue pair everything waiting fails. */
    method PostComm(c: nat, t: nat)
      requires Valid() && c < |local| == |owners| && t < nWorkers == |inflight| && owners[c] == t && !failed[t]
      modifies `wrDepth, `inflight, `processed, `local, `failedMarks, `cursor
      ensures Valid() && Posts(old(local), local, c, old(inflight), inflight, t, old(wrDepth), wrDepth, maxWrDepth, qps)
      ensures c < |local| && t < |inflight|
      ensures local[c] == [] || |inflight[t]| >= sharedCqDepth || CommFull(qps, wrDepth, c, maxWrDepth)
    {
      hide Inv, FlightsOk, AbortOk, OwnOk, QpsOk, RingOk, AllFull, CommFull, Posts;
      WorkerFacts(t);
      NoPosts(local, c, inflight, t, wrDepth, maxWrDepth, qps);
      var ring := RingOf(c, t);
      if ring == [] {
        var n := FailLocal(c, 0);
        Report(n);
      } else {
        PostRing(c, t, ring);
      }
    }

    method PostRing(c: nat, t: nat, ring: seq<nat>)
      requires Valid() && c < |local| == |owners| && t < nWorkers == |inflight| && !failed[t]
      requires ring != [] && RingOk(ring, c, t, qps, owners)
      modifies `wrDepth, `inflight, `processed, `local, `failedMarks, `cursor
      ensures Valid() && Posts(old(local), local, c, old(inflight), inflight, t, old(wrDepth), wrDepth, maxWrDepth, qps)
      ensures c < |local| && t < |inflight|
      ensures local[c] == [] || |inflight[t]| >= sharedCqDepth || CommFull(qps, wrDepth, c, maxWrDepth)
    {
      hide Inv, Valid, FlightsOk, AbortOk, OwnOk, QpsOk, RingOk, AllFull, CommFull, Posts;
      WorkerFacts(t);
      NoPosts(local, c, inflight, t, wrDepth, maxWrDepth, qps);
      var more := true;
      while more && local[c] != []
        invariant c < |local| && t < |inflight| && Valid()
        invariant Posts(old(local), local, c, old(inflight), inflight, t, old(wrDepth), wrDepth, maxWrDepth, qps)
        invariant !more ==> |inflight[t]| >= sharedCqDepth || AllFull(ring, wrDepth, maxWrDepth)
        decreases more, |local[c]|
      {
        more := PostOn(c, t, ring, old(local), old(inflight), old(wrDepth));
      }
      WorkerFacts(t);
      if !more && |inflight[t]| < sharedCqDepth {
        RingFull(ring, c, t, qps, owners, wrDepth, maxWrDepth);
      }
    }

    method PostOn(c: nat, t: nat, ring: seq<nat>, ghost l0: seq<seq<nat>>, ghost w0: seq<map<nat, nat>>, ghost d0: seq<nat>)
      returns (more: bool)
      requires Valid() && c < |local| && local[c] != [] && t < nWorkers && t < |inflight| && !failed[t]
      requires ring != [] && RingOk(ring, c, t, qps, owners) && Posts(l0, local, c, w0, inflight, t, d0, wrDepth, maxWrDepth, qps)
      modifies `wrDepth, `inflight, `processed, `local, `failedMarks, `cursor
      ensures Valid() && Posts(l0, local, c, w0, inflight, t, d0, wrDepth, maxWrDepth, qps)
      ensures c < |local| && t < |inflight| && (more ==> |local[c]| < |old(local)[c]|)
      ensures !more ==> |inflight[t]| >= sharedCqDepth || AllFull(ring, wrDepth, maxWrDepth)
    {
      hide Inv, Valid, FlightsOk, AbortOk, OwnOk, QpsOk, RingOk, AllFull, Posts;
      WorkerFacts(t);
      more := PostNext(c, t, ring);
      PostsThrough(l0, old(local), local, c, w0, old(inflight), inflight, t, d0, old(wrDepth), wrDepth, maxWrDepth, qps);
    }

    method TakeOverConn(c: nat)
      requires Valid() && c < |local| == |queued|
      modifies `queued, `local
      ensures Valid() && queued == old(queued)[c := []]
      ensures local == old(local)[c := old(local)[c] + old(queued)[c]]
    {
      hide Balanced, Held, CreditsOk, QpsOk, WithinCq, OwnOk, FlightsOk, AbortOk;
      Handed(queued, local, inflight, c);
      local := local[c := local[c] + queued[c]];
      queued := queued[c := []];
    }

    method TakeOverOf(t: nat, c: nat, ghost l0: seq<seq<nat>>, ghost q0: seq<seq<nat>>)
      requires Valid() && c < |owners| && TakenOver(owners, l0, q0, local, queued, t, c)
      modifies `queued, `local
      ensures Valid() && TakenOver(owners, l0, q0, local, queued, t, c + 1)
    {
      hide Inv, Valid, TakenOver;
      TakenNext(owners, l0, q0, local, queued, t, c);
      if owners[c] == t {
        TakeOverConn(c);
      }
    }

    /** A worker takes over everything submitted to it so far. */
    method TakeOver(t: nat)
      requires Valid() && |local| == |queued| == |owners|
      modifies `queued, `local
      ensures Valid() && TakenOver(owners, old(local), old(queued), local, queued, t, |owners|)
    {
      hide Inv, Valid, TakenOver;
      NoneTakenOver(owners, local, queued, t);
      var c := 0;
      while c < |owners|
        invariant c <= |owners| && Valid() && TakenOver(owners, old(local), old(queued), local, queued, t, c)
      {
        TakeOverOf(t, c, old(local), old(queued));
        c := c + 1;
      }
    }

    method ServeOne(t: nat, c: nat, todo: set<nat>, ghost l0: seq<seq<nat>>, ghost w0: seq<map<nat, nat>>, ghost d0: seq<nat>)
      requires Valid() && c < |local| && |local| == |owners| && t < nWorkers && owners[c] == t && !failed[t]
      requires Served(owners, l0, local, w0, inflight, t, d0, wrDepth, maxWrDepth)
      requires NothingMore(owners, local, t, todo, qps, wrDepth, maxWrDepth)
      modifies `wrDepth, `inflight, `processed, `local, `failedMarks, `cursor
      ensures Valid() && Served(owners, l0, local, w0, inflight, t, d0, wrDepth, maxWrDepth) && t < |inflight|
      ensures NothingMore(owners, local, t, todo - {c}, qps, wrDepth, maxWrDepth) || |inflight[t]| >= sharedCqDepth
    {
      hide Inv, Valid, Posts, Served, NothingMore, CommFull, QpsOk, OwnOk, FlightsOk, AbortOk;
      WorkerFacts(t);
      if local[c] != [] {
        ghost var l, w, d := local, inflight, wrDepth;
        PostComm(c, t);
        ServedMore(owners, l0, l, local, c, w0, w, inflight, t, d0, d, wrDepth, maxWrDepth, qps);
        if |inflight[t]| < sharedCqDepth {
          DoneAfter(owners, l, local, c, w, inflight, t, todo, d, wrDepth, maxWrDepth, qps);
        }
      } else {
        DoneNow(owners, local, c, t, todo, wrDepth, maxWrDepth, qps);
      }
    }

    method ServeAll(t: nat)
      requires Valid() && |local| == |owners| && t < nWorkers && t < |inflight| && !failed[t]
      modifies `wrDepth, `inflight, `processed, `local, `failedMarks, `cursor
      ensures Valid() && Served(owners, old(local), local, old(inflight), inflight, t, old(wrDepth), wrDepth, maxWrDepth)
      ensures t < |inflight|
      ensures NothingMore(owners, local, t, {}, qps, wrDepth, maxWrDepth) || |inflight[t]| >= sharedCqDepth
    {
      hide Inv, Valid, Served, NothingMore;
      var todo := set c: nat | c < |owners| && owners[c] == t;
      NoneServed(owners, local, inflight, t, wrDepth, maxWrDepth, todo, qps);
      while todo != {} && |inflight[t]| < sharedCqDepth
        invariant Valid() && t < |inflight| && |local| == |owners| && forall c :: c in todo ==> c < |owners| && owners[c] == t
        invariant Served(owners, old(local), local, old(inflight), inflight, t, old(wrDepth), wrDepth, maxWrDepth)
        invariant NothingMore(owners, local, t, todo, qps, wrDepth, maxWrDepth) || |inflight[t]| >= sharedCqDepth
      {
        var c :| c in todo;
        ServeOne(t, c, todo, old(local), old(inflight), old(wrDepth));
        todo := todo - {c};
        ServedShape(owners, old(local), local, old(inflight), inflight, t, old(wrDepth), wrDepth, maxWrDepth);
      }
    }

    /** performPostSend: the worker takes over what was submitted to it and posts in the order of each
        connection's queue, the connections in any order. */
    method PostSend(t: nat)
      requires Valid() && t < nWorkers
      modifies `queued, `local, `wrDepth, `inflight, `processed, `failedMarks, `cursor
      ensures Valid()
      ensures failed[t] ==> unchanged(this)
      ensures !failed[t] ==> exists ready: seq<seq<nat>> ::
        && TakenOver(owners, old(local), old(queued), ready, queued, t, |owners|)
        && Served(owners, ready, local, old(inflight), inflight, t, old(wrDepth), wrDepth, maxWrDepth)
      ensures !failed[t] ==>
        NothingMore(owners, local, t, {}, qps, wrDepth, maxWrDepth) || |inflight[t]| >= sharedCqDepth
    {
      hide Inv, Valid, Served, NothingMore, TakenOver, QpsOk, OwnOk, FlightsOk, AbortOk;
      WorkerFacts(t);
      if failed[t] {
        return;
      }
      TakeOver(t);
      WorkerFacts(t);
      ghost var ready := local;
      ServeAll(t);
      assert TakenOver(owners, old(local), old(queued), ready, queued, t, |owners|);
    }

    // ---------------------------------------------------------- what the books promise

    /** Submitted less processed is what waits and what flies, over all workers. */
    lemma Conservation()
      requires Valid()
      ensures submitted - processed == Queued(queued) + Queued(local) + Flying(inflight)
    {
      FlatSize(queued);
      FlatSize(local);
      OnWireSize(inflight);
      hide OwnOk, FlightsOk, CreditsOk, WithinCq, QpsOk, AbortOk, NoOwnerNoSlices, Flat, OnWire, Queued, Flying;
      assert |Held(queued, local, inflight) + (succeeded + failedMarks)| == |accepted|;
    }

    /** An accepted slice is held in exactly one place, or has been marked exactly once. */
    lemma OnePlace(s: nat)
      requires Valid() && s in accepted
      ensures Held(queued, local, inflight)[s] + succeeded[s] + failedMarks[s] == 1
    {
      hide OwnOk, FlightsOk, CreditsOk, WithinCq, QpsOk, AbortOk, NoOwnerNoSlices, Flat, OnWire, Held;
      assert (Held(queued, local, inflight) + (succeeded + failedMarks))[s] == accepted[s];
    }

    /** A transfer is done, by its task's counter, exactly when none of its slices is held any more. */
    lemma DoneWhenMarked(list: seq<nat>)
      requires Valid() && forall s :: s in list ==> s in accepted
      ensures MarksOf(list, succeeded) + MarksOf(list, failedMarks) <= |list|
      ensures MarksOf(list, succeeded) + MarksOf(list, failedMarks) == |list| <==>
        forall s :: s in list ==> s !in Held(queued, local, inflight)
    {
      forall s | s in list
        ensures Held(queued, local, inflight)[s] + succeeded[s] + failedMarks[s] == 1
      {
        OnePlace(s);
      }
      hide Inv, Valid, Held;
      MarksAndHeld(list, succeeded, failedMarks, Held(queued, local, inflight));
    }

    /** While a worker works, every slice it has on the wire flies on a live queue pair it knows. */
    lemma AliveWhileWorking(c: nat)
      requires Valid() && c < |owners| && 0 <= owners[c] < |failed| && !failed[owners[c]]
      ensures aborting[owners[c]] == {}
      ensures forall s :: s in inflight[owners[c]] ==>
        inflight[owners[c]][s] < |qps| && qps[inflight[owners[c]][s]].registered && qps[inflight[owners[c]][s]].alive
    {
      var t := owners[c];
      assert AbortOk(aborting[t], t, owners, failed[t]) && FlightsOk(inflight[t], t, qps, owners, aborting[t]);
      hide OwnOk, CreditsOk, WithinCq, NoOwnerNoSlices, Balanced, Held;
      forall s | s in inflight[t]
        ensures inflight[t][s] < |qps| && qps[inflight[t][s]].registered && qps[inflight[t][s]].alive
      {
        assert FlightOk(inflight[t][s], t, qps, owners, aborting[t]);
      }
    }
  }
}
