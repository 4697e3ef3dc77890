// One peer of the RMA proxy (flagcx/core/flagcx_hetero.cc) as a state and its steps.
//
// A step is what one thread does while no other thread can interfere with this peer: an enqueue
// attempt under the producer lock, or one iteration of a progress loop. Adaptor and device
// results are arguments.

module RmaPeer {
  import opened Results
  import opened NetTransport
  import opened RmaIndex
  import Visibility

  datatype Kind = Put | Get | PutValue | Release | IpcGet

  /** `group` 0 means no release group; `needsFlush` is the outcome of
      flagcxOneSideGetCompletionRequiresFlush for a non-empty GET. */
  datatype Desc = Desc(
    kind: Kind, opSeq: nat, key: nat, group: nat, mr: nat,
    independent: bool, needsFlush: bool, event: bool)

  /** A descriptor on the in-progress queue. `dataDone` is completion stage FLUSH_PENDING. */
  datatype Flight = Flight(desc: Desc, request: bool, result: Status, dataDone: bool, getSeq: nat)

  datatype Peer = Peer(
    queueSize: nat,
    ring: seq<Desc>,
    opSeq: nat,
    board: Board,
    flight: seq<Flight>,
    domains: map<nat, Visibility.Domain>,
    done: nat,
    completions: nat,
    // What happened so far; no step reads these.
    accepted: seq<Desc>,
    retired: map<nat, Status>,
    twice: set<nat>,
    posted: set<nat>,
    snaps: map<nat, set<nat>>,
    flushed: set<nat>)

  const GENERATION: nat := 1

  function NewPeer(queueSize: nat): Peer {
    Peer(queueSize, [], 0, Board(2 * queueSize, GENERATION, 1, map[], Success, map[]), [], map[],
         0, 0, [], map[], {}, {}, map[], {})
  }

  /** What the empty test answers about the ring. */
  predicate LooksEmpty(p: Peer) { EmptyTest((p.opSeq - |p.ring|) % WRAP, p.opSeq % WRAP) }

  /** No wrap lies between the indices of the ring, so the empty test can be trusted. */
  predicate InOneLap(p: Peer) { SameLap(p.opSeq - |p.ring|, |p.ring|) }

  /** The descriptors the API functions build. */
  predicate WellFormed(d: Desc) {
    && (d.kind == IpcGet ==> d.event)
    && (d.kind == Release ==> d.group != 0)
    && (d.group != 0 ==> d.kind == Put || d.kind == Release)
    && (d.needsFlush ==> d.kind == Get)
    && (d.event ==> d.kind == Get || d.kind == IpcGet)
  }

  /** Member of its group: a release observes its group and is not one of its data members. */
  predicate Member(d: Desc) { d.kind != Release && d.group != 0 }

  function ContextOf(d: Desc): Context {
    Context(d.key, if d.kind == Release then 0 else d.group, GENERATION, d.opSeq,
            (if d.kind == Release then 2 else 1) + (if d.independent then 4 else 0))
  }

  /** The public counter counts API operations: a grouped operation is counted by its release. */
  predicate CompletesApiOperation(d: Desc) { d.group == 0 || d.kind == Release }

  // ---------------------------------------------------------------------------- producer

  function Stamp(ds: seq<Desc>, base: nat): (r: seq<Desc>)
    ensures |r| == |ds|
    ensures forall i :: 0 <= i < |ds| ==> r[i] == ds[i].(opSeq := base + i + 1)
  {
    seq(|ds|, i requires 0 <= i < |ds| => ds[i].(opSeq := base + i + 1))
  }

  /** Tracks the descriptors one after the other; stops at the first refusal. */
  function TrackAll(b: Board, ds: seq<Desc>): (r: (Board, Status))
    decreases |ds|
  {
    if ds == [] then (b, Success)
    else
      var (b1, st) := TrackAll(b, ds[..|ds| - 1]);
      if st != Success then (b1, st)
      else TrackSubmit(b1, ContextOf(ds[|ds| - 1]), Member(ds[|ds| - 1]))
  }

  function Accept(p: Peer, ds: seq<Desc>, b: Board): Peer {
    p.(ring := p.ring + ds, opSeq := p.opSeq + |ds|, board := b, accepted := p.accepted + ds)
  }

  function EnqueueBatch(p: Peer, ds: seq<Desc>): (r: (Peer, Status)) {
    if ds == [] then (p, Success)
    else if |ds| > p.queueSize then (p, InvalidArgument)
    else if p.queueSize - |p.ring| < |ds| then (p, InProgress)
    else
      var stamped := Stamp(ds, p.opSeq);
      var (b, st) := TrackAll(p.board, stamped);
      if st != Success then (p, st) else (Accept(p, stamped, b), Success)
  }

  function InitGroup(p: Peer, g: nat): Peer {
    p.(board := p.board.(groups := p.board.groups[g := NewGroup(GENERATION)]))
  }

  function EnqueueReleaseGroup(p: Peer, data: seq<Desc>, release: Desc): (r: (Peer, Status)) {
    if |data| >= p.queueSize then (p, InvalidArgument)
    else if p.queueSize - |p.ring| < |data| + 1 then (p, InProgress)
    else
      var stamped := Stamp(data + [release], p.opSeq);
      var (b, st) := TrackAll(p.board, stamped);
      if st != Success then (p, st)
      else if release.group !in b.groups then (p, InvalidArgument)
      else
        var (g, sealed) := GroupSeal(b.groups[release.group]);
        if sealed != Success then (p, sealed)
        else (Accept(p, stamped, b.(groups := b.groups[release.group := g])), Success)
  }

  // --------------------------------------------------------------------------- completion

  function Max(a: int, b: int): int { if a < b then b else a }

  /** flagcxRmaProxyCompleteDesc with flagcxRmaProxyPublishScoreboard, and the descriptor is
      gone. The flag says whether a pending error is recorded. */
  function Retire(p: Peer, d: Desc, result: Status): (r: (Peer, bool)) {
    var (b, st) := TrackCompletion(p.board, ContextOf(d), result);
    (p.(board := b,
        done := if b.next > 0 && b.next - 1 > p.done then b.next - 1 else p.done,
        completions := p.completions + (if result == Success && CompletesApiOperation(d) then 1 else 0),
        retired := p.retired[d.opSeq := result],
        twice := if d.opSeq in p.retired then p.twice + {d.opSeq} else p.twice),
     st != Success || b.firstError != Success || result != Success)
  }

  function Without<T>(s: seq<T>, i: nat): seq<T>
    requires i < |s|
  {
    s[..i] + s[i + 1..]
  }

  /** Result of netAdaptor->test on a native request. */
  datatype Probe = NotDone | Done | Failed(error: Status)

  /** First loop of flagcxRmaProxyPollNonPersistCompletion at queue position i. */
  function PollFlight(p: Peer, i: nat, probe: Probe): (r: (Peer, bool))
    requires i < |p.flight|
  {
    var f := p.flight[i];
    if f.dataDone || (f.request && probe.NotDone?) then (p, false)
    else
      var result := if f.request && probe.Failed? then probe.error else f.result;
      if f.getSeq != 0
      then (p.(flight := p.flight[i := f.(request := false, result := result, dataDone := true)]),
            result != Success)
      else Retire(p.(flight := Without(p.flight, i)), f.desc, result)
  }

  /** Last loop of the same function: a GET whose sequence became visible. */
  function RetireVisible(p: Peer, i: nat): (r: (Peer, bool))
    requires i < |p.flight|
  {
    var f := p.flight[i];
    if !f.dataDone || f.desc.key !in p.domains || f.getSeq > p.domains[f.desc.key].visible
    then (p, false)
    else Retire(p.(flight := Without(p.flight, i)), f.desc, f.result)
  }

  // ------------------------------------------------------------------------ GET visibility

  /** f is the GET of domain k with that sequence (flagcxRmaProxyFindGet). */
  predicate IsGet(f: Flight, k: nat, n: nat) {
    f.getSeq == n && n != 0 && f.desc.key == k
  }

  predicate Covered(f: Flight, k: nat, lo: nat, hi: nat) {
    f.getSeq != 0 && f.desc.key == k && lo < f.getSeq <= hi
  }

  function FindGet(fs: seq<Flight>, k: nat, n: nat): (r: Option<Flight>)
    ensures r.Some? <==> exists i :: 0 <= i < |fs| && IsGet(fs[i], k, n)
    ensures r.Some? ==> IsGet(r.value, k, n) && r.value in fs
  {
    if fs == [] then None
    else if IsGet(fs[0], k, n) then Some(fs[0])
    else
      var rest := FindGet(fs[1..], k, n);
      assert forall i :: 0 < i < |fs| ==> fs[i] == fs[1..][i - 1];
      rest
  }

  /** A failed flush turns every covered success into its error. */
  function FailCovered(fs: seq<Flight>, k: nat, lo: nat, hi: nat, e: Status): (r: seq<Flight>)
    ensures |r| == |fs|
    ensures forall i :: 0 <= i < |fs| ==>
      r[i] == if Covered(fs[i], k, lo, hi) && fs[i].result == Success then fs[i].(result := e) else fs[i]
  {
    seq(|fs|, i requires 0 <= i < |fs| =>
      if Covered(fs[i], k, lo, hi) && fs[i].result == Success then fs[i].(result := e) else fs[i])
  }

  /** The flush finished, or could not be posted, with this result. */
  function FinishFlush(p: Peer, k: nat, result: Status): (r: (Peer, bool))
    requires k in p.domains
  {
    var d := p.domains[k];
    var (d', st) := Visibility.CompleteFlush(d);
    var outcome := if st != Success then st else result;
    var p1 := p.(domains := p.domains[k := d'],
                 flight := if outcome != Success
                           then FailCovered(p.flight, k, d.visible, d'.visible, outcome) else p.flight,
                 flushed := if outcome == Success && k in p.snaps
                            then p.flushed + p.snaps[k] else p.flushed);
    (p1, outcome != Success)
  }

  /** Last sequence of the contiguous data-complete prefix after `from`. */
  function DataPrefix(fs: seq<Flight>, k: nat, from: nat, issued: nat): (r: nat)
    requires from <= issued
    ensures from <= r <= issued
    decreases issued - from
  {
    if from == issued then from
    else
      var g := FindGet(fs, k, from + 1);
      if g.None? || !g.value.dataDone then from
      else DataPrefix(fs, k, from + 1, issued)
  }

  function AdvanceData(p: Peer, k: nat): (r: (Peer, bool))
    requires k in p.domains
  {
    var d := p.domains[k];
    if d.dataDone > d.issued then (p, false)
    else
      var upTo := DataPrefix(p.flight, k, d.dataDone, d.issued);
      var (d', st) := Visibility.AdvanceData(d, upTo);
      (p.(domains := p.domains[k := d']), st != Success)
  }

  /** A covered GET that still counts as successful: the flush is posted on its range. */
  predicate FlushRange(fs: seq<Flight>, k: nat, lo: nat, hi: nat) {
    exists i :: 0 <= i < |fs| && Covered(fs[i], k, lo, hi) && fs[i].result == Success
  }

  function Snapshot(fs: seq<Flight>, k: nat, lo: nat, hi: nat): set<nat> {
    set i | 0 <= i < |fs| && Covered(fs[i], k, lo, hi) && fs[i].dataDone :: fs[i].desc.opSeq
  }

  /** Starts or retries the flush of domain k; `posted` is the adaptor's iflush result and
      `request` tells whether it returned a request to test. */
  function StartFlush(p: Peer, k: nat, posted: Status, request: bool): (r: (Peer, bool))
    requires k in p.domains
  {
    var d := p.domains[k];
    if d.flushing || d.dataDone <= d.visible then (p, false)
    else
      var retry := d.target > d.visible;
      var limit := if retry then d.target else d.dataDone;
      if !FlushRange(p.flight, k, d.visible, limit)
      then
        var (d', st) := Visibility.AdvanceVisible(d, d.dataDone);
        (p.(domains := p.domains[k := d']), st != Success)
      else
        var (d1, st) := if retry then (d, Success) else Visibility.BeginFlush(d);
        if st != Success then (p, true)
        else
          var p1 := p.(domains := p.domains[k := d1],
                       snaps := if retry then p.snaps
                                else p.snaps[k := Snapshot(p.flight, k, d.visible, d1.target)]);
          if posted == InProgress then (p1, false)
          else if posted == Success && request
          then (p1.(domains := p1.domains[k := d1.(flushing := true)]), false)
          else FinishFlush(p1, k, posted)
  }

  predicate Referenced(p: Peer, k: nat) {
    exists i :: 0 <= i < |p.flight| && p.flight[i].getSeq != 0 && p.flight[i].desc.key == k
  }

  /** flagcxRmaProxyPruneGetVisibilityDomains. */
  function Prune(p: Peer): Peer {
    p.(domains := map k | k in p.domains &&
         !(!Referenced(p, k) && !p.domains[k].flushing && p.domains[k].issued == p.domains[k].visible)
       :: p.domains[k])
  }

  // ---------------------------------------------------------------------------- issue loop

  /** What the outside world answers to one iteration of flagcxRmaProxyPollNonPersistDesc:
      the stream event (None: not armed or still running), the published ready sequence, whether
      a send connection exists, the batch limit (1 without a batch entry point), and the post. */
  datatype World = World(
    event: Option<Status>, readySeq: nat, sendComm: bool, batchMax: nat,
    post: Status, posted: nat, requests: nat -> bool)

  predicate SameBatch(a: Desc, b: Desc) {
    b.kind == Put && b.mr == a.mr && b.key == a.key && b.independent == a.independent && b.group == a.group
  }

  /** Length of the batchable prefix of the ring. */
  function BatchLength(ring: seq<Desc>, limit: nat, readySeq: nat): (n: nat)
    requires limit <= |ring|
    ensures n <= limit
    ensures forall i :: 0 <= i < n ==> ring[i].opSeq <= readySeq && SameBatch(ring[0], ring[i])
  {
    if limit == 0 then 0
    else
      var n := BatchLength(ring, limit - 1, readySeq);
      if n == limit - 1 && ring[n].opSeq <= readySeq && SameBatch(ring[0], ring[n]) then limit else n
  }

  function Min3(a: nat, b: nat, c: nat): nat {
    var m := if a < b then a else b;
    if m < c then m else c
  }

  function Launch(p: Peer, f: Flight): Peer
    requires p.ring != []
  {
    p.(ring := p.ring[1..], flight := p.flight + [f])
  }

  /** flagcxRmaProxyTrackGetVisibility: GET sequence (0: untracked) and the domain table. */
  function TrackGet(p: Peer, d: Desc): (r: (map<nat, Visibility.Domain>, nat, Status)) {
    if !d.needsFlush then (p.domains, 0, Success)
    else if d.key !in p.domains && |p.domains| >= p.queueSize then (p.domains, 0, InternalError)
    else
      var current := if d.key in p.domains then p.domains[d.key] else Visibility.NewDomain;
      var (dom, st) := Visibility.Issue(current);
      (p.domains[d.key := dom], if st == Success then dom.issued else 0, st)
  }

  /** Posts the head alone. */
  function PostHead(p: Peer, w: World): (r: (Peer, bool, bool))
    requires p.ring != []
  {
    var d := p.ring[0];
    var p1 := p.(posted := p.posted + {d.opSeq});
    if w.post == InProgress then (p1, false, false)
    else if w.post != Success then (Launch(p1, Flight(d, false, w.post, false, 0)), true, false)
    else
      var (doms, n, st) := TrackGet(p, d);
      (Launch(p1, Flight(d, w.requests(0), st, false, n)).(domains := doms), st != Success, true)
  }

  /** flagcxRmaBatchPostResultIsFatal. */
  predicate BatchFatal(res: Status, posted: nat, count: nat) {
    posted > count || (if res == Success then posted != count else res != InProgress)
  }

  function BatchFlights(ring: seq<Desc>, n: nat, requests: nat -> bool): (fs: seq<Flight>)
    requires n <= |ring|
    ensures |fs| == n
    ensures forall i :: 0 <= i < n ==> fs[i] == Flight(ring[i], requests(i), Success, false, 0)
  {
    seq(n, i requires 0 <= i < n => Flight(ring[i], requests(i), Success, false, 0))
  }

  function HeadSeqs(ring: seq<Desc>, n: nat): set<nat>
    requires n <= |ring|
  {
    set i | 0 <= i < n :: ring[i].opSeq
  }

  /** Posts the first `count` ring entries as one native batch. */
  function PostBatch(p: Peer, count: nat, w: World): (r: (Peer, bool, bool))
    requires count <= |p.ring|
  {
    var p1 := p.(posted := p.posted + HeadSeqs(p.ring, count));
    var posted := if w.posted > count then 0 else w.posted;
    var fatal := BatchFatal(w.post, w.posted, count);
    if posted == 0 then (p1, fatal, false)
    else
      (p1.(ring := p.ring[posted..], flight := p.flight + BatchFlights(p.ring, posted, w.requests)),
       fatal, !fatal)
  }

  /** What one iteration of the issue loop does with the ring head. */
  datatype Choice = Wait | Deny(error: Status) | Conclude(result: Status) | PostOne | PostMany(count: nat)

  function Decide(p: Peer, w: World): (c: Choice)
    requires p.ring != []
    ensures c.PostMany? ==> 1 < c.count <= |p.ring| && |p.flight| + c.count <= p.queueSize
  {
    var d := p.ring[0];
    if |p.flight| >= p.queueSize then Wait
    else if d.kind == Release && (d.group !in p.board.groups || !GroupTest(p.board.groups[d.group]).0) then Wait
    else if d.kind == Release && !ReleaseAllowed(p, d)
    then
      var e := GroupTest(p.board.groups[d.group]).2;
      Deny(if e == Success then InternalError else e)
    else if d.event && (w.event.None? || w.event.value == InProgress) then Wait
    else if d.event && d.kind == IpcGet
    then if p.done < d.opSeq - 1 then Wait else Conclude(w.event.value)
    else if d.event && w.event.value != Success then Conclude(w.event.value)
    else
      var readySeq := if d.event then UINT64_MAX else w.readySeq;
      if !d.event && readySeq < d.opSeq then Wait
      else if !w.sendComm then Wait
      else if d.kind != Put then PostOne
      else
        var n := BatchLength(p.ring, Min3(|p.ring|, p.queueSize - |p.flight|, w.batchMax), readySeq);
        if n > 1 then PostMany(n) else PostOne
  }

  /** One iteration on a non-empty ring: new state, pending error recorded, loop continues. */
  function Issue(p: Peer, w: World): (r: (Peer, bool, bool))
    requires p.ring != []
  {
    var d := p.ring[0];
    match Decide(p, w)
    case Wait => (p, false, false)
    case Deny(e) => (Launch(p, Flight(d, false, e, false, 0)), false, true)
    case Conclude(result) =>
      var (q, raise) := Retire(p.(ring := p.ring[1..]), d, result);
      (q, raise, d.kind == IpcGet && result == Success)
    case PostOne => PostHead(p, w)
    case PostMany(n) => PostBatch(p, n, w)
  }

  predicate ReleaseAllowed(p: Peer, d: Desc)
    requires d.group in p.board.groups
  {
    var (done, allowed, result) := GroupTest(p.board.groups[d.group]);
    done && allowed && result == Success
  }

  // ------------------------------------------------------------------------------- drain

  /** One iteration of flagcxRmaProxyDrainRing. */
  function DrainOne(p: Peer): Peer
    requires p.ring != []
  {
    Retire(p.(ring := p.ring[1..]), p.ring[0], RemoteError).0
  }

  /** Its loop, which stops when the ring looks empty. */
  function DrainRing(p: Peer): (r: Peer)
    ensures LooksEmpty(r)
    decreases |p.ring|
  {
    if LooksEmpty(p) then p else DrainRing(DrainOne(p))
  }
}
