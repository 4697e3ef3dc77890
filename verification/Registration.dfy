// One-sided registration as n ranks run it (flagcx/flagcx.cc, flagcxOneSideRegisterInternal): each
// rank executes its own program, local operations may fail on any rank, and the ranks meet only in
// collectives. A collective completes when every rank has arrived at one of the same kind.

module Registration {
  import opened Results
  import opened Convergence
  import PublishSlot

  datatype Handle = Handle(
    buff: nat, size: nat, vmmRoute: bool, published: bool, windowRefs: nat, commOwned: bool)

  /** What one rank is asked to register. */
  datatype Args = Args(buff: nat, size: nat, isVmm: bool)

  /** The same on all ranks: who is taking part, which kind of reference, how many contexts. */
  datatype Env = Env(args: seq<Args>, tables: seq<seq<Option<Handle>>>, acquire: bool, nContexts: nat)

  /** Local memory of a rank: its handle table, the index found by the lookup, and the outcome of the
      connection context being built or of the exchange. */
  datatype Memory = Memory(handles: seq<Option<Handle>>, existing: Option<nat>, context: Status)

  /** The collective a rank has arrived at. */
  datatype Pc =
    | Lookup | ReuseAlloc | ReuseGather | RefCheck | Cleanup
    | CountAlloc | CountGather | OccAlloc(max: nat) | OccGather(max: nat)
    | Capacity(slot: nat) | InfoAlloc(slot: nat)
    | MeshAlloc(slot: nat) | Listen(slot: nat, ctx: nat) | Handles(slot: nat, ctx: nat)
    | Round(slot: nat, ctx: nat, round: nat) | ContextEnd(slot: nat, ctx: nat)
    | MrPrep(slot: nat) | Exchange(slot: nat, part: nat) | Rollback(slot: nat, cause: Status)
    | Done(status: Status, index: Option<nat>, reused: bool, rollbackPending: bool)

  /** What it brings to the collective. */
  datatype Report = Tell(status: Status) | Count(n: nat) | Row(used: seq<bool>) | Went(progress: Progress)

  /** What it takes away. */
  datatype Outcome =
    | Common(status: Status) | Counts(ns: seq<nat>) | Rows(rows: seq<seq<bool>>)
    | RoundOver(status: Status, ready: bool)

  datatype Node = Node(memory: Memory, pc: Pc, report: Report)

  /** Result of the local work before the next collective, chosen freely for each rank. */
  datatype Local = Local(status: Status, ready: bool)

  // ------------------------------------------------------------------ one rank's program

  /** The search for an earlier registration of the same buffer. */
  function FindExisting(hs: seq<Option<Handle>>, a: Args, i: nat): (r: (Status, Option<nat>))
    requires i <= |hs|
    ensures r.1.Some? ==>
      r.0 == Success && r.1.value < |hs| && hs[r.1.value].Some? && hs[r.1.value].value.buff == a.buff
    decreases |hs| - i
  {
    if i == |hs| then (Success, None)
    else if hs[i].Some? && hs[i].value.published && hs[i].value.buff == a.buff then
      if hs[i].value.size != a.size || (a.isVmm && !hs[i].value.vmmRoute) then (InvalidUsage, None)
      else (Success, Some(i))
    else FindExisting(hs, a, i + 1)
  }

  function Used(hs: seq<Option<Handle>>, max: nat): (row: seq<bool>)
    ensures |row| == max
    ensures forall i :: 0 <= i < max ==> (row[i] <==> i < |hs| && hs[i].Some?)
  {
    seq(max, i requires 0 <= i < max => i < |hs| && hs[i].Some?)
  }

  /** The exchange meets four times, for its buffers and for three gathers, and once more for its
      result. */
  const PARTS: nat := 4

  function Arrive(m: Memory, a: Args, pc: Pc, l: Local): Report {
    match pc
    case Lookup => Tell(FindExisting(m.handles, a, 0).0)
    case ReuseGather => Count(if m.existing.Some? then m.existing.value + 1 else 0)
    case RefCheck =>
      Tell(if m.existing.Some? && m.existing.value < |m.handles| && m.handles[m.existing.value].Some?
              && m.handles[m.existing.value].value.windowRefs == UINT32_MAX then SystemError else Success)
    case CountGather => Count(|m.handles|)
    case OccGather(max) => Row(Used(m.handles, max))
    case Round(_, ctx, round) => Went(Progress(ctx, round, l.status, l.ready))
    case ContextEnd(_, _) => Tell(if m.context != Success then m.context else l.status)
    case Exchange(_, part) => Tell(if part >= PARTS then m.context else l.status)
    case _ => Tell(l.status)
  }

  function Set(hs: seq<Option<Handle>>, slot: nat, h: Handle): (r: seq<Option<Handle>>)
    ensures |r| == if slot < |hs| then |hs| else slot + 1
    ensures forall i :: 0 <= i < |r| ==>
      r[i] == if i == slot then Some(h) else if i < |hs| then hs[i] else None
  {
    seq(if slot < |hs| then |hs| else slot + 1,
        i requires 0 <= i => if i == slot then Some(h) else if i < |hs| then hs[i] else None)
  }

  function NewHandle(a: Args, acquire: bool): Handle {
    Handle(a.buff, a.size, a.isVmm, true, if acquire then 1 else 0, !acquire)
  }

  /** A further reference to a handle that is already there. */
  function Reused(h: Handle, acquire: bool): Handle {
    if acquire then h.(windowRefs := h.windowRefs + 1) else h.(commOwned := true)
  }

  function Max(ns: seq<nat>): (m: nat)
    ensures forall i :: 0 <= i < |ns| ==> ns[i] <= m
    ensures m == 0 || m in ns
  {
    if ns == [] then 0 else
      var rest := Max(ns[1..]);
      assert forall i :: 0 < i < |ns| ==> ns[i] == ns[1..][i - 1];
      if ns[0] > rest then ns[0] else rest
  }

  predicate AllEqual(ns: seq<nat>) { forall i :: 0 <= i < |ns| ==> ns[i] == ns[0] }

  function Fail(m: Memory, st: Status): (Memory, Pc) { (m, Done(st, None, false, false)) }

  /** What a rank does with the outcome of its collective. */
  function Resume(m: Memory, a: Args, pc: Pc, o: Outcome, env: Env): (r: (Memory, Pc)) {
    match pc
    case Lookup =>
      if o != Common(Success) then Fail(m, StatusOf(o))
      else (m.(existing := FindExisting(m.handles, a, 0).1), ReuseAlloc)
    case ReuseAlloc => if o != Common(Success) then Fail(m, StatusOf(o)) else (m, ReuseGather)
    case ReuseGather =>
      if !o.Counts? then Fail(m, InternalError)
      else if !AllEqual(o.ns) then Fail(m, InvalidUsage)
      else if m.existing.None? then (m, Cleanup)
      else if env.acquire then (m, RefCheck)
      else Reuse(m, false)
    case RefCheck => if o != Common(Success) then Fail(m, StatusOf(o)) else Reuse(m, true)
    case Cleanup => if o != Common(Success) then Fail(m, StatusOf(o)) else (m, CountAlloc)
    case CountAlloc => if o != Common(Success) then Fail(m, StatusOf(o)) else (m, CountGather)
    case CountGather =>
      if !o.Counts? then Fail(m, InternalError)
      else if Max(o.ns) == 0 then (m, Capacity(0)) else (m, OccAlloc(Max(o.ns)))
    case OccAlloc(max) => if o != Common(Success) then Fail(m, StatusOf(o)) else (m, OccGather(max))
    case OccGather(max) =>
      if !o.Rows? then Fail(m, InternalError)
      else
        var s := PublishSlot.SelectSlot(o.rows, max);
        if s.None? then Fail(m, InvalidUsage) else (m, Capacity(s.value))
    case Capacity(slot) => if o != Common(Success) then Fail(m, StatusOf(o)) else (m, InfoAlloc(slot))
    case InfoAlloc(slot) =>
      if o != Common(Success) then Fail(m, StatusOf(o))
      else if slot == 0 then (m, MeshAlloc(slot)) else (m, MrPrep(slot))
    case MeshAlloc(slot) => if o != Common(Success) then Fail(m, StatusOf(o)) else (m, Listen(slot, 0))
    case Listen(slot, ctx) =>
      if o != Common(Success) then (m.(context := StatusOf(o)), ContextEnd(slot, ctx)) else (m, Handles(slot, ctx))
    case Handles(slot, ctx) =>
      if o != Common(Success) then (m.(context := StatusOf(o)), ContextEnd(slot, ctx)) else (m, Round(slot, ctx, 0))
    case Round(slot, ctx, round) =>
      if !o.RoundOver? || o.status != Success then (m.(context := StatusOf(o)), ContextEnd(slot, ctx))
      else if !o.ready then (m, pc)
      else if round + 1 < |env.args| then (m, Round(slot, ctx, round + 1))
      else (m.(context := Success), ContextEnd(slot, ctx))
    case ContextEnd(slot, ctx) =>
      if o != Common(Success) then Fail(m, StatusOf(o))
      else if ctx + 1 < env.nContexts then (m, Listen(slot, ctx + 1)) else (m, MrPrep(slot))
    case MrPrep(slot) =>
      if o != Common(Success) then (m, Rollback(slot, StatusOf(o)))
      else (m.(context := Success), Exchange(slot, 0))
    case Exchange(slot, part) =>
      if part < PARTS then
        if o != Common(Success) then (m.(context := StatusOf(o)), Exchange(slot, PARTS)) else (m, Exchange(slot, part + 1))
      else if o != Common(Success) then (m, Rollback(slot, StatusOf(o)))
      else (m.(handles := Set(m.handles, slot, NewHandle(a, env.acquire))), Done(Success, Some(slot), false, false))
    case Rollback(slot, cause) =>
      (m, Done(if o == Common(Success) then cause else StatusOf(o), None, false, o != Common(Success)))
    case Done(_, _, _, _) => (m, pc)
  }

  function StatusOf(o: Outcome): Status {
    match o
    case Common(st) => st
    case RoundOver(st, _) => if st == Success then InternalError else st
    case _ => InternalError
  }

  function Reuse(m: Memory, acquire: bool): (Memory, Pc) {
    if m.existing.None? || m.existing.value >= |m.handles| || m.handles[m.existing.value].None?
    then Fail(m, InternalError)
    else
      var i := m.existing.value;
      (m.(handles := m.handles[i := Some(Reused(m.handles[i].value, acquire))]), Done(Success, Some(i), true, false))
  }

  // ---------------------------------------------------------------------- all the ranks

  ghost predicate EnvOk(env: Env) {
    env.args != [] && |env.tables| == |env.args| && env.nContexts >= 1
  }

  function Start(env: Env, r: nat): Node
    requires r < |env.args| && r < |env.tables|
  {
    var m := Memory(env.tables[r], None, Success);
    Node(m, Lookup, Arrive(m, env.args[r], Lookup, Local(Success, false)))
  }

  /** Every rank waits in a collective of the same kind. */
  predicate Matched(nodes: seq<Node>) {
    && nodes != []
    && (forall r :: 0 <= r < |nodes| ==> !nodes[r].pc.Done?)
    && (|| (forall r :: 0 <= r < |nodes| ==> nodes[r].report.Tell?)
        || (forall r :: 0 <= r < |nodes| ==> nodes[r].report.Count?)
        || (forall r :: 0 <= r < |nodes| ==> nodes[r].report.Row?)
        || (forall r :: 0 <= r < |nodes| ==> nodes[r].report.Went?))
  }

  /** What the collective gives to every rank. */
  function Combine(nodes: seq<Node>): (o: Outcome)
    requires Matched(nodes)
  {
    var n := |nodes|;
    match nodes[0].report
    case Tell(_) => Common(FirstFailure(seq(n, r requires 0 <= r < n => nodes[r].report.status)))
    case Count(_) => Counts(seq(n, r requires 0 <= r < n => nodes[r].report.n))
    case Row(_) => Rows(seq(n, r requires 0 <= r < n => nodes[r].report.used))
    case Went(_) =>
      var ps := seq(n, r requires 0 <= r < n => nodes[r].report.progress);
      RoundOver(if SameRound(ps) then FirstFailure(Statuses(ps)) else InternalError, AllReady(ps))
  }

  /** The collective completes and every rank works its way to the next one. */
  function Step(env: Env, nodes: seq<Node>, locals: seq<Local>): (next: seq<Node>)
    requires Matched(nodes) && |nodes| == |env.args| == |locals|
    ensures |next| == |nodes|
  {
    var o := Combine(nodes);
    seq(|nodes|, r requires 0 <= r < |nodes| =>
      var (m, pc) := Resume(nodes[r].memory, env.args[r], nodes[r].pc, o, env);
      Node(m, pc, Arrive(m, env.args[r], pc, locals[r])))
  }

  // -------------------------------------------------------------------------- lockstep

  /** A rank's report is what its program brings to that collective. */
  ghost predicate Fits(env: Env, node: Node, r: nat)
    requires r < |env.args|
  {
    exists l :: node.report == Arrive(node.memory, env.args[r], node.pc, l)
  }

  /** The slot a registration is working on is free in the rank's table. */
  predicate SlotFree(hs: seq<Option<Handle>>, pc: Pc) {
    match pc
    case Capacity(s) => s >= |hs| || hs[s].None?
    case InfoAlloc(s) => s >= |hs| || hs[s].None?
    case MeshAlloc(s) => s >= |hs| || hs[s].None?
    case Listen(s, _) => s >= |hs| || hs[s].None?
    case Handles(s, _) => s >= |hs| || hs[s].None?
    case Round(s, _, _) => s >= |hs| || hs[s].None?
    case ContextEnd(s, _) => s >= |hs| || hs[s].None?
    case MrPrep(s) => s >= |hs| || hs[s].None?
    case Exchange(s, _) => s >= |hs| || hs[s].None?
    case _ => true
  }

  /** A rank before the end: its table is untouched, and an index it found is a live handle of
      its own buffer. */
  ghost predicate Working(env: Env, node: Node, r: nat)
    requires EnvOk(env) && r < |env.args|
  {
    var m := node.memory;
    && m.handles == env.tables[r]
    && Fits(env, node, r)
    && SlotFree(m.handles, node.pc)
    && (node.pc.OccAlloc? ==> |m.handles| <= node.pc.max)
    && (node.pc.OccGather? ==> |m.handles| <= node.pc.max)
    && (node.pc.Round? ==> node.pc.round < |env.args|)
    && (m.existing.Some? ==>
          && m.existing.value < |m.handles| && m.handles[m.existing.value].Some?
          && m.handles[m.existing.value].value.buff == env.args[r].buff)
    && (node.pc.RefCheck? ==> m.existing.Some? && env.acquire)
    && (node.pc.Rollback? ==> node.pc.cause != Success)
  }

  /** A rank at the end: success changed exactly the agreed index, failure changed nothing. */
  ghost predicate Finished(env: Env, node: Node, r: nat)
    requires EnvOk(env) && r < |env.args| && node.pc.Done?
  {
    var before := env.tables[r];
    match node.pc.index
    case None => node.pc.status != Success && node.memory.handles == before
    case Some(i) =>
      && node.pc.status == Success
      && if node.pc.reused
         then Live(before, i) && before[i].value.buff == env.args[r].buff
              && node.memory.handles == before[i := Some(Reused(before[i].value, env.acquire))]
         else !Live(before, i) && node.memory.handles == Set(before, i, NewHandle(env.args[r], env.acquire))
  }

  predicate Live(hs: seq<Option<Handle>>, i: nat) { i < |hs| && hs[i].Some? }

  ghost predicate Lockstep(env: Env, nodes: seq<Node>)
    requires EnvOk(env)
  {
    && |nodes| == |env.args|
    && (forall r :: 0 <= r < |nodes| ==> nodes[r].pc == nodes[0].pc)
    && (forall r :: 0 <= r < |nodes| ==>
          if nodes[r].pc.Done? then Finished(env, nodes[r], r) else Working(env, nodes[r], r))
    && (nodes[0].pc.RefCheck? ==>
          forall r :: 0 <= r < |nodes| ==> nodes[r].memory.existing == nodes[0].memory.existing)
  }

  lemma StartLockstep(env: Env, nodes: seq<Node>)
    requires EnvOk(env) && |nodes| == |env.args|
    requires forall r :: 0 <= r < |nodes| ==> nodes[r] == Start(env, r)
    ensures Lockstep(env, nodes)
  {
    forall r | 0 <= r < |nodes| ensures Working(env, nodes[r], r) {
      assert nodes[r].report == Arrive(nodes[r].memory, env.args[r], Lookup, Local(Success, false));
    }
    hide Working;
  }

  /** The kind of collective depends on the program point only. */
  lemma KindOfPc(m: Memory, a: Args, pc: Pc, l: Local)
    ensures var rep := Arrive(m, a, pc, l);
      && rep.Count? == (pc.ReuseGather? || pc.CountGather?)
      && rep.Row? == pc.OccGather? && rep.Went? == pc.Round?
      && (pc.ReuseGather? ==> rep == Count(if m.existing.Some? then m.existing.value + 1 else 0))
      && (pc.CountGather? ==> rep == Count(|m.handles|))
      && (pc.OccGather? ==> rep == Row(Used(m.handles, pc.max)))
      && (pc.Round? ==> rep.progress.context == pc.ctx && rep.progress.round == pc.round)
  {}

  lemma FitsKind(env: Env, node: Node, r: nat)
    requires r < |env.args| && Fits(env, node, r)
    ensures var rep, m, pc := node.report, node.memory, node.pc;
      && rep.Count? == (pc.ReuseGather? || pc.CountGather?)
      && rep.Row? == pc.OccGather? && rep.Went? == pc.Round?
      && (pc.ReuseGather? ==> rep == Count(if m.existing.Some? then m.existing.value + 1 else 0))
      && (pc.CountGather? ==> rep == Count(|m.handles|))
      && (pc.OccGather? ==> rep == Row(Used(m.handles, pc.max)))
      && (pc.Round? ==> rep.progress.context == pc.ctx && rep.progress.round == pc.round)
  {
    var l :| node.report == Arrive(node.memory, env.args[r], node.pc, l);
    KindOfPc(node.memory, env.args[r], node.pc, l);
  }

  lemma LockstepMatches(env: Env, nodes: seq<Node>)
    requires EnvOk(env) && Lockstep(env, nodes) && !nodes[0].pc.Done?
    ensures Matched(nodes)
    ensures nodes[0].pc.Round? ==>
      forall r :: 0 <= r < |nodes| ==>
        && nodes[r].report.Went?
        && nodes[r].report.progress.context == nodes[0].pc.ctx && nodes[r].report.progress.round == nodes[0].pc.round
  {
    forall r | 0 <= r < |nodes|
      ensures nodes[r].report.Count? == (nodes[0].pc.ReuseGather? || nodes[0].pc.CountGather?)
      ensures nodes[r].report.Row? == nodes[0].pc.OccGather? && nodes[r].report.Went? == nodes[0].pc.Round?
      ensures nodes[0].pc.Round? ==>
        nodes[r].report.progress.context == nodes[0].pc.ctx && nodes[r].report.progress.round == nodes[0].pc.round
    {
      assert Working(env, nodes[r], r) && nodes[r].pc == nodes[0].pc;
      FitsKind(env, nodes[r], r);
    }
  }

  /** The outcome contains what the rank brought. */
  ghost predicate Heard(o: Outcome, node: Node, r: nat, n: nat) {
    && (o.Counts? ==> |o.ns| == n && r < n && node.report == Count(o.ns[r]))
    && (o.Rows? ==> |o.rows| == n && r < n && node.report == Row(o.rows[r]))
  }

  lemma CombineHeard(nodes: seq<Node>, r: nat)
    requires Matched(nodes) && r < |nodes|
    ensures Heard(Combine(nodes), nodes[r], r, |nodes|)
    ensures Combine(nodes).Counts? == nodes[r].report.Count?
    ensures Combine(nodes).Rows? == nodes[r].report.Row?
  {}

  lemma RowsAreMatrix(env: Env, nodes: seq<Node>)
    requires EnvOk(env) && Lockstep(env, nodes) && nodes[0].pc.OccGather? && Matched(nodes)
    ensures Combine(nodes).Rows? && PublishSlot.Matrix(Combine(nodes).rows, nodes[0].pc.max)
  {
    var o := Combine(nodes);
    forall r | 0 <= r < |nodes| ensures o.Rows? && |o.rows| == |nodes| && |o.rows[r]| == nodes[0].pc.max {
      assert Working(env, nodes[r], r) && nodes[r].pc == nodes[0].pc;
      FitsKind(env, nodes[r], r);
      CombineHeard(nodes, r);
    }
  }

  // --------------------------------------------------------------- one rank's next step

  lemma ExistingIsLive(hs: seq<Option<Handle>>, a: Args)
    ensures var e := FindExisting(hs, a, 0).1;
      e.Some? ==> e.value < |hs| && hs[e.value].Some? && hs[e.value].value.buff == a.buff
  {}

  /** The slot every rank computes is free in this rank's table. */
  lemma ChosenSlotFree(env: Env, node: Node, r: nat, o: Outcome)
    requires EnvOk(env) && r < |env.args| && Working(env, node, r)
    requires Heard(o, node, r, |env.args|)
    requires node.pc.OccGather? ==> o.Rows? && PublishSlot.Matrix(o.rows, node.pc.max)
    requires node.pc.CountGather? ==> o.Counts?
    requires node.pc.OccGather? || node.pc.CountGather?
    ensures var (m, pc) := Resume(node.memory, env.args[r], node.pc, o, env);
      SlotFree(m.handles, pc) && (pc.OccAlloc? ==> |m.handles| <= pc.max)
  {
    FitsKind(env, node, r);
    if node.pc.OccGather? {
      var s := PublishSlot.SelectSlot(o.rows, node.pc.max);
      if s.Some? { PublishSlot.SelectedIsFree(o.rows, node.pc.max); }
      hide PublishSlot.SelectSlot, PublishSlot.Matrix;
    }
  }

  lemma RankFinishes(env: Env, node: Node, r: nat, o: Outcome)
    requires EnvOk(env) && r < |env.args| && Working(env, node, r) && !node.pc.Done?
    ensures var (m, pc) := Resume(node.memory, env.args[r], node.pc, o, env);
      pc.Done? ==> forall rep :: Finished(env, Node(m, pc, rep), r)
  {
    hide FindExisting, PublishSlot.SelectSlot, Max, AllEqual, Arrive, Fits;
  }

  lemma RankWorks(env: Env, node: Node, r: nat, o: Outcome)
    requires EnvOk(env) && r < |env.args| && Working(env, node, r) && !node.pc.Done?
    requires !node.pc.OccGather? && !node.pc.CountGather?
    ensures var (m, pc) := Resume(node.memory, env.args[r], node.pc, o, env);
      !pc.Done? ==> forall rep :: Fits(env, Node(m, pc, rep), r) ==> Working(env, Node(m, pc, rep), r)
  {
    hide FindExisting, PublishSlot.SelectSlot, Max, AllEqual, Arrive, Fits;
    ExistingIsLive(node.memory.handles, env.args[r]);
  }

  lemma RankChooses(env: Env, node: Node, r: nat, o: Outcome)
    requires EnvOk(env) && r < |env.args| && Working(env, node, r)
    requires Heard(o, node, r, |env.args|)
    requires node.pc.OccGather? ==> o.Rows? && PublishSlot.Matrix(o.rows, node.pc.max)
    requires node.pc.CountGather? ==> o.Counts?
    requires node.pc.OccGather? || node.pc.CountGather?
    ensures var (m, pc) := Resume(node.memory, env.args[r], node.pc, o, env);
      !pc.Done? ==> forall rep :: Fits(env, Node(m, pc, rep), r) ==> Working(env, Node(m, pc, rep), r)
  {
    ChosenSlotFree(env, node, r, o);
    hide FindExisting, PublishSlot.SelectSlot, PublishSlot.Matrix, Max, AllEqual, Arrive, Fits, SlotFree;
  }

  lemma RankProceeds(env: Env, node: Node, r: nat, o: Outcome, l: Local)
    requires EnvOk(env) && r < |env.args| && Working(env, node, r) && !node.pc.Done?
    requires Heard(o, node, r, |env.args|)
    requires node.pc.OccGather? ==> o.Rows? && PublishSlot.Matrix(o.rows, node.pc.max)
    requires node.pc.CountGather? ==> o.Counts?
    ensures var (m, pc) := Resume(node.memory, env.args[r], node.pc, o, env);
      var next := Node(m, pc, Arrive(m, env.args[r], pc, l));
      if pc.Done? then Finished(env, next, r) else Working(env, next, r)
  {
    var (m, pc) := Resume(node.memory, env.args[r], node.pc, o, env);
    assert Fits(env, Node(m, pc, Arrive(m, env.args[r], pc, l)), r);
    RankFinishes(env, node, r, o);
    if node.pc.OccGather? || node.pc.CountGather? { RankChooses(env, node, r, o); } else { RankWorks(env, node, r, o); }
    hide Resume, Arrive, Fits, Working, Finished;
  }

  /** Where a rank goes next is decided by what all ranks share. */
  lemma SameDecision(env: Env, nodes: seq<Node>, o: Outcome, r: nat)
    requires EnvOk(env) && Lockstep(env, nodes) && r < |nodes| && !nodes[0].pc.Done?
    requires Heard(o, nodes[r], r, |nodes|) && Heard(o, nodes[0], 0, |nodes|)
    ensures var (m0, pc0) := Resume(nodes[0].memory, env.args[0], nodes[0].pc, o, env);
      var (m, pc) := Resume(nodes[r].memory, env.args[r], nodes[r].pc, o, env);
      pc == pc0 && (pc.RefCheck? ==> m.existing == m0.existing)
  {
    assert Working(env, nodes[r], r) && Working(env, nodes[0], 0) && nodes[r].pc == nodes[0].pc;
    FitsKind(env, nodes[r], r);
    FitsKind(env, nodes[0], 0);
    hide FindExisting, PublishSlot.SelectSlot, Max, Arrive, Fits, SlotFree;
  }

  lemma StepKeepsLockstep(env: Env, nodes: seq<Node>, locals: seq<Local>)
    requires EnvOk(env) && Lockstep(env, nodes) && !nodes[0].pc.Done? && |locals| == |env.args|
    ensures Matched(nodes) && Lockstep(env, Step(env, nodes, locals))
  {
    LockstepMatches(env, nodes);
    var o := Combine(nodes);
    var next := Step(env, nodes, locals);
    if nodes[0].pc.OccGather? { RowsAreMatrix(env, nodes); }
    forall r | 0 <= r < |nodes|
      ensures next[r].pc == next[0].pc
      ensures if next[r].pc.Done? then Finished(env, next[r], r) else Working(env, next[r], r)
      ensures next[r].pc.RefCheck? ==> next[r].memory.existing == next[0].memory.existing
    {
      assert Working(env, nodes[r], r) && nodes[r].pc == nodes[0].pc;
      FitsKind(env, nodes[r], r);
      CombineHeard(nodes, r);
      CombineHeard(nodes, 0);
      hide Working, Finished, Resume, Arrive, Combine, Fits, Heard;
      SameDecision(env, nodes, o, r);
      RankProceeds(env, nodes[r], r, o, locals[r]);
    }
    hide Working, Finished, Resume, Arrive, Combine, Fits, Heard;
  }

  // ------------------------------------------------------------------------------ runs

  /** A run: the ranks start, and then collectives complete one after the other. */
  ghost predicate Run(env: Env, xs: seq<seq<Node>>, locals: seq<seq<Local>>) {
    && EnvOk(env) && |xs| == |locals| + 1
    && |xs[0]| == |env.args| && (forall r :: 0 <= r < |xs[0]| ==> xs[0][r] == Start(env, r))
    && (forall i :: 0 <= i < |locals| ==>
          Matched(xs[i]) && |xs[i]| == |env.args| == |locals[i]| && xs[i + 1] == Step(env, xs[i], locals[i]))
  }

  lemma {:induction false} RunLockstep(env: Env, xs: seq<seq<Node>>, locals: seq<seq<Local>>, i: nat)
    requires Run(env, xs, locals) && i < |xs|
    ensures Lockstep(env, xs[i])
    decreases i
  {
    hide Lockstep, Step;
    if i == 0 {
      StartLockstep(env, xs[0]);
    } else {
      RunLockstep(env, xs, locals, i - 1);
      assert Matched(xs[i - 1]) && xs[i - 1 + 1] == Step(env, xs[i - 1], locals[i - 1]);
      StepKeepsLockstep(env, xs[i - 1], locals[i - 1]);
    }
  }

  /** In no run is a rank ever left alone in a collective: until all return, all wait in one of the same
      kind, and in a connection round in the same context and round. */
  lemma NeverStuck(env: Env, xs: seq<seq<Node>>, locals: seq<seq<Local>>, i: nat)
    requires Run(env, xs, locals) && i < |xs|
    ensures |xs[i]| == |env.args| > 0
    ensures (forall r :: 0 <= r < |xs[i]| ==> xs[i][r].pc.Done?) || Matched(xs[i])
    ensures xs[i][0].pc.Round? ==>
      forall r :: 0 <= r < |xs[i]| ==>
        && xs[i][r].report.Went?
        && xs[i][r].report.progress.context == xs[i][0].pc.ctx && xs[i][r].report.progress.round == xs[i][0].pc.round
  {
    RunLockstep(env, xs, locals, i);
    if !xs[i][0].pc.Done? { LockstepMatches(env, xs[i]); }
    hide Finished, Working, Matched;
  }

  /** Whatever fails on whichever rank: either all ranks are waiting in the same collective with
      their tables untouched, or all have returned, with the same status. Then they have all
      published at the same index, which was live on no rank; or all taken a further reference to
      the handle at the same index; or none has changed its table. */
  lemma AllOrNothing(env: Env, xs: seq<seq<Node>>, locals: seq<seq<Local>>, i: nat)
    requires Run(env, xs, locals) && i < |xs|
    ensures |xs[i]| == |env.args|
    ensures forall r :: 0 <= r < |xs[i]| ==> xs[i][r].pc == xs[i][0].pc
    ensures !xs[i][0].pc.Done? ==>
      Matched(xs[i]) && forall r :: 0 <= r < |xs[i]| ==> xs[i][r].memory.handles == env.tables[r]
    ensures xs[i][0].pc.Done? ==>
      var pc := xs[i][0].pc;
      && (pc.status == Success <==> pc.index.Some?)
      && forall r :: 0 <= r < |xs[i]| ==>
           var before, after := env.tables[r], xs[i][r].memory.handles;
           match pc.index
           case None => after == before
           case Some(k) =>
             if pc.reused
             then Live(before, k) && before[k].value.buff == env.args[r].buff
                  && after == before[k := Some(Reused(before[k].value, env.acquire))]
             else !Live(before, k) && after == Set(before, k, NewHandle(env.args[r], env.acquire))
  {
    RunLockstep(env, xs, locals, i);
    if xs[i][0].pc.Done? {
      assert Finished(env, xs[i][0], 0);
      forall r | 0 <= r < |xs[i]| ensures xs[i][r].pc.Done? && Finished(env, xs[i][r], r) {
        assert xs[i][r].pc == xs[i][0].pc;
      }
    } else {
      LockstepMatches(env, xs[i]);
      forall r | 0 <= r < |xs[i]| ensures xs[i][r].memory.handles == env.tables[r] {
        assert xs[i][r].pc == xs[i][0].pc && Working(env, xs[i][r], r);
      }
    }
    hide Finished, Working, Matched;
  }
}
