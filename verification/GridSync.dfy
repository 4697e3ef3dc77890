// The grid-wide barrier of one device (bindings/ir/flagcx_device_scalar_ir_impl.h, flagcxGridSync):
// the first thread of every block meets the others through a shared counter and a sense word. Any
// number of blocks run, interleaved one memory access at a time.

module GridSync {
  import opened Results

  /** Where a block stands in flagcxGridSync; curSense is the sense word it has read. */
  datatype Pc =
    | Outside
    | Loaded(curSense: nat)
    | Last(curSense: nat)
    | Flipping(curSense: nat)
    | Spinning(curSense: nat)

  /** A block and the number of calls it has left. */
  datatype Block = Block(pc: Pc, left: nat)

  /** The two words of gridSyncState, the blocks, and the number of times the sense has flipped. */
  datatype Grid = Grid(counter: nat, sense: nat, blocks: seq<Block>, flips: nat)

  /** 1u - curSense in 32 bits. */
  function Other(sense: nat): nat { (UINT32_MAX + 2 - sense % (UINT32_MAX + 1)) % (UINT32_MAX + 1) }

  function NewGrid(n: nat, sense: nat): Grid { Grid(0, sense, seq(n, i => Block(Outside, 0)), 0) }

  function At(g: Grid, i: nat, pc: Pc): Grid
    requires i < |g.blocks|
  {
    g.(blocks := g.blocks[i := g.blocks[i].(pc := pc)])
  }

  function Leave(g: Grid, i: nat): Grid
    requires i < |g.blocks|
  {
    g.(blocks := g.blocks[i := Block(Outside, g.blocks[i].left + 1)])
  }

  /** The next memory access of block i; a block outside starts its next call. */
  function Step(g: Grid, i: nat): Grid
    requires i < |g.blocks|
  {
    match g.blocks[i].pc
    case Outside => At(g, i, Loaded(g.sense))
    case Loaded(cur) =>
      var arrived := (g.counter + 1) % (UINT32_MAX + 1);
      At(g, i, if arrived == |g.blocks| then Last(cur) else Spinning(cur)).(counter := arrived)
    case Last(cur) => At(g, i, Flipping(cur)).(counter := 0)
    case Flipping(cur) => Leave(g, i).(sense := Other(cur), flips := g.flips + 1)
    case Spinning(cur) => if g.sense == cur then g else Leave(g, i)
  }

  /** The grid after the blocks of a schedule have each taken a step. */
  function RunOf(g: Grid, schedule: seq<nat>): (r: Grid)
    requires forall k :: 0 <= k < |schedule| ==> schedule[k] < |g.blocks|
    ensures |r.blocks| == |g.blocks|
  {
    if schedule == [] then g else
      var n := |schedule| - 1;
      Step(RunOf(g, schedule[..n]), schedule[n])
  }

  /** The number of calls a block has arrived at: it has counted itself in its current one. */
  function Arrived(b: Block): nat {
    if b.pc.Outside? || b.pc.Loaded? then b.left else b.left + 1
  }

  // ------------------------------------------------------------ invariant

  predicate Waits(g: Grid, i: nat) {
    i < |g.blocks| && (g.blocks[i].pc.Spinning? || g.blocks[i].pc.Last?) && g.blocks[i].left == g.flips
  }

  function Waiters(g: Grid): set<nat> { set i: nat | i < |g.blocks| && Waits(g, i) }

  /** Every block is in the current episode, except spinners that have not yet seen the last flip. */
  predicate BlockOk(g: Grid, i: nat)
    requires i < |g.blocks|
  {
    var b := g.blocks[i];
    || (b.left == g.flips && (b.pc.Outside? || b.pc.curSense == g.sense))
    || (b.left + 1 == g.flips && b.pc.Spinning? && b.pc.curSense == Other(g.sense))
  }

  predicate Ends(b: Block) { b.pc.Last? || b.pc.Flipping? }

  /** While a block ends the episode, the others spin; the counter is full and then cleared. */
  predicate EndOk(g: Grid, j: nat)
    requires j < |g.blocks|
  {
    Ends(g.blocks[j]) ==>
      && g.counter == (if g.blocks[j].pc.Last? then |g.blocks| else 0)
      && (forall i :: 0 <= i < |g.blocks| && i != j ==> g.blocks[i].pc.Spinning? && Waits(g, i))
  }

  predicate NobodyEnds(g: Grid) { forall j :: 0 <= j < |g.blocks| ==> !Ends(g.blocks[j]) }

  predicate Inv(g: Grid) {
    && 1 <= |g.blocks| <= UINT32_MAX
    && g.sense <= UINT32_MAX
    && (forall i :: 0 <= i < |g.blocks| ==> BlockOk(g, i) && EndOk(g, i))
    && (NobodyEnds(g) ==> g.counter == |Waiters(g)| < |g.blocks|)
  }

  lemma OtherDiffers(sense: nat)
    requires sense <= UINT32_MAX
    ensures Other(sense) <= UINT32_MAX && Other(sense) != sense && Other(Other(sense)) == sense
  {}

  /** All blocks wait exactly when as many wait as there are blocks. */
  lemma AllWait(g: Grid)
    ensures |Waiters(g)| <= |g.blocks|
    ensures |Waiters(g)| == |g.blocks| <==> forall i :: 0 <= i < |g.blocks| ==> Waits(g, i)
  {
    var all := Range(0, |g.blocks|);
    SubsetSize(Waiters(g), all);
    if |Waiters(g)| == |g.blocks| {
      forall i | 0 <= i < |g.blocks|
        ensures Waits(g, i)
      {
        assert i in all;
      }
    }
    if forall i :: 0 <= i < |g.blocks| ==> Waits(g, i) {
      assert Waiters(g) == all;
    }
  }

  lemma SameWaiters(g: Grid, h: Grid)
    requires |h.blocks| == |g.blocks|
    requires forall i :: 0 <= i < |g.blocks| ==> Waits(h, i) == Waits(g, i)
    ensures Waiters(h) == Waiters(g)
  {
    forall i: nat ensures i in Waiters(h) <==> i in Waiters(g) {}
  }

  /** A block that neither waits nor ends the episode shows that nobody ends it. */
  lemma NobodyEndsYet(g: Grid, i: nat)
    requires Inv(g) && i < |g.blocks| && !Waits(g, i) && !Ends(g.blocks[i])
    ensures NobodyEnds(g) && g.counter == |Waiters(g)| < |g.blocks|
  {
    forall j | 0 <= j < |g.blocks|
      ensures !Ends(g.blocks[j])
    {
      assert EndOk(g, j);
    }
  }

  /** A step that changes neither the waiters nor the shared words, taken while nobody ends the episode. */
  lemma MoveKeeps(g: Grid, h: Grid, i: nat)
    requires Inv(g) && i < |g.blocks| && NobodyEnds(g)
    requires |h.blocks| == |g.blocks| && h == g.(blocks := h.blocks) && BlockOk(h, i)
    requires !Waits(g, i) && !Waits(h, i) && !Ends(h.blocks[i])
    requires forall j :: 0 <= j < |g.blocks| && j != i ==> h.blocks[j] == g.blocks[j]
    ensures Inv(h)
  {
    SameWaiters(g, h);
    forall j | 0 <= j < |g.blocks|
      ensures BlockOk(h, j) && EndOk(h, j)
    {
      assert BlockOk(g, j);
    }
  }

  /** The arriving block joins the waiters, and the counter counts them. */
  lemma ArriveWaiters(g: Grid, h: Grid, i: nat)
    requires Inv(g) && NobodyEnds(g) && i < |g.blocks| && g.blocks[i].pc.Loaded? && h == Step(g, i)
    ensures i !in Waiters(g) && Waiters(h) == Waiters(g) + {i} && h.counter == |Waiters(h)|
  {
    NobodyEndsYet(g, i);
    assert BlockOk(g, i);
    assert Waiters(h) == Waiters(g) + {i} by {
      forall j: nat ensures j in Waiters(h) <==> j in Waiters(g) || j == i {}
    }
  }

  lemma ArriveKeeps(g: Grid, i: nat)
    requires Inv(g) && i < |g.blocks| && g.blocks[i].pc.Loaded?
    ensures Inv(Step(g, i))
  {
    NobodyEndsYet(g, i);
    var h := Step(g, i);
    ArriveWaiters(g, h, i);
    hide Waiters;
    AllWait(h);
    forall j | 0 <= j < |g.blocks|
      ensures BlockOk(h, j) && (j != i ==> !Ends(h.blocks[j]))
    {
      assert BlockOk(g, j) && !Ends(g.blocks[j]);
    }
    if Ends(h.blocks[i]) {
      forall j | 0 <= j < |g.blocks| && j != i
        ensures h.blocks[j].pc.Spinning? && Waits(h, j)
      {
        assert Waits(h, j);
      }
    }
    assert EndOk(h, i);
    assert h.counter == |h.blocks| ==> Ends(h.blocks[i]);
  }

  /** The last block clears the counter while all the others spin. */
  lemma ResetKeeps(g: Grid, i: nat)
    requires Inv(g) && i < |g.blocks| && g.blocks[i].pc.Last?
    ensures Inv(Step(g, i))
  {
    var h := Step(g, i);
    assert EndOk(g, i);
    forall j | 0 <= j < |g.blocks|
      ensures BlockOk(h, j) && EndOk(h, j)
    {
      assert BlockOk(g, j);
      assert j != i ==> Waits(g, j);
    }
    assert Ends(h.blocks[i]);
  }

  lemma FlipKeeps(g: Grid, i: nat)
    requires Inv(g) && i < |g.blocks| && g.blocks[i].pc.Flipping?
    ensures Inv(Step(g, i))
  {
    var h := Step(g, i);
    assert EndOk(g, i) && BlockOk(g, i);
    OtherDiffers(g.sense);
    forall j | 0 <= j < |g.blocks|
      ensures BlockOk(h, j) && !Waits(h, j) && EndOk(h, j)
    {
      assert BlockOk(g, j);
      assert j != i ==> Waits(g, j);
    }
    assert Waiters(h) == {};
  }

  lemma StepKeeps(g: Grid, i: nat)
    requires Inv(g) && i < |g.blocks|
    ensures Inv(Step(g, i))
  {
    assert BlockOk(g, i);
    OtherDiffers(g.sense);
    match g.blocks[i].pc
    case Outside =>
      NobodyEndsYet(g, i);
      MoveKeeps(g, Step(g, i), i);
    case Loaded(_) => ArriveKeeps(g, i);
    case Last(_) => ResetKeeps(g, i);
    case Flipping(_) => FlipKeeps(g, i);
    case Spinning(cur) =>
      if g.sense != cur {
        NobodyEndsYet(g, i);
        MoveKeeps(g, Step(g, i), i);
      }
  }

  lemma {:induction false} RunKeeps(n: nat, sense: nat, schedule: seq<nat>)
    requires 1 <= n <= UINT32_MAX && sense <= UINT32_MAX
    requires forall k :: 0 <= k < |schedule| ==> schedule[k] < n
    ensures Inv(RunOf(NewGrid(n, sense), schedule))
    decreases |schedule|
  {
    if schedule == [] {
      var g := NewGrid(n, sense);
      assert Waiters(g) == {} by { forall i: nat ensures i !in Waiters(g) {} }
    }
    if schedule != [] {
      var m := |schedule| - 1;
      RunKeeps(n, sense, schedule[..m]);
      StepKeeps(RunOf(NewGrid(n, sense), schedule[..m]), schedule[m]);
    }
  }

  // ------------------------------------------------------------ what the barrier promises

  /** Whatever the interleaving: no block has left its k-th call before every block has arrived at its
      k-th call, and no block is more than one call ahead of another. */
  lemma NobodyLeavesEarly(n: nat, sense: nat, schedule: seq<nat>, i: nat, j: nat)
    requires 1 <= n <= UINT32_MAX && sense <= UINT32_MAX && i < n && j < n
    requires forall k :: 0 <= k < |schedule| ==> schedule[k] < n
    ensures var bs := RunOf(NewGrid(n, sense), schedule).blocks;
      bs[i].left <= Arrived(bs[j]) && bs[i].left <= bs[j].left + 1 && Arrived(bs[i]) <= Arrived(bs[j]) + 1
  {
    RunKeeps(n, sense, schedule);
    var g := RunOf(NewGrid(n, sense), schedule);
    assert BlockOk(g, i) && BlockOk(g, j) && EndOk(g, i) && EndOk(g, j);
  }

  lemma FlipFinds(g: Grid, i: nat, j: nat)
    requires Inv(g) && i < |g.blocks| && j < |g.blocks| && g.blocks[i].pc.Flipping?
    ensures g.counter == 0 && g.blocks[i].left == g.blocks[j].left == g.flips
    ensures j != i ==> g.blocks[j].pc == Spinning(g.sense)
  {
    assert BlockOk(g, i) && EndOk(g, i);
    assert j != i ==> g.blocks[j].pc.Spinning? && Waits(g, j);
    assert BlockOk(g, j);
  }

  /** When a block is about to flip the sense, the counter is zero, every block has arrived at the
      flipping block's call and none has left it. */
  lemma FlipsWhenAllArrived(n: nat, sense: nat, schedule: seq<nat>, i: nat, j: nat)
    requires 1 <= n <= UINT32_MAX && sense <= UINT32_MAX && i < n && j < n
    requires forall k :: 0 <= k < |schedule| ==> schedule[k] < n
    requires RunOf(NewGrid(n, sense), schedule).blocks[i].pc.Flipping?
    ensures var g := RunOf(NewGrid(n, sense), schedule);
      && g.counter == 0
      && Arrived(g.blocks[j]) == Arrived(g.blocks[i]) == g.flips + 1
      && g.blocks[j].left == g.blocks[i].left
      && (j != i ==> g.blocks[j].pc == Spinning(g.sense))
  {
    RunKeeps(n, sense, schedule);
    FlipFinds(RunOf(NewGrid(n, sense), schedule), i, j);
    hide Inv, BlockOk, EndOk, Waits;
  }

  /** Only a spinner of the current episode can be held back. */
  lemma StuckSpins(g: Grid, i: nat)
    requires Inv(g) && i < |g.blocks|
    ensures Step(g, i) == g <==> g.blocks[i].pc == Spinning(g.sense)
    ensures Step(g, i) == g ==> Waits(g, i)
  {
    assert BlockOk(g, i) && EndOk(g, i);
    OtherDiffers(g.sense);
    assert g.blocks[i].pc.Outside? ==> Step(g, i).blocks[i].pc.Loaded?;
    assert g.blocks[i].pc.Loaded? ==> Ends(Step(g, i).blocks[i]) || Step(g, i).blocks[i].pc.Spinning?;
    assert g.blocks[i].pc.Last? ==> Step(g, i).blocks[i].pc.Flipping?;
    assert g.blocks[i].pc.Flipping? ==> Step(g, i).blocks[i].pc.Outside?;
    assert g.blocks[i].pc.Spinning? && g.sense != g.blocks[i].pc.curSense ==> Step(g, i).blocks[i].pc.Outside?;
  }

  /** The next access of block i changes the grid. */
  predicate Moves(g: Grid, i: nat) { i < |g.blocks| && Step(g, i) != g }

  predicate SomeoneCanMove(g: Grid) { exists i: nat :: i < |g.blocks| && Moves(g, i) }

  lemma SomeoneMoves(g: Grid)
    requires Inv(g)
    ensures SomeoneCanMove(g)
  {
    if forall i: nat :: i < |g.blocks| ==> !Moves(g, i) {
      forall i: nat | i < |g.blocks|
        ensures Waits(g, i) && !Ends(g.blocks[i])
      {
        assert !Moves(g, i);
        StuckSpins(g, i);
      }
      AllWait(g);
      assert NobodyEnds(g);
      assert false;
    }
  }

  // ------------------------------------------------------------ every call completes

  /** Accesses a block has before it, apart from spinning. */
  function Rank(b: Block): nat {
    match b.pc
    case Outside => 0
    case Loaded(_) => 3
    case Last(_) => 2
    case Flipping(_) => 1
    case Spinning(_) => 1
  }

  function StepsLeft(bs: seq<Block>): nat { if bs == [] then 0 else StepsLeft(bs[..|bs| - 1]) + Rank(bs[|bs| - 1]) }

  lemma {:induction false} StepsLeftUpdate(bs: seq<Block>, i: nat, b: Block)
    requires i < |bs|
    ensures StepsLeft(bs[i := b]) == StepsLeft(bs) - Rank(bs[i]) + Rank(b)
    decreases |bs|
  {
    var m := |bs| - 1;
    if i < m {
      StepsLeftUpdate(bs[..m], i, b);
      assert bs[i := b][..m] == bs[..m][i := b];
    } else {
      assert bs[i := b][..m] == bs[..m];
    }
  }

  /** Every block is in its call number k + 1, or has left it and not called again. */
  predicate InCall(g: Grid, k: nat) {
    forall i :: 0 <= i < |g.blocks| ==> g.blocks[i].left == (if g.blocks[i].pc.Outside? then k + 1 else k)
  }

  predicate AllOutside(g: Grid) { forall i :: 0 <= i < |g.blocks| ==> g.blocks[i].pc.Outside? }

  /** A block in the call that can be moved is one access nearer to leaving it. */
  lemma MoveNearsEnd(g: Grid, i: nat, k: nat)
    requires InCall(g, k) && i < |g.blocks| && !g.blocks[i].pc.Outside? && Moves(g, i)
    ensures InCall(Step(g, i), k) && StepsLeft(Step(g, i).blocks) < StepsLeft(g.blocks)
  {
    StepsLeftUpdate(g.blocks, i, Step(g, i).blocks[i]);
    assert Step(g, i).blocks == g.blocks[i := Step(g, i).blocks[i]];
  }

  /** While some block is still in the call, one of those in it can be moved. */
  lemma SomeoneInsideMoves(g: Grid, k: nat) returns (i: nat)
    requires Inv(g) && InCall(g, k) && !AllOutside(g)
    ensures i < |g.blocks| && !g.blocks[i].pc.Outside? && Moves(g, i)
  {
    var j: nat :| j < |g.blocks| && !g.blocks[j].pc.Outside?;
    StuckSpins(g, j);
    if !Moves(g, j) {
      // Its episode is current, so nobody has left the call yet.
      forall m: nat | m < |g.blocks|
        ensures !g.blocks[m].pc.Outside?
      {
        assert BlockOk(g, m);
      }
      SomeoneMoves(g);
      i :| i < |g.blocks| && Moves(g, i);
    } else {
      i := j;
    }
  }

  /** Once every block has made the call, at most three accesses a block bring all of them out of it:
      no order of the accesses so far can make a block hang. */
  lemma {:induction false} CallCompletes(g: Grid, k: nat) returns (schedule: seq<nat>)
    requires Inv(g) && InCall(g, k)
    ensures forall m :: 0 <= m < |schedule| ==> schedule[m] < |g.blocks|
    ensures |schedule| <= StepsLeft(g.blocks)
    ensures AllOutside(RunOf(g, schedule)) && InCall(RunOf(g, schedule), k)
    decreases StepsLeft(g.blocks)
  {
    if AllOutside(g) {
      schedule := [];
    } else {
      var i := SomeoneInsideMoves(g, k);
      MoveNearsEnd(g, i, k);
      StepKeeps(g, i);
      var rest := CallCompletes(Step(g, i), k);
      schedule := [i] + rest;
      RunFromFirst(g, i, rest);
    }
  }

  lemma {:induction false} RunFromFirst(g: Grid, i: nat, rest: seq<nat>)
    requires i < |g.blocks| && forall m :: 0 <= m < |rest| ==> rest[m] < |g.blocks|
    ensures RunOf(g, [i] + rest) == RunOf(Step(g, i), rest)
    decreases |rest|
  {
    if rest == [] {
      assert [i] + rest == [i];
      assert RunOf(g, [i][..0]) == g;
    } else {
      var m := |rest| - 1;
      RunFromFirst(g, i, rest[..m]);
      assert ([i] + rest)[..m + 1] == [i] + rest[..m];
    }
  }

  lemma {:induction false} StepsBounded(bs: seq<Block>)
    ensures StepsLeft(bs) <= 3 * |bs|
    decreases |bs|
  {
    if bs != [] { StepsBounded(bs[..|bs| - 1]); }
  }

  /** From any reachable grid with every block in its call number k + 1, or already out of it: some
      3n accesses or fewer bring every block out. */
  lemma NeverHangs(n: nat, sense: nat, schedule: seq<nat>, k: nat) returns (rest: seq<nat>)
    requires 1 <= n <= UINT32_MAX && sense <= UINT32_MAX
    requires forall m :: 0 <= m < |schedule| ==> schedule[m] < n
    requires InCall(RunOf(NewGrid(n, sense), schedule), k)
    ensures |rest| <= 3 * n && forall m :: 0 <= m < |rest| ==> rest[m] < n
    ensures var g := RunOf(RunOf(NewGrid(n, sense), schedule), rest); AllOutside(g) && InCall(g, k)
  {
    RunKeeps(n, sense, schedule);
    var g := RunOf(NewGrid(n, sense), schedule);
    rest := CallCompletes(g, k);
    StepsBounded(g.blocks);
  }
}
