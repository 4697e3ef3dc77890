// Lifetime of one-sided connections and memory registrations on one rank (flagcx/flagcx.cc): data,
// signal and staging handles share the connection mesh of slot 0, failed cleanups are retained
// and retried. The provider's preconditions are the safety property: a mesh is closed only when no
// live registration uses it, and a registration is released only while it is live.

module Connections {
  import opened Results

  /** A signal registration as it is called: whether there is a buffer with a size, whether the communicator
      is homogeneous only, whether it has a heterogeneous part, whether the pointer type is known. */
  datatype SignalCall = SignalCall(buffer: nat, sized: bool, homogeneous: bool, hetero: bool, ptrOk: bool)

  /** The answer, when nothing is to be registered. */
  function CallAnswer(call: SignalCall, base: Option<nat>): Option<Status> {
    if !call.sized then Some(InvalidArgument)
    else if call.homogeneous then Some(Success)
    else if !call.hetero then Some(NotSupported)
    else if base.Some? then Some(if base.value == call.buffer then Success else InvalidUsage)
    else if !call.ptrOk then Some(InvalidArgument)
    else None
  }

  /** The network adaptor. `live` maps every registration to the mesh it was made on. */
  class Provider {
    ghost var open: set<nat>
    ghost var live: map<nat, nat>
    var nextId: nat

    ghost predicate Valid()
      reads this
    {
      && (forall m <- open :: m < nextId)
      && (forall r <- live :: r < nextId && live[r] in open)
    }

    constructor ()
      ensures Valid() && open == {} && live == map[]
    {
      open, live, nextId := {}, map[], 0;
    }

    method Connect() returns (mesh: nat)
      requires Valid()
      modifies this
      ensures Valid() && mesh !in old(open) && open == old(open) + {mesh} && live == old(live)
      ensures forall r <- live :: live[r] != mesh
    {
      mesh := nextId;
      nextId := nextId + 1;
      open := open + {mesh};
    }

    method Close(mesh: nat)
      requires Valid() && mesh in open
      requires forall r <- live :: live[r] != mesh
      modifies this
      ensures Valid() && open == old(open) - {mesh} && live == old(live)
    {
      open := open - {mesh};
    }

    /** `granted` is the provider's answer. */
    method RegMr(mesh: nat, granted: bool) returns (mr: Option<nat>)
      requires Valid() && mesh in open
      modifies this
      ensures Valid() && open == old(open)
      ensures mr.Some? == granted
      ensures mr.Some? ==> mr.value !in old(live) && live == old(live)[mr.value := mesh]
      ensures mr.None? ==> live == old(live)
    {
      if !granted { return None; }
      mr := Some(nextId);
      live := live[nextId := mesh];
      nextId := nextId + 1;
    }

    method DeregMr(mr: nat, granted: bool) returns (st: Status)
      requires Valid() && mr in live
      modifies this
      ensures Valid() && open == old(open)
      ensures st == if granted then Success else RemoteError
      ensures live == if granted then old(live) - {mr} else old(live)
    {
      if !granted { return RemoteError; }
      live := live - {mr};
      return Success;
    }
  }

  /** flagcxOneSideHandleInfo: its registration, the mesh that belongs to, whether it owns it. */
  datatype Info = Info(mesh: nat, owns: bool, mr: Option<nat>, windowRefs: nat, commOwned: bool)

  // -------------------------------------------------------------------- who holds what

  ghost function Mr(x: Option<Info>): multiset<nat> {
    if x.Some? && x.value.mr.Some? then multiset{x.value.mr.value} else multiset{}
  }

  ghost function Mrs(xs: seq<Option<Info>>): multiset<nat>
    decreases |xs|
  {
    if xs == [] then multiset{} else Mrs(xs[..|xs| - 1]) + Mr(xs[|xs| - 1])
  }

  lemma SwapUnder(a: multiset<nat>, a': multiset<nat>, b: multiset<nat>, c: multiset<nat>, d: multiset<nat>)
    requires a' + c == a + d
    ensures (a' + b) + c == (a + b) + d
  {
    assert (a' + b) + c == (a' + c) + b;
    assert (a + b) + d == (a + d) + b;
  }

  lemma SwapLast(a: multiset<nat>, b: multiset<nat>, c: multiset<nat>)
    ensures (a + b) + c == (a + c) + b
  {}

  lemma {:induction false} MrsUpdate(xs: seq<Option<Info>>, i: nat, x: Option<Info>)
    requires i < |xs|
    ensures Mrs(xs[i := x]) + Mr(xs[i]) == Mrs(xs) + Mr(x)
    decreases |xs|
  {
    hide Mr;
    var n := |xs| - 1;
    var ys := xs[i := x];
    if i == n {
      assert ys[..n] == xs[..n];
      SwapLast(Mrs(xs[..n]), Mr(x), Mr(xs[n]));
    } else {
      assert ys[..n] == xs[..n][i := x] && xs[..n][i] == xs[i] && ys[n] == xs[n];
      MrsUpdate(xs[..n], i, x);
      SwapUnder(Mrs(xs[..n]), Mrs(ys[..n]), Mr(xs[n]), Mr(xs[i]), Mr(x));
    }
  }

  lemma MrsAppend(xs: seq<Option<Info>>, x: Option<Info>)
    ensures Mrs(xs + [x]) == Mrs(xs) + Mr(x)
  {
    assert (xs + [x])[..|xs|] == xs;
  }

  lemma {:induction false} MrsNone(xs: seq<Option<Info>>)
    requires forall i :: 0 <= i < |xs| ==> xs[i].None?
    ensures Mrs(xs) == multiset{}
    decreases |xs|
  {
    if xs != [] { MrsNone(xs[..|xs| - 1]); }
  }

  ghost predicate HeldIn(xs: seq<Option<Info>>, mr: nat) {
    exists i :: 0 <= i < |xs| && xs[i].Some? && xs[i].value.mr == Some(mr)
  }

  lemma HeldLast(xs: seq<Option<Info>>, mr: nat)
    requires xs != []
    ensures HeldIn(xs, mr) <==> HeldIn(xs[..|xs| - 1], mr) || mr in Mr(xs[|xs| - 1])
  {
    var n := |xs| - 1;
    if HeldIn(xs[..n], mr) {
      var i :| 0 <= i < n && xs[..n][i].Some? && xs[..n][i].value.mr == Some(mr);
      assert xs[i] == xs[..n][i];
    }
    if HeldIn(xs, mr) {
      var i :| 0 <= i < |xs| && xs[i].Some? && xs[i].value.mr == Some(mr);
      if i < n { assert xs[..n][i] == xs[i]; }
    }
    if mr in Mr(xs[n]) { assert xs[n].Some? && xs[n].value.mr == Some(mr); }
  }

  lemma {:induction false} MrsHeld(xs: seq<Option<Info>>, mr: nat)
    ensures mr in Mrs(xs) <==> HeldIn(xs, mr)
    decreases |xs|
  {
    if xs != [] {
      MrsHeld(xs[..|xs| - 1], mr);
      HeldLast(xs, mr);
      hide HeldIn, Mr;
    }
  }

  /** The registration of x, if any, was made on the mesh x names. */
  ghost predicate OnMesh(x: Option<Info>, live: map<nat, nat>) {
    x.Some? && x.value.mr.Some? ==> x.value.mr.value in live && live[x.value.mr.value] == x.value.mesh
  }

  /** A user of the mesh of slot 0. */
  ghost predicate Shares(x: Option<Info>, handles: seq<Option<Info>>) {
    x.Some? ==> handles != [] && handles[0].Some? && !x.value.owns && x.value.mesh == handles[0].value.mesh
  }

  ghost predicate AllOnMesh(xs: seq<Option<Info>>, live: map<nat, nat>) {
    forall i :: 0 <= i < |xs| ==> OnMesh(xs[i], live)
  }

  /** Slot 0 owns the mesh of all data handles. */
  ghost predicate DataMeshes(handles: seq<Option<Info>>, open: set<nat>) {
    && (handles != [] ==> handles[0].Some? && handles[0].value.owns && handles[0].value.mesh in open)
    && (forall i :: 0 < i < |handles| ==> Shares(handles[i], handles))
  }

  /** A mesh of x's own: open, and not the one of slot 0. */
  ghost predicate OwnMesh(x: Info, handles: seq<Option<Info>>, open: set<nat>) {
    x.mesh in open && (handles != [] ==> handles[0].Some? && x.mesh != handles[0].value.mesh)
  }

  /** A retained cleanup owns a mesh of its own, or uses the mesh of slot 0. */
  ghost predicate PendingMeshes(pending: seq<Option<Info>>, handles: seq<Option<Info>>, open: set<nat>) {
    && (forall j :: 0 <= j < |pending| ==>
          && pending[j].Some?
          && if pending[j].value.owns then OwnMesh(pending[j].value, handles, open) else Shares(pending[j], handles))
    && (forall j, k :: 0 <= j < |pending| && 0 <= k < |pending| && j != k && pending[j].value.owns ==>
          pending[j].value.mesh != pending[k].value.mesh)
  }

  /** A handle under construction, held by no field yet. */
  ghost predicate ExtraMesh(x: Option<Info>, handles: seq<Option<Info>>, pending: seq<Option<Info>>, open: set<nat>) {
    x.Some? ==>
      if x.value.owns
      then OwnMesh(x.value, handles, open)
           && forall j :: 0 <= j < |pending| ==> pending[j].Some? && pending[j].value.mesh != x.value.mesh
      else Shares(x, handles)
  }

  /** The handle array with slot i filled, extended as far as needed. */
  function Fill(hs: seq<Option<Info>>, i: nat, x: Info): (r: seq<Option<Info>>)
    ensures |r| == if i < |hs| then |hs| else i + 1
    ensures forall j :: 0 <= j < |r| ==> r[j] == if j == i then Some(x) else if j < |hs| then hs[j] else None
  {
    if i < |hs| then hs[i := Some(x)] else hs + seq(i - |hs|, _ => None) + [Some(x)]
  }

  lemma MrsFill(hs: seq<Option<Info>>, i: nat, x: Info)
    requires i < |hs| ==> hs[i].None?
    ensures Mrs(Fill(hs, i, x)) == Mrs(hs) + Mr(Some(x))
  {
    if i < |hs| {
      MrsUpdate(hs, i, Some(x));
    } else {
      var gap := seq(i - |hs|, _ => None);
      MrsPadded(hs, gap);
      MrsAppend(hs + gap, Some(x));
    }
  }

  lemma {:induction false} MrsPadded(hs: seq<Option<Info>>, gap: seq<Option<Info>>)
    requires forall i :: 0 <= i < |gap| ==> gap[i].None?
    ensures Mrs(hs + gap) == Mrs(hs)
    decreases |gap|
  {
    if gap == [] {
      assert hs + gap == hs;
    } else {
      var n := |gap| - 1;
      assert hs + gap == (hs + gap[..n]) + [gap[n]];
      MrsAppend(hs + gap[..n], gap[n]);
      MrsPadded(hs, gap[..n]);
    }
  }

  /** All handles of a rank. */
  datatype Handles = Handles(
    data: seq<Option<Info>>, signal: Option<Info>, staging: Option<Info>, pending: seq<Option<Info>>)

  /** The registrations held, by x too. */
  ghost function Held(h: Handles, x: Option<Info>): multiset<nat> {
    Mrs(h.data) + Mr(h.signal) + Mr(h.staging) + Mrs(h.pending) + Mr(x)
  }

  ghost predicate Meshes(h: Handles, x: Option<Info>, open: set<nat>) {
    && DataMeshes(h.data, open)
    && Shares(h.signal, h.data) && Shares(h.staging, h.data)
    && PendingMeshes(h.pending, h.data, open)
    && ExtraMesh(x, h.data, h.pending, open)
  }

  ghost predicate Registered(h: Handles, x: Option<Info>, live: map<nat, nat>) {
    && AllOnMesh(h.data, live) && AllOnMesh(h.pending, live)
    && OnMesh(h.signal, live) && OnMesh(h.staging, live) && OnMesh(x, live)
  }

  /** Every registration is on an open mesh of its holder, and held exactly once. */
  ghost predicate Sound(h: Handles, x: Option<Info>, live: map<nat, nat>, open: set<nat>) {
    Meshes(h, x, open) && Registered(h, x, live) && Held(h, x) == multiset(live.Keys)
  }

  /** Holders other than x, by registration. */
  ghost predicate HeldElsewhere(h: Handles, mr: nat) {
    mr in Mr(h.signal) || mr in Mr(h.staging) || HeldIn(h.data, mr) || HeldIn(h.pending, mr)
  }

  lemma HeldWhere(h: Handles, x: Option<Info>, mr: nat)
    ensures mr in Held(h, x) <==> HeldElsewhere(h, mr) || mr in Mr(x)
  {
    MrsHeld(h.data, mr);
    MrsHeld(h.pending, mr);
    hide HeldIn, Mr, Mrs;
  }

  /** Without data handles and retained cleanups nothing is registered any more. */
  lemma NothingLeft(h: Handles, live: map<nat, nat>, open: set<nat>)
    requires Sound(h, None, live, open) && h.data == [] && h.pending == []
    ensures live == map[] && h.signal.None? && h.staging.None?
  {
    assert Held(h, None) == multiset{};
    forall r
      ensures r !in live
    {
      assert r in live ==> r in multiset(live.Keys);
    }
  }

  /** A mesh that only x owns carries no registration but x's. */
  lemma OnlyOwnRegistrations(h: Handles, x: Info, live: map<nat, nat>, open: set<nat>)
    requires Sound(h, Some(x), live, open) && x.owns && x.mr.None?
    ensures forall r <- live :: live[r] != x.mesh
  {
    forall r | r in live ensures live[r] != x.mesh {
      assert r in multiset(live.Keys);
      HeldWhere(h, Some(x), r);
      if HeldIn(h.data, r) {
        var i :| 0 <= i < |h.data| && h.data[i].Some? && h.data[i].value.mr == Some(r);
        assert OnMesh(h.data[i], live) && (i > 0 ==> Shares(h.data[i], h.data));
      } else if HeldIn(h.pending, r) {
        var j :| 0 <= j < |h.pending| && h.pending[j].Some? && h.pending[j].value.mr == Some(r);
        assert OnMesh(h.pending[j], live);
      }
    }
  }

  lemma HeldOnce(h: Handles, x: Info, live: map<nat, nat>)
    requires Held(h, Some(x)) == multiset(live.Keys) && x.mr.Some?
    ensures x.mr.value in live && !HeldElsewhere(h, x.mr.value)
    ensures Held(h, Some(x.(mr := None))) == multiset((live - {x.mr.value}).Keys)
  {
    hide HeldElsewhere, Mrs;
    var mr := x.mr.value;
    var rest := Held(h, None);
    assert Held(h, Some(x)) == rest + Mr(Some(x)) && Mr(Some(x)) == multiset{mr};
    assert multiset(live.Keys)[mr] <= 1;
    assert rest[mr] == 0;
    assert (live - {mr}).Keys == live.Keys - {mr};
    assert multiset(live.Keys - {mr}) == multiset(live.Keys) - multiset{mr};
    assert rest == (rest + multiset{mr}) - multiset{mr};
    HeldWhere(h, None, mr);
    hide Held;
    assert Held(h, Some(x.(mr := None))) == rest by { HeldEmpty(h, x); }
  }

  lemma HeldEmpty(h: Handles, x: Info)
    ensures Held(h, Some(x.(mr := None))) == Held(h, None)
  {}

  lemma OnMeshKept(xs: seq<Option<Info>>, live: map<nat, nat>, mr: nat)
    requires AllOnMesh(xs, live) && !HeldIn(xs, mr)
    ensures AllOnMesh(xs, live - {mr})
  {
    forall i | 0 <= i < |xs| ensures OnMesh(xs[i], live - {mr}) { assert OnMesh(xs[i], live); }
  }

  /** Releasing x's registration leaves everybody else's alone. */
  lemma AfterRelease(h: Handles, x: Info, live: map<nat, nat>, open: set<nat>)
    requires Sound(h, Some(x), live, open) && x.mr.Some?
    ensures x.mr.value in live
    ensures Sound(h, Some(x.(mr := None)), live - {x.mr.value}, open)
  {
    HeldOnce(h, x, live);
    RegisteredAfterRelease(h, x, live);
    assert Meshes(h, Some(x.(mr := None)), open);
    hide Held, HeldElsewhere, Meshes, Registered;
  }

  lemma RegisteredAfterRelease(h: Handles, x: Info, live: map<nat, nat>)
    requires Registered(h, Some(x), live) && x.mr.Some? && !HeldElsewhere(h, x.mr.value)
    ensures Registered(h, Some(x.(mr := None)), live - {x.mr.value})
  {
    OnMeshKept(h.data, live, x.mr.value);
    OnMeshKept(h.pending, live, x.mr.value);
    hide HeldIn, AllOnMesh;
  }

  /** Closing the mesh x owned leaves everybody else's open. */
  lemma AfterClose(h: Handles, x: Info, live: map<nat, nat>, open: set<nat>)
    requires Sound(h, Some(x), live, open) && x.mr.None?
    ensures Sound(h, None, live, if x.owns then open - {x.mesh} else open)
  {
    HeldEmpty(h, x);
    assert x.(mr := None) == x;
    var open' := if x.owns then open - {x.mesh} else open;
    assert Meshes(h, None, open') by { MeshesAfterClose(h, x, open); }
    hide Held, AllOnMesh, Meshes;
  }

  lemma MeshesAfterClose(h: Handles, x: Info, open: set<nat>)
    requires Meshes(h, Some(x), open)
    ensures Meshes(h, None, if x.owns then open - {x.mesh} else open)
  {
    var open' := if x.owns then open - {x.mesh} else open;
    forall j | 0 <= j < |h.pending| && h.pending[j].value.owns ensures OwnMesh(h.pending[j].value, h.data, open') {
      assert OwnMesh(h.pending[j].value, h.data, open);
    }
  }

  // ------------------------------------------------------------------ moving a handle

  lemma HeldData(h: Handles, data: seq<Option<Info>>, x: Option<Info>, x': Option<Info>)
    requires Mrs(data) + Mr(x') == Mrs(h.data) + Mr(x)
    ensures Held(h.(data := data), x') == Held(h, x)
  {
    hide Mrs, Mr;
    Regroup(Mrs(h.data), Mrs(data), Mr(h.signal), Mr(h.staging), Mrs(h.pending), Mr(x), Mr(x'));
  }

  lemma Regroup(a: multiset<nat>, a': multiset<nat>, b: multiset<nat>, c: multiset<nat>, d: multiset<nat>,
                x: multiset<nat>, x': multiset<nat>)
    requires a' + x' == a + x
    ensures a' + b + c + d + x' == a + b + c + d + x
  {
    assert a' + b + c + d + x' == (a' + x') + (b + c + d);
    assert a + b + c + d + x == (a + x) + (b + c + d);
  }

  lemma CancelSame(a: multiset<nat>, b: multiset<nat>, c: multiset<nat>)
    requires a + c == b + c
    ensures a == b
  {
    assert a == (a + c) - c && b == (b + c) - c;
  }

  lemma HeldShared(h: Handles, x: Option<Info>)
    ensures Held(h.(signal := None), h.signal) == Held(h, None)
    ensures Held(h.(staging := None), h.staging) == Held(h, None)
  {
    hide Mrs;
    assert Mr(None) == multiset{};
    hide Mr;
  }

  lemma NewMesh(h: Handles, live: map<nat, nat>, open: set<nat>, mesh: nat)
    requires Sound(h, None, live, open) && mesh !in open
    ensures Sound(h, Some(Info(mesh, true, None, 0, false)), live, open + {mesh})
  {
    var x := Info(mesh, true, None, 0, false);
    assert Held(h, Some(x)) == Held(h, None);
    NewMeshMeshes(h, open, x);
    hide Held, Meshes, AllOnMesh;
  }

  lemma NewMeshMeshes(h: Handles, open: set<nat>, x: Info)
    requires Meshes(h, None, open) && x.mesh !in open && x.owns
    ensures Meshes(h, Some(x), open + {x.mesh})
  {
    forall j | 0 <= j < |h.pending| ensures h.pending[j].Some? && h.pending[j].value.mesh in open {
      assert if h.pending[j].value.owns then OwnMesh(h.pending[j].value, h.data, open) else Shares(h.pending[j], h.data);
    }
  }

  lemma NewSharer(h: Handles, live: map<nat, nat>, open: set<nat>)
    requires Sound(h, None, live, open) && h.data != []
    ensures h.data[0].Some? && h.data[0].value.mesh in open
    ensures Sound(h, Some(Info(h.data[0].value.mesh, false, None, 0, false)), live, open)
  {
    var x := Info(h.data[0].value.mesh, false, None, 0, false);
    assert Held(h, Some(x)) == Held(h, None);
    hide Held, AllOnMesh, PendingMeshes;
  }

  lemma AfterReg(h: Handles, x: Info, live: map<nat, nat>, open: set<nat>, mr: nat)
    requires Sound(h, Some(x), live, open) && x.mr.None? && mr !in live
    ensures Sound(h, Some(x.(mr := Some(mr))), live[mr := x.mesh], open)
  {
    assert Meshes(h, Some(x.(mr := Some(mr))), open);
    HeldAfterReg(h, x, live, mr);
    RegisteredAfterReg(h, x, live, mr);
    hide Held, Meshes, Registered;
  }

  lemma RegisteredAfterReg(h: Handles, x: Info, live: map<nat, nat>, mr: nat)
    requires Registered(h, Some(x), live) && mr !in live
    ensures Registered(h, Some(x.(mr := Some(mr))), live[mr := x.mesh])
  {
    AddedRegistration(h.data, live, mr, x.mesh);
    AddedRegistration(h.pending, live, mr, x.mesh);
    hide AllOnMesh;
  }

  lemma HeldAfterReg(h: Handles, x: Info, live: map<nat, nat>, mr: nat)
    requires Held(h, Some(x)) == multiset(live.Keys) && x.mr.None? && mr !in live
    ensures Held(h, Some(x.(mr := Some(mr)))) == multiset(live[mr := x.mesh].Keys)
  {
    assert live[mr := x.mesh].Keys == live.Keys + {mr};
    assert multiset(live.Keys + {mr}) == multiset(live.Keys) + multiset{mr};
    assert Mr(Some(x)) == multiset{};
    hide Mrs;
  }

  lemma AddedRegistration(xs: seq<Option<Info>>, live: map<nat, nat>, mr: nat, mesh: nat)
    requires AllOnMesh(xs, live) && mr !in live
    ensures AllOnMesh(xs, live[mr := mesh])
  {
    forall i | 0 <= i < |xs| ensures OnMesh(xs[i], live[mr := mesh]) { assert OnMesh(xs[i], live); }
  }

  lemma PublishData(h: Handles, x: Info, live: map<nat, nat>, open: set<nat>, i: nat)
    requires Sound(h, Some(x), live, open)
    requires if i == 0 then h.data == [] && x.owns else h.data != [] && !x.owns && (i < |h.data| ==> h.data[i].None?)
    ensures Sound(h.(data := Fill(h.data, i, x)), None, live, open)
  {
    var h' := h.(data := Fill(h.data, i, x));
    MrsFill(h.data, i, x);
    HeldData(h, h'.data, Some(x), None);
    PublishMeshes(h, x, open, i);
    assert AllOnMesh(h'.data, live) by {
      forall j | 0 <= j < |h'.data| ensures OnMesh(h'.data[j], live) { assert j < |h.data| ==> OnMesh(h.data[j], live); }
    }
    hide Held, Meshes, AllOnMesh, Fill;
  }

  lemma PublishMeshes(h: Handles, x: Info, open: set<nat>, i: nat)
    requires Meshes(h, Some(x), open)
    requires if i == 0 then h.data == [] && x.owns else h.data != [] && !x.owns && (i < |h.data| ==> h.data[i].None?)
    ensures Meshes(h.(data := Fill(h.data, i, x)), None, open)
  {
    var data := Fill(h.data, i, x);
    assert i > 0 ==> data[0] == h.data[0];
    forall j | 0 < j < |data| ensures Shares(data[j], data) { assert j < |h.data| ==> Shares(h.data[j], h.data); }
    forall j | 0 <= j < |h.pending|
      ensures h.pending[j].Some?
      ensures if h.pending[j].value.owns then OwnMesh(h.pending[j].value, data, open) else Shares(h.pending[j], data)
    {
      assert if h.pending[j].value.owns then OwnMesh(h.pending[j].value, h.data, open) else Shares(h.pending[j], h.data);
    }
  }

  lemma PublishShared(h: Handles, x: Info, live: map<nat, nat>, open: set<nat>)
    requires Sound(h, Some(x), live, open) && !x.owns
    ensures h.signal.None? ==> Sound(h.(signal := Some(x)), None, live, open)
    ensures h.staging.None? ==> Sound(h.(staging := Some(x)), None, live, open)
  {
    hide Held, AllOnMesh, DataMeshes, PendingMeshes;
    HeldShared(h.(signal := Some(x)), None);
    HeldShared(h.(staging := Some(x)), None);
    assert h.signal.None? ==> h.(signal := None) == h;
    assert h.staging.None? ==> h.(staging := None) == h;
  }

  lemma TakeShared(h: Handles, live: map<nat, nat>, open: set<nat>)
    requires Sound(h, None, live, open)
    ensures h.signal.Some? ==> !h.signal.value.owns && Sound(h.(signal := None), h.signal, live, open)
    ensures h.staging.Some? ==> !h.staging.value.owns && Sound(h.(staging := None), h.staging, live, open)
  {
    HeldShared(h, None);
    hide Held, AllOnMesh, DataMeshes, PendingMeshes;
  }

  lemma TakeData(h: Handles, live: map<nat, nat>, open: set<nat>, i: nat)
    requires Sound(h, None, live, open) && 0 < i < |h.data| && h.data[i].Some?
    ensures !h.data[i].value.owns
    ensures Sound(h.(data := h.data[i := None]), h.data[i], live, open)
  {
    var h' := h.(data := h.data[i := None]);
    MrsUpdate(h.data, i, None);
    HeldData(h, h'.data, None, h.data[i]);
    assert Shares(h.data[i], h.data) && OnMesh(h.data[i], live);
    TakeMeshes(h, open, i);
    assert AllOnMesh(h'.data, live) by {
      forall j | 0 <= j < |h'.data| ensures OnMesh(h'.data[j], live) { assert OnMesh(h.data[j], live); }
    }
    hide Held, Meshes, AllOnMesh;
  }

  lemma TakeMeshes(h: Handles, open: set<nat>, i: nat)
    requires Meshes(h, None, open) && 0 < i < |h.data| && h.data[i].Some?
    ensures Meshes(h.(data := h.data[i := None]), h.data[i], open)
  {
    var data := h.data[i := None];
    assert data[0] == h.data[0] && Shares(h.data[i], h.data);
    forall j | 0 < j < |data| ensures Shares(data[j], data) { assert Shares(h.data[j], h.data); }
    forall j | 0 <= j < |h.pending|
      ensures h.pending[j].Some?
      ensures if h.pending[j].value.owns then OwnMesh(h.pending[j].value, data, open) else Shares(h.pending[j], data)
    {
      assert if h.pending[j].value.owns then OwnMesh(h.pending[j].value, h.data, open) else Shares(h.pending[j], h.data);
    }
  }

  /** The registration of slot 0 apart from the mesh it owns. */
  lemma DetachOwner(h: Handles, live: map<nat, nat>, open: set<nat>, x: Info)
    requires Sound(h, None, live, open) && h.data != [] && h.data[0] == Some(x)
    ensures Sound(h.(data := h.data[0 := Some(x.(mr := None, windowRefs := 0))]), Some(x.(owns := false)), live, open)
  {
    var h' := h.(data := h.data[0 := Some(x.(mr := None, windowRefs := 0))]);
    MrsUpdate(h.data, 0, Some(x.(mr := None, windowRefs := 0)));
    assert Mr(Some(x.(mr := None, windowRefs := 0))) == multiset{};
    assert Mr(Some(x.(owns := false))) == Mr(h.data[0]);
    HeldData(h, h'.data, None, Some(x.(owns := false)));
    DetachMeshes(h, open, x);
    assert OnMesh(h.data[0], live);
    assert AllOnMesh(h'.data, live) by {
      forall j | 0 <= j < |h'.data| ensures OnMesh(h'.data[j], live) { assert OnMesh(h.data[j], live); }
    }
    hide Held, Meshes, AllOnMesh;
  }

  lemma DetachMeshes(h: Handles, open: set<nat>, x: Info)
    requires Meshes(h, None, open) && h.data != [] && h.data[0] == Some(x)
    ensures Meshes(h.(data := h.data[0 := Some(x.(mr := None, windowRefs := 0))]), Some(x.(owns := false)), open)
  {
    var data := h.data[0 := Some(x.(mr := None, windowRefs := 0))];
    forall j | 0 < j < |data| ensures Shares(data[j], data) { assert Shares(h.data[j], h.data); }
    forall j | 0 <= j < |h.pending|
      ensures h.pending[j].Some?
      ensures if h.pending[j].value.owns then OwnMesh(h.pending[j].value, data, open) else Shares(h.pending[j], data)
    {
      assert if h.pending[j].value.owns then OwnMesh(h.pending[j].value, h.data, open) else Shares(h.pending[j], h.data);
    }
  }

  /** The connection owner goes last: nothing else is left by then. */
  lemma TakeOwner(h: Handles, live: map<nat, nat>, open: set<nat>)
    requires Sound(h, None, live, open) && h.data != [] && h.signal.None? && h.staging.None? && h.pending == []
    requires forall i :: 0 < i < |h.data| ==> h.data[i].None?
    ensures Sound(Handles([], None, None, []), h.data[0], live, open)
  {
    LastHolder(h);
    OwnerAlone(h.data, live, open);
    hide Held, Mrs, Meshes, Registered;
  }

  lemma LastHolder(h: Handles)
    requires h.data != [] && h.signal.None? && h.staging.None? && h.pending == []
    requires forall i :: 0 < i < |h.data| ==> h.data[i].None?
    ensures Held(Handles([], None, None, []), h.data[0]) == Held(h, None)
  {
    MrsUpdate(h.data, 0, None);
    MrsNone(h.data[0 := None]);
    assert Mrs([]) == multiset{};
    HeldData(h, [], None, h.data[0]);
    assert h.(data := []) == Handles([], None, None, []);
  }

  lemma OwnerAlone(data: seq<Option<Info>>, live: map<nat, nat>, open: set<nat>)
    requires data != [] && DataMeshes(data, open) && AllOnMesh(data, live)
    ensures Meshes(Handles([], None, None, []), data[0], open)
    ensures Registered(Handles([], None, None, []), data[0], live)
  {
    assert OnMesh(data[0], live);
  }

  lemma TakePending(h: Handles, live: map<nat, nat>, open: set<nat>)
    requires Sound(h, None, live, open) && h.pending != []
    ensures var n := |h.pending| - 1;
      h.pending[n].Some? && Sound(h.(pending := h.pending[..n]), h.pending[n], live, open)
  {
    var n := |h.pending| - 1;
    assert Held(h.(pending := h.pending[..n]), h.pending[n]) == Held(h, None);
    assert OnMesh(h.pending[n], live);
    assert AllOnMesh(h.pending[..n], live);
    TakePendingMeshes(h, open);
    hide Held, Meshes, AllOnMesh;
  }

  lemma TakePendingMeshes(h: Handles, open: set<nat>)
    requires Meshes(h, None, open) && h.pending != []
    ensures var n := |h.pending| - 1; Meshes(h.(pending := h.pending[..n]), h.pending[n], open)
  {
    var n := |h.pending| - 1;
    assert forall j :: 0 <= j < n ==> h.pending[..n][j] == h.pending[j];
    hide Shares, OwnMesh;
  }

  /** Only the reference counts of a data handle change. */
  lemma Recount(h: Handles, live: map<nat, nat>, open: set<nat>, i: nat, x: Info, x': Info)
    requires Sound(h, None, live, open) && i < |h.data| && h.data[i] == Some(x)
    requires x' == x.(windowRefs := x'.windowRefs, commOwned := x'.commOwned)
    ensures Sound(h.(data := h.data[i := Some(x')]), None, live, open)
  {
    var h' := h.(data := h.data[i := Some(x')]);
    MrsUpdate(h.data, i, Some(x'));
    assert Mr(Some(x')) == Mr(h.data[i]);
    CancelSame(Mrs(h'.data), Mrs(h.data), Mr(h.data[i]));
    HeldData(h, h'.data, None, None);
    RecountMeshes(h, open, i, x, x');
    assert AllOnMesh(h'.data, live) by {
      forall j | 0 <= j < |h'.data| ensures OnMesh(h'.data[j], live) { assert OnMesh(h.data[j], live); }
    }
    hide Held, Meshes, AllOnMesh;
  }

  lemma RecountMeshes(h: Handles, open: set<nat>, i: nat, x: Info, x': Info)
    requires Meshes(h, None, open) && i < |h.data| && h.data[i] == Some(x)
    requires x' == x.(windowRefs := x'.windowRefs, commOwned := x'.commOwned)
    ensures Meshes(h.(data := h.data[i := Some(x')]), None, open)
  {
    var data := h.data[i := Some(x')];
    forall j | 0 < j < |data| ensures Shares(data[j], data) { assert Shares(h.data[j], h.data); }
    forall j | 0 <= j < |h.pending|
      ensures h.pending[j].Some?
      ensures if h.pending[j].value.owns then OwnMesh(h.pending[j].value, data, open) else Shares(h.pending[j], data)
    {
      assert if h.pending[j].value.owns then OwnMesh(h.pending[j].value, h.data, open) else Shares(h.pending[j], h.data);
    }
  }

  class OneSide {
    const net: Provider
    var handles: seq<Option<Info>>
    var signal: Option<Info>
    var staging: Option<Info>
    /** The signal buffer, and whether its IPC mapping is in use. */
    var signalBase: Option<nat>
    var signalIpc: bool
    /** Retained cleanups; the last one is retried first. */
    var pending: seq<Option<Info>>

    ghost predicate Valid()
      reads this, net
    {
      ValidWith(None)
    }

    ghost function View(): Handles
      reads this
    {
      Handles(handles, signal, staging, pending)
    }

    /** Everything is accounted for, x included. */
    ghost predicate ValidWith(x: Option<Info>)
      reads this, net
    {
      net.Valid() && Sound(View(), x, net.live, net.open)
    }

    /** A signal buffer is registered for the network, for IPC or for both. */
    predicate SignalOk()
      reads this
    {
      signalBase.Some? <==> signal.Some? || signalIpc
    }

    constructor (provider: Provider)
      requires provider.Valid() && provider.live == map[]
      ensures Valid() && SignalOk() && net == provider && View() == Handles([], None, None, [])
    {
      net := provider;
      signalBase, signalIpc := None, false;
      handles, signal, staging, pending := [], None, None, [];
    }

    // ------------------------------------------------------------------------- cleanup

    /** flagcxOneSideCleanupHandle: the registration first, then the mesh it owns. On a failure
        nothing is discarded. */
    method CleanupHandle(x: Info, granted: bool) returns (st: Status)
      requires ValidWith(Some(x))
      modifies net
      ensures if st == Success then Valid() else ValidWith(Some(x))
      ensures st == if granted || x.mr.None? then Success else RemoteError
      ensures st != Success ==> net.live == old(net.live) && net.open == old(net.open)
      ensures st == Success ==>
        && net.live == (if x.mr.Some? then old(net.live) - {x.mr.value} else old(net.live))
        && net.open == (if x.owns then old(net.open) - {x.mesh} else old(net.open))
    {
      var y := x;
      if x.mr.Some? { AfterRelease(View(), x, net.live, net.open); }
      hide Sound;
      if x.mr.Some? {
        st := net.DeregMr(x.mr.value, granted);
        if st != Success { return; }
        y := x.(mr := None);
      }
      AfterClose(View(), y, net.live, net.open);
      if y.owns {
        OwnMeshOpen(View(), y, net.live, net.open);
        OnlyOwnRegistrations(View(), y, net.live, net.open);
        net.Close(y.mesh);
      }
      st := Success;
    }

    /** flagcxOneSideRetainCleanup. */
    method RetainCleanup(x: Info)
      requires ValidWith(Some(x))
      modifies this`pending
      ensures Valid() && View() == old(View()).(pending := old(pending) + [Some(x)])
    {
      AfterRetain(View(), x, net.live, net.open);
      hide Sound;
      pending := pending + [Some(x)];
    }

    // ---------------------------------------------------------------------- registering

    /** The local part of flagcxOneSideRegisterInternal once the slot is chosen. `meshBuilt`,
        `prepared` and `exchanged` are the common outcomes; `released` is the provider's answer to
        a rollback. */
    method Register(slot: nat, acquire: bool, meshBuilt: bool, granted: bool, prepared: bool,
                    exchanged: bool, released: bool) returns (st: Status)
      requires Valid()
      requires if slot == 0 then handles == [] else handles != [] && (slot < |handles| ==> handles[slot].None?)
      requires prepared ==> granted
      modifies this, net
      ensures Valid()
      ensures st == Success <==> (slot == 0 ==> meshBuilt) && prepared && exchanged
      ensures signal == old(signal) && staging == old(staging)
      ensures st == Success ==>
        && pending == old(pending) && slot < |handles| && handles[slot].Some?
        && handles == Fill(old(handles), slot, handles[slot].value)
        && handles[slot].value.mr.Some? && handles[slot].value.owns == (slot == 0)
      ensures st != Success ==>
        && handles == old(handles)
        && (pending == old(pending) || (!released && |pending| == |old(pending)| + 1 && pending[..|old(pending)|] == old(pending)))
    {
      hide Sound;
      var first := slot == 0;
      var mesh;
      if first {
        if !meshBuilt { return RemoteError; }
        mesh := net.Connect();
        NewMesh(View(), net.live, old(net.open), mesh);
      } else {
        NewSharer(View(), net.live, net.open);
        mesh := handles[0].value.mesh;
      }
      var x := Info(mesh, first, None, 0, false);
      MeshIsOpen(View(), x, net.live, net.open);
      ghost var live := net.live;
      var mr := net.RegMr(mesh, granted);
      if mr.Some? {
        AfterReg(View(), x, live, net.open, mr.value);
        x := x.(mr := mr);
      }
      if prepared && exchanged {
        x := x.(windowRefs := if acquire then 1 else 0, commOwned := !acquire);
        CountsDoNotMatter(View(), x.(windowRefs := 0, commOwned := false), x, net.live, net.open);
        PublishData(View(), x, net.live, net.open, slot);
        handles := Fill(handles, slot, x);
        return Success;
      }
      st := RemoteError;
      var cleaned := CleanupHandle(x, released);
      if cleaned != Success { RetainCleanup(x); }
    }

    /** flagcxOneSideEnsureFullMesh after its cleanup retry: a mesh without registration. */
    method EnsureMesh(built: bool) returns (st: Status)
      requires Valid()
      modifies this`handles, net
      ensures Valid()
      ensures st == Success <==> old(handles) != [] || built
      ensures st == Success ==> handles != []
      ensures old(handles) != [] || st != Success ==> handles == old(handles)
    {
      hide Sound;
      if handles != [] { return Success; }
      if !built { return RemoteError; }
      var mesh := net.Connect();
      var x := Info(mesh, true, None, 0, false);
      NewMesh(View(), net.live, old(net.open), mesh);
      PublishData(View(), x, net.live, net.open, 0);
      handles := Fill(handles, 0, x);
      return Success;
    }

    /** The network part of flagcxOneSideSignalRegisterInternal, and flagcxOneSideStagingRegister: both
        use the mesh of slot 0, which is built if need be. */
    method RegisterShared(forSignal: bool, built: bool, granted: bool, prepared: bool, exchanged: bool,
                          released: bool) returns (st: Status)
      requires Valid() && (prepared ==> granted)
      modifies this`handles, this`signal, this`staging, this`pending, net
      ensures Valid()
      ensures if forSignal then staging == old(staging) else signal == old(signal)
      ensures old((if forSignal then signal else staging).Some?) ==> st == Success && View() == old(View())
      ensures old((if forSignal then signal else staging).None?) ==>
        && (st == Success <==> (old(handles) != [] || built) && prepared && exchanged)
        && (st == Success <==> (if forSignal then signal else staging).Some?)
    {
      hide Sound;
      if (if forSignal then signal else staging).Some? { return Success; }
      st := EnsureMesh(built);
      if st != Success { return; }
      NewSharer(View(), net.live, net.open);
      var x := Info(handles[0].value.mesh, false, None, 0, false);
      ghost var live := net.live;
      var mr := net.RegMr(x.mesh, granted);
      if mr.Some? {
        AfterReg(View(), x, live, net.open, mr.value);
        x := x.(mr := mr);
      }
      if prepared && exchanged {
        PublishShared(View(), x, net.live, net.open);
        if forSignal { signal := Some(x); } else { staging := Some(x); }
        return Success;
      }
      st := RemoteError;
      var cleaned := CleanupHandle(x, released);
      if cleaned != Success { RetainCleanup(x); }
    }

    /** flagcxOneSideSignalRegisterInternal: the buffer is mapped for IPC first, where that is possible,
        and then registered with the network. Either is enough. `network` tells whether the adaptor can
        and the bootstrap exists; the other answers are those of the network part. */
    method RegisterSignal(call: SignalCall, ipc: bool, network: bool, built: bool, granted: bool, prepared: bool,
                          exchanged: bool, released: bool) returns (st: Status)
      requires Valid() && SignalOk() && (prepared ==> granted)
      modifies this`handles, this`signal, this`staging, this`pending, this`signalBase, this`signalIpc, net
      ensures Valid() && SignalOk() && staging == old(staging)
      ensures CallAnswer(call, old(signalBase)).Some? ==>
        && st == CallAnswer(call, old(signalBase)).value
        && View() == old(View()) && signalBase == old(signalBase) && signalIpc == old(signalIpc)
      ensures CallAnswer(call, old(signalBase)).None? ==>
        var shared := network && (old(handles) != [] || built) && prepared && exchanged;
        && (st == Success <==> ipc || shared)
        && (signal.Some? <==> shared)
        && signalBase == (if st == Success then Some(call.buffer) else None)
        && signalIpc == ipc
    {
      hide Sound;
      if !call.sized { return InvalidArgument; }
      if call.homogeneous { return Success; }
      if !call.hetero { return NotSupported; }
      if signalBase.Some? { return if signalBase == Some(call.buffer) then Success else InvalidUsage; }
      if !call.ptrOk { return InvalidArgument; }
      signalBase, signalIpc := Some(call.buffer), ipc;
      if !network {
        st := NotSupported;
      } else {
        st := RegisterShared(true, built, granted, prepared, exchanged, released);
      }
      if st != Success {
        if ipc { return Success; }
        signalBase := None;
      }
    }

    /** flagcxOneSideSignalDeregister: a refused release keeps everything. */
    method DeregisterSignal(granted: bool) returns (st: Status)
      requires Valid() && SignalOk()
      modifies this`signal, this`staging, this`signalBase, this`signalIpc, net
      ensures Valid() && SignalOk() && staging == old(staging)
      ensures st == Success ==> signalBase.None? && signal.None? && !signalIpc
      ensures st != Success ==> signal == old(signal) && signalBase == old(signalBase) && signalIpc == old(signalIpc)
    {
      hide Sound;
      if signalBase.None? && signal.None? { return Success; }
      st := DeregisterShared(true, granted);
      if st == Success { signalBase, signalIpc := None, false; }
    }

    /** A further reference to the handle at index. */
    method Reuse(index: nat, acquire: bool)
      requires Valid() && index < |handles| && handles[index].Some?
      modifies this`handles
      ensures Valid()
      ensures var x := old(handles[index].value);
        handles == old(handles)[index := Some(if acquire then x.(windowRefs := x.windowRefs + 1) else x.(commOwned := true))]
    {
      hide Sound;
      var x := handles[index].value;
      var y := if acquire then x.(windowRefs := x.windowRefs + 1) else x.(commOwned := true);
      Recount(View(), net.live, net.open, index, x, y);
      handles := handles[index := Some(y)];
    }

    // -------------------------------------------------------------------- deregistering

    /** flagcxOneSideDeregisterInternal: the last window reference releases the registration, but
        never the mesh. */
    method DeregisterWindow(index: nat, granted: bool) returns (st: Status)
      requires Valid()
      modifies this`handles, net
      ensures Valid() && net.open == old(net.open)
      ensures index >= |old(handles)| || old(handles)[index].None? || old(handles)[index].value.windowRefs == 0 ==>
        st != Success && handles == old(handles)
      ensures st != Success ==> handles == old(handles) && net.live == old(net.live)
      ensures st == Success ==>
        var x := old(handles)[index].value;
        if x.windowRefs > 1 || x.commOwned
        then handles == old(handles)[index := Some(x.(windowRefs := x.windowRefs - 1))] && net.live == old(net.live)
        else handles == old(handles)[index := if index == 0 then Some(x.(mr := None, windowRefs := 0)) else None]
             && net.live == if x.mr.Some? then old(net.live) - {x.mr.value} else old(net.live)
      ensures index < |old(handles)| && old(handles)[index].Some? && old(handles)[index].value.windowRefs > 0 ==>
        (st == Success <==> (old(handles)[index].value.windowRefs > 1 || old(handles)[index].value.commOwned
                             || old(handles)[index].value.mr.None? || granted))
    {
      hide Sound;
      if index >= |handles| { return InvalidArgument; }
      if handles[index].None? || handles[index].value.windowRefs == 0 { return InvalidUsage; }
      var x := handles[index].value;
      if x.windowRefs > 1 || x.commOwned {
        var y := x.(windowRefs := if x.windowRefs > 1 then x.windowRefs - 1 else 0);
        Recount(View(), net.live, net.open, index, x, y);
        handles := handles[index := Some(y)];
        return Success;
      }
      SlotRole(View(), net.live, net.open, index);
      if index == 0 {
        DetachOwner(View(), net.live, net.open, x);
        if x.mr.Some? {
          AfterRelease(View().(data := handles[0 := Some(x.(mr := None, windowRefs := 0))]), x.(owns := false), net.live, net.open);
          st := net.DeregMr(x.mr.value, granted);
          if st != Success { return; }
        }
        AfterClose(View().(data := handles[0 := Some(x.(mr := None, windowRefs := 0))]), x.(owns := false, mr := None), net.live, net.open);
        handles := handles[0 := Some(x.(mr := None, windowRefs := 0))];
        return Success;
      }
      TakeData(View(), net.live, net.open, index);
      if x.mr.Some? {
        AfterRelease(View().(data := handles[index := None]), x, net.live, net.open);
        st := net.DeregMr(x.mr.value, granted);
        if st != Success { return; }
      }
      AfterClose(View().(data := handles[index := None]), x.(mr := None), net.live, net.open);
      handles := handles[index := None];
      return Success;
    }

    /** flagcxOneSideSignalDeregister and flagcxOneSideStagingDeregister. */
    method DeregisterShared(forSignal: bool, granted: bool) returns (st: Status)
      requires Valid()
      modifies this`signal, this`staging, net
      ensures Valid()
      ensures if forSignal then staging == old(staging) else signal == old(signal)
      ensures st == Success <==> (if forSignal then signal else staging).None?
      ensures st != Success ==> signal == old(signal) && staging == old(staging)
    {
      hide Sound;
      TakeShared(View(), net.live, net.open);
      var x := if forSignal then signal else staging;
      if x.None? { return Success; }
      if forSignal { signal := None; } else { staging := None; }
      st := CleanupHandle(x.value, granted);
      if st != Success {
        PublishShared(View(), x.value, net.live, net.open);
        if forSignal { signal := x; } else { staging := x; }
      }
    }

    /** flagcxOneSideRetryPendingCleanup: stops at the first cleanup that still fails. */
    method RetryPending(granted: nat -> bool) returns (st: Status)
      requires Valid()
      modifies this`pending, net
      ensures Valid()
      ensures st == Success <==> pending == []
      ensures |pending| <= |old(pending)| && pending == old(pending)[..|pending|]
    {
      hide Sound;
      ghost var before := pending;
      while pending != []
        invariant Valid() && |pending| <= |before| && pending == before[..|pending|]
        decreases |pending|
      {
        var n := |pending| - 1;
        TakePending(View(), net.live, net.open);
        var x := pending[n].value;
        pending := pending[..n];
        st := CleanupHandle(x, granted(n));
        if st != Success {
          RetainCleanup(x);
          return;
        }
      }
      st := Success;
    }

    /** flagcxOneSideDeregister: retained cleanups first, then the data handles in reverse order,
        the connection owner last and only without signal and staging handles. */
    method DeregisterAll(retried: nat -> bool, granted: nat -> bool) returns (st: Status)
      requires Valid()
      modifies this`handles, this`pending, net
      ensures Valid()
      ensures st == Success <==> pending == [] && handles == []
      ensures st == Success ==> net.live == map[] && signal.None? && staging.None?
      ensures signal == old(signal) && staging == old(staging)
      ensures st != Success ==>
        |handles| == |old(handles)| && (handles != [] ==> handles[0] == old(handles)[0])
    {
      hide Sound;
      st := RetryPending(retried);
      if st != Success { return; }
      var i := |handles|;
      while i > 1
        invariant Valid() && pending == [] && |handles| == |old(handles)|
        invariant 0 <= i <= |handles| && (handles != [] ==> i >= 1)
        invariant forall k :: 0 < k && i <= k < |handles| ==> handles[k].None?
        invariant forall k :: 0 <= k < i ==> handles[k] == old(handles)[k]
      {
        i := i - 1;
        if handles[i].Some? {
          var x := handles[i].value;
          TakeData(View(), net.live, net.open, i);
          handles := handles[i := None];
          st := CleanupHandle(x, granted(i));
          if st != Success {
            PublishData(View(), x, net.live, net.open, i);
            handles := Fill(handles, i, x);
            return;
          }
        }
      }
      if handles == [] {
        NothingLeft(View(), net.live, net.open);
        return Success;
      }
      if signal.Some? || staging.Some? { return InProgress; }
      SlotRole(View(), net.live, net.open, 0);
      var x := handles[0].value;
      if x.mr.Some? {
        var y := x.(mr := None, windowRefs := 0);
        DetachOwner(View(), net.live, net.open, x);
        AfterRelease(View().(data := handles[0 := Some(y)]), x.(owns := false), net.live, net.open);
        st := net.DeregMr(x.mr.value, granted(0));
        if st != Success { return; }
        AfterClose(View().(data := handles[0 := Some(y)]), x.(owns := false, mr := None), net.live, net.open);
        handles := handles[0 := Some(y)];
        x := y;
      }
      TakeOwner(View(), net.live, net.open);
      ghost var empty := Handles([], None, None, []);
      OwnMeshOpen(empty, x, net.live, net.open);
      OnlyOwnRegistrations(empty, x, net.live, net.open);
      AfterClose(empty, x, net.live, net.open);
      net.Close(x.mesh);
      handles := [];
      NothingLeft(View(), net.live, net.open);
      return Success;
    }
  }

  lemma MeshIsOpen(h: Handles, x: Info, live: map<nat, nat>, open: set<nat>)
    requires Sound(h, Some(x), live, open)
    ensures x.mesh in open
  {}

  lemma CountsDoNotMatter(h: Handles, x: Info, x': Info, live: map<nat, nat>, open: set<nat>)
    requires Sound(h, Some(x), live, open)
    requires x' == x.(windowRefs := x'.windowRefs, commOwned := x'.commOwned)
    ensures Sound(h, Some(x'), live, open)
  {
    assert Mr(Some(x')) == Mr(Some(x));
    hide AllOnMesh, DataMeshes, PendingMeshes, Mr;
  }

  lemma SlotRole(h: Handles, live: map<nat, nat>, open: set<nat>, i: nat)
    requires Sound(h, None, live, open) && i < |h.data|
    ensures h.data[0].Some? && h.data[0].value.owns
    ensures i > 0 && h.data[i].Some? ==> !h.data[i].value.owns
  {
    assert i > 0 ==> Shares(h.data[i], h.data);
  }

  lemma OwnMeshOpen(h: Handles, x: Info, live: map<nat, nat>, open: set<nat>)
    requires Sound(h, Some(x), live, open) && x.owns
    ensures x.mesh in open
  {}

  lemma AfterRetain(h: Handles, x: Info, live: map<nat, nat>, open: set<nat>)
    requires Sound(h, Some(x), live, open)
    ensures Sound(h.(pending := h.pending + [Some(x)]), None, live, open)
  {
    hide Held, Mrs, Meshes, OnMesh;
    RetainHeld(h, x);
    RetainMeshes(h, x, open);
    RetainRegistered(h, x, live);
  }

  lemma RetainRegistered(h: Handles, x: Info, live: map<nat, nat>)
    requires Registered(h, Some(x), live)
    ensures Registered(h.(pending := h.pending + [Some(x)]), None, live)
  {}

  lemma RetainHeld(h: Handles, x: Info)
    ensures Held(h.(pending := h.pending + [Some(x)]), None) == Held(h, Some(x))
  {
    hide Mrs;
    MrsAppend(h.pending, Some(x));
    assert Mr(None) == multiset{};
    hide Mr;
  }

  lemma RetainMeshes(h: Handles, x: Info, open: set<nat>)
    requires Meshes(h, Some(x), open)
    ensures Meshes(h.(pending := h.pending + [Some(x)]), None, open)
  {
    var ps := h.pending + [Some(x)];
    assert forall j :: 0 <= j < |h.pending| ==> ps[j] == h.pending[j];
    assert ps[|h.pending|] == Some(x);
    forall j, k | 0 <= j < |ps| && 0 <= k < |ps| && j != k && ps[j].value.owns
      ensures ps[j].value.mesh != ps[k].value.mesh
    {
      if j < |h.pending| && k == |h.pending| && !x.owns { assert OwnMesh(h.pending[j].value, h.data, open); }
    }
    hide OwnMesh;
  }
}
