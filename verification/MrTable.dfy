// The memory-region registry as a table (flagcx/core/flagcx_mr_registry.cc): what each operation
// does to the set of registered regions, without the sorted array and the id index.

module MrTable {
  import opened Results

  const SPACE: nat := 0x1_0000_0000_0000_0000

  datatype Owner = P2p | Coll | Rma

  /** A subsystem extension; only P2P extensions use mrId. */
  datatype Ext = Ext(mrId: nat, payload: nat)

  datatype Entry = Entry(
    base: nat, size: nat, ibDevN: int, ptrType: int,
    owners: set<Owner>, handles: map<Owner, nat>, exts: map<Owner, Ext>)

  datatype Table = Table(entries: map<nat, Entry>, nextId: nat)

  /** What a registration is asked for. A missing owner is an unknown owner bit. `room` and
      `indexRoom` tell whether the two arrays have, or can be given, room for one more. */
  datatype Request = Request(
    addr: nat, size: nat, ibDevN: int, ptrType: int, owner: Option<Owner>,
    handle: nat, ext: Option<Ext>, wantId: bool, room: bool, indexRoom: bool)

  datatype Outcome = Outcome(table: Table, status: Status, id: Option<nat>)

  function MrId(e: Entry): nat { if P2p in e.exts then e.exts[P2p].mrId else 0 }

  predicate Contains(e: Entry, addr: nat) { e.base <= addr < e.base + e.size }

  predicate Overlaps(t: Table, addr: nat, size: nat) {
    exists b <- t.entries :: b < addr + size && addr < b + t.entries[b].size
  }

  /** The id of a new P2P registration, and the counter after it, in 64-bit arithmetic. */
  function AssignId(nextId: nat, ext: Ext): (r: (nat, nat)) {
    var id := if ext.mrId == 0 then nextId else ext.mrId;
    var next := if ext.mrId == 0 then (nextId + 1) % SPACE else nextId;
    (id, if id >= next then (id + 1) % SPACE else next)
  }

  /** flagcxMrRegistry appends ids in increasing order only. */
  predicate Appendable(t: Table, id: nat) {
    forall b <- t.entries :: P2p in t.entries[b].owners ==> MrId(t.entries[b]) < id
  }

  predicate BadRange(addr: nat, size: nat) { size == 0 || addr == 0 || (addr + size) % SPACE < addr }

  /** What a new owner gets: the id of its extension, the counter afterwards, the id reported. */
  datatype Grant = Grant(status: Status, mrId: nat, nextId: nat, id: Option<nat>)

  function Take(t: Table, q: Request): (g: Grant)
    requires q.owner.Some? && q.ext.Some?
  {
    if q.owner.value == P2p then
      var (id, next) := AssignId(t.nextId, q.ext.value);
      if !Appendable(t, id) then Grant(InternalError, id, next, None)
      else if !q.indexRoom then Grant(SystemError, id, next, None)
      else Grant(Success, id, next, if q.wantId then Some(id) else None)
    else if q.wantId then Grant(Success, q.ext.value.mrId, (t.nextId + 1) % SPACE, Some(t.nextId))
    else Grant(Success, q.ext.value.mrId, t.nextId, None)
  }

  function WithOwner(e: Entry, q: Request, mrId: nat): Entry
    requires q.owner.Some? && q.ext.Some?
  {
    e.(owners := e.owners + {q.owner.value}, handles := e.handles[q.owner.value := q.handle],
       exts := e.exts[q.owner.value := q.ext.value.(mrId := mrId)])
  }

  /** Gives entry e (in the table or not yet) a new owner. */
  function AddOwner(t: Table, e: Entry, q: Request): (o: Outcome)
    requires q.owner.Some? && q.ext.Some?
  {
    var g := Take(t, q);
    if g.status != Success then Outcome(t.(nextId := g.nextId), g.status, None)
    else Outcome(Table(t.entries[e.base := WithOwner(e, q, g.mrId)], g.nextId), Success, g.id)
  }

  /** A second registration by an owner: the handle follows the caller, a new extension replaces
      the old one but keeps its id. The handle is updated before the id conflict is noticed. */
  function RenewEntry(e: Entry, q: Request): (r: (Entry, Status, Option<nat>))
    requires q.owner.Some?
  {
    var owner := q.owner.value;
    var e1 := if q.handle != 0 then e.(handles := e.handles[owner := q.handle]) else e;
    if q.ext.None? then
      (e1, Success, if q.wantId then Some(if owner == P2p then MrId(e) else 0) else None)
    else if owner == P2p && q.ext.value.mrId != 0 && MrId(e) != 0 && q.ext.value.mrId != MrId(e) then
      (e1, InternalError, None)
    else
      var ext := if owner == P2p && q.ext.value.mrId == 0 then q.ext.value.(mrId := MrId(e)) else q.ext.value;
      (e1.(exts := e.exts[owner := ext]), Success,
       if q.wantId then Some(if owner == P2p then ext.mrId else 0) else None)
  }

  function Renew(t: Table, e: Entry, q: Request): (o: Outcome)
    requires q.owner.Some?
  {
    var (e', st, id) := RenewEntry(e, q);
    Outcome(t.(entries := t.entries[e.base := e']), st, id)
  }

  function NewEntry(q: Request): Entry {
    Entry(q.addr, q.size, q.ibDevN, q.ptrType, {}, map[], map[])
  }

  function Register(t: Table, q: Request): (o: Outcome) {
    if BadRange(q.addr, q.size) || q.owner.None? then Outcome(t, InternalError, None)
    else if q.addr in t.entries then
      var e := t.entries[q.addr];
      if e.size != q.size || e.ibDevN != q.ibDevN || e.ptrType != q.ptrType then Outcome(t, InternalError, None)
      else if q.owner.value in e.owners then Renew(t, e, q)
      else if q.ext.None? then Outcome(t, InternalError, None)
      else AddOwner(t, e, q)
    else if Overlaps(t, q.addr, q.size) || q.ext.None? then Outcome(t, InternalError, None)
    else if !q.room then Outcome(t, SystemError, None)
    else AddOwner(t, NewEntry(q), q)
  }

  function Deregister(t: Table, addr: nat, owner: Option<Owner>): (r: (Table, Status)) {
    if owner.None? || addr !in t.entries || owner.value !in t.entries[addr].owners then (t, InternalError)
    else
      var e := t.entries[addr];
      var left := e.(owners := e.owners - {owner.value}, handles := e.handles - {owner.value},
                     exts := e.exts - {owner.value});
      (t.(entries := if left.owners == {} then t.entries - {addr} else t.entries[addr := left]), Success)
  }

  // --------------------------------------------------------------------------- invariant

  ghost predicate EntryOk(e: Entry) {
    && 0 < e.base && 0 < e.size && e.base + e.size < SPACE
    && e.owners != {} && e.owners == e.exts.Keys == e.handles.Keys
  }

  ghost predicate Disjoint(t: Table) {
    forall b, c :: b in t.entries && c in t.entries && b < c ==> b + t.entries[b].size <= c
  }

  ghost predicate IdsOk(t: Table) {
    && 1 <= t.nextId < SPACE
    && (forall b <- t.entries :: P2p in t.entries[b].owners ==> 0 < MrId(t.entries[b]) < t.nextId)
    && (forall b, c :: b in t.entries && c in t.entries && b != c ==>
          P2p !in t.entries[b].owners || P2p !in t.entries[c].owners || MrId(t.entries[b]) != MrId(t.entries[c]))
  }

  ghost predicate TableOk(t: Table) {
    && (forall b <- t.entries :: t.entries[b].base == b && EntryOk(t.entries[b]))
    && Disjoint(t) && IdsOk(t)
  }

  /** Machine words. */
  predicate Words(q: Request) {
    q.addr < SPACE && q.size < SPACE && (q.ext.Some? ==> q.ext.value.mrId < SPACE)
  }

  /** The id counter does not wrap: the caller did not choose the largest id, and the counter has
      one more to give if it must give one. */
  predicate NoWrap(t: Table, q: Request) {
    if q.owner == Some(P2p) && q.ext.Some?
    then q.ext.value.mrId != SPACE - 1 && (q.ext.value.mrId == 0 ==> t.nextId != SPACE - 1)
    else q.wantId ==> t.nextId != SPACE - 1
  }

  lemma PutKeepsDisjoint(t: Table, e: Entry, next: nat)
    requires Disjoint(t) && (forall b <- t.entries :: t.entries[b].size > 0)
    requires e.size > 0
    requires e.base in t.entries ==> t.entries[e.base].size == e.size
    requires e.base !in t.entries ==> !Overlaps(t, e.base, e.size)
    ensures Disjoint(Table(t.entries[e.base := e], next))
  {
    var t' := Table(t.entries[e.base := e], next);
    forall b, c | b in t'.entries && c in t'.entries && b < c ensures b + t'.entries[b].size <= c {
      if e.base !in t.entries {
        assert b in t.entries ==> !(b < e.base + e.size && e.base < b + t.entries[b].size);
        assert c in t.entries ==> !(c < e.base + e.size && e.base < c + t.entries[c].size);
      }
    }
  }

  /** Replacing one entry, or adding one, keeps the table in order. */
  lemma PutKeepsOk(t: Table, e: Entry, next: nat)
    requires TableOk(t) && EntryOk(e) && t.nextId <= next < SPACE
    requires e.base in t.entries ==> t.entries[e.base].size == e.size
    requires e.base !in t.entries ==> !Overlaps(t, e.base, e.size)
    requires P2p in e.owners ==> 0 < MrId(e) < next
    requires P2p in e.owners ==>
      forall b <- t.entries :: b != e.base && P2p in t.entries[b].owners ==> MrId(t.entries[b]) != MrId(e)
    ensures TableOk(Table(t.entries[e.base := e], next))
  {
    forall b | b in t.entries ensures t.entries[b].size > 0 { assert EntryOk(t.entries[b]); }
    PutKeepsDisjoint(t, e, next);
    hide EntryOk, Disjoint, Overlaps, MrId;
  }

  lemma NextIdStays(t: Table, next: nat)
    requires TableOk(t) && t.nextId <= next < SPACE
    ensures TableOk(t.(nextId := next))
  {
    hide EntryOk, MrId;
  }

  lemma AssignedId(t: Table, q: Request)
    requires 1 <= t.nextId < SPACE && q.owner == Some(P2p) && q.ext.Some? && Words(q) && NoWrap(t, q)
    ensures var (id, next) := AssignId(t.nextId, q.ext.value);
      0 < id < next && t.nextId <= next < SPACE
  {}

  lemma AddOwnerKeepsOk(t: Table, e: Entry, q: Request)
    requires TableOk(t) && Words(q) && NoWrap(t, q) && q.owner.Some? && q.ext.Some?
    requires 0 < e.base && 0 < e.size && e.base + e.size < SPACE
    requires e.owners == e.exts.Keys == e.handles.Keys && q.owner.value !in e.owners
    requires e.base in t.entries ==> t.entries[e.base] == e
    requires e.base !in t.entries ==> e.owners == {} && !Overlaps(t, e.base, e.size)
    ensures TableOk(AddOwner(t, e, q).table)
  {
    if q.owner.value == P2p { AssignedId(t, q); }
    var o := AddOwner(t, e, q);
    hide TableOk, Overlaps, AssignId, EntryOk;
    assert IdsOk(t) && 1 <= t.nextId < SPACE by { TableIds(t); }
    if o.status == Success {
      var e' := o.table.entries[e.base];
      assert q.owner.value in e'.owners && e'.owners == e'.exts.Keys == e'.handles.Keys;
      assert EntryOk(e') by { EntryFrom(e'); }
      assert q.owner.value != P2p ==> MrId(e') == MrId(e);
      PutKeepsOk(t, e', o.table.nextId);
    } else {
      NextIdStays(t, o.table.nextId);
    }
  }

  lemma TableIds(t: Table)
    requires TableOk(t)
    ensures IdsOk(t)
  {}

  lemma EntryFrom(e: Entry)
    requires 0 < e.base && 0 < e.size && e.base + e.size < SPACE
    requires e.owners != {} && e.owners == e.exts.Keys == e.handles.Keys
    ensures EntryOk(e)
  {}

  lemma RenewKeepsOk(t: Table, e: Entry, q: Request)
    requires TableOk(t) && q.owner.Some? && e.base in t.entries && t.entries[e.base] == e && q.owner.value in e.owners
    ensures TableOk(Renew(t, e, q).table)
  {
    var o := Renew(t, e, q);
    assert EntryOk(e);
    var e' := o.table.entries[e.base];
    assert e'.exts.Keys == e.exts.Keys && e'.handles.Keys == e.handles.Keys;
    assert MrId(e') == MrId(e) by { RenewKeepsId(t, e, q); }
    hide Renew, MrId, Disjoint;
    assert o.table == Table(t.entries[e.base := e'], t.nextId) by { RenewShape(t, e, q); }
    PutKeepsOk(t, e', t.nextId);
  }

  lemma RenewShape(t: Table, e: Entry, q: Request)
    requires q.owner.Some? && e.base in t.entries
    ensures Renew(t, e, q).table == Table(t.entries[e.base := Renew(t, e, q).table.entries[e.base]], t.nextId)
  {}

  /** The id survives every second registration. */
  lemma RenewKeepsId(t: Table, e: Entry, q: Request)
    requires TableOk(t) && q.owner.Some? && e.base in t.entries && t.entries[e.base] == e && q.owner.value in e.owners
    ensures MrId(Renew(t, e, q).table.entries[e.base]) == MrId(e)
  {
    assert EntryOk(e);
    assert IdsOk(t);
  }

  /** Registering keeps the table sorted out: regions disjoint and unwrapped, every entry owned,
      P2P ids distinct and below the counter. */
  lemma RegisterKeepsOk(t: Table, q: Request)
    requires TableOk(t) && Words(q) && NoWrap(t, q)
    ensures TableOk(Register(t, q).table)
  {
    hide Overlaps;
    if !BadRange(q.addr, q.size) && q.owner.Some? {
      if q.addr in t.entries {
        var e := t.entries[q.addr];
        assert EntryOk(e);
        if q.owner.value in e.owners { RenewKeepsOk(t, e, q); }
        else if q.ext.Some? { AddOwnerKeepsOk(t, e, q); }
      } else if q.ext.Some? && !Overlaps(t, q.addr, q.size) {
        AddOwnerKeepsOk(t, NewEntry(q), q);
      }
    }
  }

  lemma DeregisterKeepsOk(t: Table, addr: nat, owner: Option<Owner>)
    requires TableOk(t)
    ensures TableOk(Deregister(t, addr, owner).0)
  {
    var t' := Deregister(t, addr, owner).0;
    if t' != t {
      assert EntryOk(t.entries[addr]);
      forall b | b in t'.entries ensures t'.entries[b].base == b && EntryOk(t'.entries[b]) {
        assert EntryOk(t.entries[b]);
      }
    }
  }

  /** A failed registration leaves every entry alone, except in one case: the owner registers
      again with a conflicting id and a new handle, which has by then replaced the old one. */
  lemma FailedRegister(t: Table, q: Request)
    requires TableOk(t) && Register(t, q).status != Success
    ensures Register(t, q).table.entries == t.entries <==>
      !(&& q.addr in t.entries && q.owner == Some(P2p) && P2p in t.entries[q.addr].owners
        && t.entries[q.addr].size == q.size && t.entries[q.addr].ibDevN == q.ibDevN
        && t.entries[q.addr].ptrType == q.ptrType
        && q.handle != 0 && q.handle != t.entries[q.addr].handles[P2p])
  {
    hide Disjoint, Overlaps, Appendable, AssignId;
    if q.addr in t.entries {
      var e := t.entries[q.addr];
      assert EntryOk(e);
      assert t.entries[q.addr := e] == t.entries;
      assert e.size == q.size ==> !BadRange(q.addr, q.size);
      if q.owner.Some? && q.owner.value in e.owners && e.size == q.size && e.ibDevN == q.ibDevN && e.ptrType == q.ptrType {
        assert Register(t, q) == Renew(t, e, q);
        assert q.handle != 0 ==> Register(t, q).table.entries[q.addr].handles == e.handles[q.owner.value := q.handle];
        assert e.handles[q.owner.value := e.handles[q.owner.value]] == e.handles;
      }
    }
  }

  lemma FailedRegisterCanChangeHandle()
    ensures exists t, q ::
      && TableOk(t) && Words(q) && NoWrap(t, q)
      && Register(t, q).status == InternalError && Register(t, q).table.entries != t.entries
  {
    var e := Entry(4096, 64, 0, 0, {P2p}, map[P2p := 7], map[P2p := Ext(1, 0)]);
    var t := Table(map[4096 := e], 2);
    var q := Request(4096, 64, 0, 0, Some(P2p), 8, Some(Ext(5, 0)), false, true, true);
    assert EntryOk(e);
    assert TableOk(t);
    assert Register(t, q) == Renew(t, e, q);
    assert Register(t, q).table.entries[4096].handles[P2p] == 8;
  }

  // --------------------------------------------------------------------- identifiers

  /** An id that the registry chose itself. */
  function GivenId(t: Table, q: Request): Option<nat> {
    var o := Register(t, q);
    if q.owner.None? || o.status != Success || o.table.nextId == t.nextId then None
    else if q.owner.value != P2p then o.id
    else if q.ext.Some? && q.ext.value.mrId == 0 then Some(t.nextId) else None
  }

  /** A chosen id was the counter, and the counter has moved past it. */
  lemma GivenIdsAdvance(t: Table, q: Request)
    requires TableOk(t) && Words(q) && NoWrap(t, q)
    ensures t.nextId <= Register(t, q).table.nextId
    ensures GivenId(t, q).Some? ==> t.nextId <= GivenId(t, q).value < Register(t, q).table.nextId
    ensures q.ext.Some? && q.owner == Some(P2p) && Register(t, q).status == Success
            && (q.addr in t.entries ==> P2p !in t.entries[q.addr].owners) ==>
      var e := Register(t, q).table.entries[q.addr];
      MrId(e) == if q.ext.value.mrId == 0 then t.nextId else q.ext.value.mrId
  {
    hide Overlaps, Appendable, Disjoint, IdsOk;
    assert 1 <= t.nextId < SPACE by { CounterInRange(t); }
    if q.owner.Some? && q.ext.Some? { TakeAdvances(t, q); }
    hide Take;
    if q.addr in t.entries { assert EntryOk(t.entries[q.addr]) && t.entries[q.addr].base == q.addr; }
  }

  lemma CounterInRange(t: Table)
    requires IdsOk(t)
    ensures 1 <= t.nextId < SPACE
  {}

  /** The counter after an id was given. */
  lemma TakeAdvances(t: Table, q: Request)
    requires 1 <= t.nextId < SPACE && Words(q) && NoWrap(t, q) && q.owner.Some? && q.ext.Some?
    ensures var g := Take(t, q);
      && t.nextId <= g.nextId
      && (q.owner.value == P2p ==> g.mrId == (if q.ext.value.mrId == 0 then t.nextId else q.ext.value.mrId))
      && (q.owner.value == P2p && q.ext.value.mrId == 0 ==> t.nextId < g.nextId)
      && (q.owner.value != P2p ==>
            && g.status == Success && g.id == (if q.wantId then Some(t.nextId) else None)
            && g.nextId == (if q.wantId then t.nextId + 1 else t.nextId))
  {
    hide Appendable;
  }

  /** The request gets as far as giving an entry a new owner. */
  predicate GivesOwner(t: Table, q: Request) {
    && !BadRange(q.addr, q.size) && q.owner.Some? && q.ext.Some?
    && if q.addr in t.entries
       then var e := t.entries[q.addr];
         e.size == q.size && e.ibDevN == q.ibDevN && e.ptrType == q.ptrType && q.owner.value !in e.owners
       else !Overlaps(t, q.addr, q.size) && q.room
  }

  /** Then the table stays in order exactly when the counter does not wrap. A wrapped counter starts over
      at 0 (AfterTheWrap), and then chooses ids it has given before (WrappedIdsComeBack). */
  lemma OrderedUnlessWrapped(t: Table, q: Request)
    requires TableOk(t) && Words(q) && GivesOwner(t, q)
    ensures TableOk(Register(t, q).table) <==> NoWrap(t, q)
    ensures !NoWrap(t, q) ==> Register(t, q).table.nextId == 0
  {
    if NoWrap(t, q) {
      RegisterKeepsOk(t, q);
    } else {
      hide Overlaps, Appendable, Disjoint;
      assert Register(t, q).table.nextId == 0;
    }
  }

  /** The first such input: on an empty registry a P2P owner brings the largest id. */
  lemma LargestIdWraps()
    ensures exists t, q ::
      && TableOk(t) && t.entries == map[] && Words(q) && GivesOwner(t, q)
      && Register(t, q).status == Success && Register(t, q).table.nextId == 0 && !TableOk(Register(t, q).table)
  {
    var t := Table(map[], 1);
    var q := Request(4096, 64, 0, 0, Some(P2p), 7, Some(Ext(SPACE - 1, 0)), false, true, true);
    assert TableOk(t);
    assert Register(t, q) == AddOwner(t, NewEntry(q), q);
    OrderedUnlessWrapped(t, q);
  }

  /** Right after a wrap a P2P registration without an id of its own is given 0. It is refused while any
      P2P region is registered. */
  lemma AfterTheWrap(t: Table, q: Request)
    requires t.nextId == 0 && GivesOwner(t, q) && q.owner == Some(P2p) && q.ext.value.mrId == 0
    ensures Register(t, q).table.nextId == 1
    ensures Register(t, q).status == Success <==>
      q.indexRoom && forall b <- t.entries :: P2p !in t.entries[b].owners
    ensures Register(t, q).status == Success ==> MrId(Register(t, q).table.entries[EntryOf(t, q).base]) == 0
  {
    hide Overlaps;
    assert AssignId(0, q.ext.value) == (0, 1);
    assert Register(t, q) == AddOwner(t, EntryOf(t, q), q);
  }

  /** The entry that would get the new owner. */
  function EntryOf(t: Table, q: Request): Entry { if q.addr in t.entries then t.entries[q.addr] else NewEntry(q) }

  // ------------------------------------------------------------- what a refusal leaves behind

  /** What remains of the extension once the id index was asked. */
  function LeftWith(t: Table, q: Request, st: Status): Option<Ext>
    requires q.owner.Some? && q.ext.Some?
  {
    if st == Success then None else Some(q.ext.value.(mrId := Take(t, q).mrId))
  }

  /** The extension the caller is left with, if the registry did not take it. A P2P extension that got as
      far as the id index keeps the id it was given there. */
  function KeptExt(t: Table, q: Request): Option<Ext> {
    if q.ext.None? || Register(t, q).status == Success then None
    else if GivesOwner(t, q) then LeftWith(t, q, Register(t, q).status)
    else q.ext
  }

  /** A refused P2P registration made again, at any later time, with the extension it left: it asks for
      the id of the first attempt, and gets it exactly when every id in the table is smaller by then. */
  lemma RetryExact(t: Table, q: Request, later: Table)
    requires TableOk(t) && GivesOwner(t, q) && q.owner == Some(P2p) && Register(t, q).status != Success
    requires GivesOwner(later, q)
    ensures KeptExt(t, q).Some? && KeptExt(t, q).value.mrId == (if q.ext.value.mrId == 0 then t.nextId else q.ext.value.mrId) > 0
    ensures var again := q.(ext := KeptExt(t, q), indexRoom := true);
      var o := Register(later, again);
      && (o.status == Success <==> Appendable(later, KeptExt(t, q).value.mrId))
      && (o.status == Success ==> MrId(o.table.entries[EntryOf(later, again).base]) == KeptExt(t, q).value.mrId)
  {
    hide Overlaps, Appendable, Disjoint;
    assert t.nextId >= 1;
    var again := q.(ext := KeptExt(t, q), indexRoom := true);
    assert Register(later, again) == AddOwner(later, EntryOf(later, again), again);
  }

  function P2pRequest(addr: nat, mrId: nat, indexRoom: bool): Request {
    Request(addr, 64, 0, 0, Some(P2p), 7, Some(Ext(mrId, 0)), true, true, indexRoom)
  }

  lemma EnrollNew(t: Table, q: Request)
    requires t.entries.Keys <= {4096} && (forall b <- t.entries :: t.entries[b].size == 64)
    requires (q.addr == 8192 || (q.addr == 4096 && t.entries == map[])) && q.size == 64
    requires q.owner == Some(P2p) && q.ext.Some? && q.room
    ensures GivesOwner(t, q) && Register(t, q) == AddOwner(t, NewEntry(q), q)
  {}

  /** Such a retry can fail for good: the first attempt finds no room in the index, another registration
      is given the next id, and the retry brings the smaller one. Without the old id it would succeed. */
  lemma OvertakenRetry()
    ensures exists t, q, r ::
      && TableOk(t) && GivesOwner(t, q) && Register(t, q).status == SystemError
      && var later := Register(Register(t, q).table, r).table;
         && Register(Register(t, q).table, r).status == Success
         && Register(later, q.(ext := KeptExt(t, q), indexRoom := true)).status == InternalError
         && Register(later, q.(indexRoom := true)).status == Success
  {
    var t := Table(map[], 1);
    var q, r := P2pRequest(8192, 0, false), P2pRequest(4096, 0, true);
    EnrollNew(t, q);
    var t1 := Register(t, q).table;
    assert t1 == Table(map[], 2);
    EnrollNew(t1, r);
    var later := Register(t1, r).table;
    assert later == Table(map[4096 := WithOwner(NewEntry(r), r, 2)], 3);
    EnrollNew(later, q.(ext := KeptExt(t, q), indexRoom := true));
    EnrollNew(later, q.(indexRoom := true));
    assert !Appendable(later, 1);
    assert Appendable(later, 3);
  }

  // ------------------------------------------------------------------------------ runs

  datatype Op = Enroll(q: Request) | Leave(addr: nat, owner: Option<Owner>) | Recreate

  function Do(t: Table, op: Op): Table {
    match op
    case Enroll(q) => Register(t, q).table
    case Leave(addr, owner) => Deregister(t, addr, owner).0
    case Recreate => Table(map[], t.nextId)
  }

  /** The ids the registry chose, in order. */
  function Chosen(t: Table, ops: seq<Op>): (ids: seq<nat>)
    decreases |ops|
  {
    if ops == [] then []
    else
      var rest := Chosen(Do(t, ops[0]), ops[1..]);
      if ops[0].Enroll? && GivenId(t, ops[0].q).Some? then [GivenId(t, ops[0].q).value] + rest else rest
  }

  /** No request of the run makes the counter wrap. */
  ghost predicate Unwrapped(t: Table, ops: seq<Op>)
    decreases |ops|
  {
    ops == [] || ((ops[0].Enroll? ==> Words(ops[0].q) && NoWrap(t, ops[0].q)) && Unwrapped(Do(t, ops[0]), ops[1..]))
  }

  lemma DoKeepsOk(t: Table, op: Op)
    requires TableOk(t) && (op.Enroll? ==> Words(op.q) && NoWrap(t, op.q))
    ensures TableOk(Do(t, op)) && t.nextId <= Do(t, op).nextId
  {
    match op
    case Enroll(q) => RegisterKeepsOk(t, q); GivenIdsAdvance(t, q);
    case Leave(addr, owner) => DeregisterKeepsOk(t, addr, owner);
    case Recreate => assert IdsOk(t);
  }

  /** Over any run of registrations, deregistrations and re-creations the table stays in order and
      the registry never chooses an id twice: every id it chooses is larger than all before. */
  lemma {:induction false} IdsNeverReused(t: Table, ops: seq<Op>)
    requires TableOk(t) && Unwrapped(t, ops)
    ensures forall i :: 0 <= i < |Chosen(t, ops)| ==> t.nextId <= Chosen(t, ops)[i]
    ensures forall i, j :: 0 <= i < j < |Chosen(t, ops)| ==> Chosen(t, ops)[i] < Chosen(t, ops)[j]
    decreases |ops|
  {
    if ops != [] {
      DoKeepsOk(t, ops[0]);
      IdsNeverReused(Do(t, ops[0]), ops[1..]);
      if ops[0].Enroll? { GivenIdsAdvance(t, ops[0].q); }
      hide TableOk, GivenId, NoWrap, Words;
      var rest := Chosen(Do(t, ops[0]), ops[1..]);
      if ops[0].Enroll? && GivenId(t, ops[0].q).Some? {
        assert Chosen(t, ops) == [GivenId(t, ops[0].q).value] + rest;
      }
    }
  }

  ghost predicate InWords(ops: seq<Op>) { forall i :: 0 <= i < |ops| && ops[i].Enroll? ==> Words(ops[i].q) }

  /** One region is enrolled and leaves again, before the rest. */
  function OnceAround(mrId: nat, rest: seq<Op>): seq<Op> {
    [Enroll(P2pRequest(4096, mrId, true)), Leave(4096, Some(P2p))] + rest
  }

  function TwoMore(): seq<Op> { [Enroll(P2pRequest(4096, 0, true)), Enroll(P2pRequest(8192, 0, true))] }

  lemma AllInWords(mrId: nat, rest: seq<Op>)
    requires mrId < SPACE && InWords(rest)
    ensures InWords(OnceAround(mrId, rest))
  {}

  /** One region enrolled on an empty table, and gone again: what the registry chose, and the counter. */
  lemma EnrollAndLeave(n: nat, mrId: nat, next: nat, rest: seq<Op>)
    requires n < SPACE && mrId < SPACE && next != n && AssignId(n, Ext(mrId, 0)).1 == next
    ensures Chosen(Table(map[], n), OnceAround(mrId, rest)) ==
      (if mrId == 0 then [n] else []) + Chosen(Table(map[], next), rest)
  {
    var a := P2pRequest(4096, mrId, true);
    var t, leave := Table(map[], n), Leave(4096, Some(P2p));
    EnrollFirst(n, mrId);
    hide Register, Words, AssignId, GivenId;
    var ops := [Enroll(a), leave] + rest;
    assert ops[1..] == [leave] + rest && ([leave] + rest)[1..] == rest;
    ChosenStep(t, ops);
    ChosenStep(Do(t, Enroll(a)), [leave] + rest);
    LeavesNothing(Do(t, Enroll(a)));
  }

  lemma EnrollFirst(n: nat, mrId: nat)
    requires n < SPACE && mrId < SPACE
    ensures var t := Table(map[], n); var q := P2pRequest(4096, mrId, true);
      var (id, next) := AssignId(n, Ext(mrId, 0));
      && Do(t, Enroll(q)) == Table(map[4096 := WithOwner(NewEntry(q), q, id)], next)
      && (next != n ==> GivenId(t, q) == if mrId == 0 then Some(n) else None)
  {
    EnrollNew(Table(map[], n), P2pRequest(4096, mrId, true));
  }

  /** After the wrap: 0 is chosen, and then 1. */
  lemma ChosenFromZero()
    ensures Chosen(Table(map[], 0), TwoMore()) == [0, 1]
  {
    var a, b := P2pRequest(4096, 0, true), P2pRequest(8192, 0, true);
    var t := Table(map[], 0);
    EnrollFirst(0, 0);
    var t1 := Table(map[4096 := WithOwner(NewEntry(a), a, 0)], 1);
    assert Do(t, Enroll(a)) == t1 && GivenId(t, a) == Some(0);
    EnrollNew(t1, b);
    assert Appendable(t1, 1);
    assert GivenId(t1, b) == Some(1);
    hide Do, GivenId, Register;
    var ops := [Enroll(a), Enroll(b)];
    assert ops[1..] == [Enroll(b)] && [Enroll(b)][1..] == [];
    ChosenStep(t, ops);
    ChosenStep(t1, [Enroll(b)]);
    assert Chosen(Do(t1, Enroll(b)), []) == [];
  }

  /** Once the counter has wrapped, ids come back: a registration before the wrap and the second one after
      it are both given 1. */
  lemma WrappedIdsComeBack()
    ensures exists ops: seq<Op> :: InWords(ops) && Chosen(Table(map[], 1), ops) == [1, 0, 1]
  {
    assert InWords(TwoMore());
    hide Chosen, OnceAround, TwoMore, InWords;
    var second := OnceAround(SPACE - 1, TwoMore());
    AllInWords(SPACE - 1, TwoMore());
    AllInWords(0, second);
    EnrollAndLeave(1, 0, 2, second);
    EnrollAndLeave(2, SPACE - 1, 0, TwoMore());
    ChosenFromZero();
    assert Chosen(Table(map[], 1), OnceAround(0, second)) == [1, 0, 1];
  }

  lemma LeavesNothing(t: Table)
    requires t.entries.Keys == {4096} && t.entries[4096].owners == {P2p}
    ensures Do(t, Leave(4096, Some(P2p))) == Table(map[], t.nextId)
  {
    assert t.entries - {4096} == map[];
  }

  lemma ChosenStep(t: Table, ops: seq<Op>)
    requires ops != []
    ensures Chosen(t, ops) ==
      (if ops[0].Enroll? && GivenId(t, ops[0].q).Some? then [GivenId(t, ops[0].q).value] else [])
      + Chosen(Do(t, ops[0]), ops[1..])
  {}
}
