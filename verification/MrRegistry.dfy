// The memory-region registry as it runs: an array of entries sorted by base address and a second
// array sorted by id, searched by bisection and shifted in place
// (flagcx/core/flagcx_mr_registry.cc). Every operation is proved against the table of the same
// name; lookups are proved against the naive scan.

module MrRegistry {
  import opened Results
  import opened MrTable

  datatype IdEntry = IdEntry(mrId: nat, base: nat)

  // --------------------------------------------------------------------- representation

  ghost predicate Sorted(es: seq<Entry>) {
    forall i, j :: 0 <= i < j < |es| ==> es[i].base < es[j].base
  }

  ghost predicate HasBase(es: seq<Entry>, b: nat) { exists i :: 0 <= i < |es| && es[i].base == b }

  /** The sorted array holds exactly the entries of the table. */
  ghost predicate Represents(es: seq<Entry>, m: map<nat, Entry>) {
    && Sorted(es)
    && (forall i :: 0 <= i < |es| ==> es[i].base in m && m[es[i].base] == es[i])
    && (forall b <- m :: HasBase(es, b))
  }

  ghost predicate Indexed(ix: seq<IdEntry>, b: nat) { exists j :: 0 <= j < |ix| && ix[j].base == b }

  /** The id array is strictly increasing and in bijection with the P2P-owned entries. */
  ghost predicate IndexOk(ix: seq<IdEntry>, m: map<nat, Entry>) {
    && (forall i, j :: 0 <= i < j < |ix| ==> ix[i].mrId < ix[j].mrId)
    && (forall j :: 0 <= j < |ix| ==>
          ix[j].base in m && P2p in m[ix[j].base].owners && MrId(m[ix[j].base]) == ix[j].mrId)
    && (forall b <- m :: P2p in m[b].owners ==> Indexed(ix, b))
  }

  lemma InsertSorted(es: seq<Entry>, pos: nat, e: Entry)
    requires Sorted(es) && pos <= |es|
    requires forall i :: 0 <= i < pos ==> es[i].base < e.base
    requires forall i :: pos <= i < |es| ==> e.base < es[i].base
    ensures var r := es[..pos] + [e] + es[pos..];
      && Sorted(r)
      && (forall i :: 0 <= i < |r| ==> r[i] == if i < pos then es[i] else if i == pos then e else es[i - 1])
      && !HasBase(es, e.base) && HasBase(r, e.base)
      && (forall b :: HasBase(es, b) ==> HasBase(r, b))
  {
    Inserted(es, pos, e);
    hide HasBase;
  }

  lemma Inserted(es: seq<Entry>, pos: nat, e: Entry)
    requires pos <= |es| && forall i :: 0 <= i < |es| ==> es[i].base != e.base
    ensures var r := es[..pos] + [e] + es[pos..];
      && (forall i :: 0 <= i < |r| ==> r[i] == if i < pos then es[i] else if i == pos then e else es[i - 1])
      && !HasBase(es, e.base) && HasBase(r, e.base)
      && (forall b :: HasBase(es, b) ==> HasBase(r, b))
  {
    var r := es[..pos] + [e] + es[pos..];
    assert r[pos] == e;
    forall b | HasBase(es, b) ensures HasBase(r, b) {
      var i :| 0 <= i < |es| && es[i].base == b;
      assert r[if i < pos then i else i + 1].base == b;
    }
  }

  /** A sequence with e between the two halves of another. */
  lemma Spliced(a: seq<Entry>, b: seq<Entry>, pos: nat, e: Entry)
    requires pos <= |a| && |b| == |a| + 1 && b[pos] == e
    requires forall k :: 0 <= k < pos ==> b[k] == a[k]
    requires forall k :: pos < k <= |a| ==> b[k] == a[k - 1]
    ensures b == a[..pos] + [e] + a[pos..]
  {
    assert b[..pos] == a[..pos];
    assert b[pos + 1..] == a[pos..];
  }

  lemma InsertRepresents(es: seq<Entry>, m: map<nat, Entry>, pos: nat, e: Entry)
    requires Represents(es, m) && pos <= |es|
    requires forall i :: 0 <= i < pos ==> es[i].base < e.base
    requires forall i :: pos <= i < |es| ==> e.base < es[i].base
    ensures e.base !in m
    ensures Represents(es[..pos] + [e] + es[pos..], m[e.base := e])
  {
    hide Sorted, HasBase;
    InsertSorted(es, pos, e);
  }

  lemma ReplaceRepresents(es: seq<Entry>, m: map<nat, Entry>, i: nat, e: Entry)
    requires Represents(es, m) && i < |es| && e.base == es[i].base
    ensures Represents(es[i := e], m[e.base := e])
  {
    var r := es[i := e];
    forall b | b in m[e.base := e] ensures HasBase(r, b) {
      assert HasBase(es, b);
      var j :| 0 <= j < |es| && es[j].base == b;
      assert r[j].base == b;
    }
  }

  lemma RemoveSorted(es: seq<Entry>, i: nat)
    requires Sorted(es) && i < |es|
    ensures var r := es[..i] + es[i + 1..];
      && Sorted(r)
      && (forall j :: 0 <= j < |r| ==> r[j] == es[if j < i then j else j + 1] && r[j].base != es[i].base)
      && (forall b :: HasBase(es, b) && b != es[i].base ==> HasBase(r, b))
  {
    var r := es[..i] + es[i + 1..];
    forall b | HasBase(es, b) && b != es[i].base ensures HasBase(r, b) {
      var j :| 0 <= j < |es| && es[j].base == b;
      assert r[if j < i then j else j - 1].base == b;
    }
  }

  lemma RemoveRepresents(es: seq<Entry>, m: map<nat, Entry>, i: nat)
    requires Represents(es, m) && i < |es|
    ensures Represents(es[..i] + es[i + 1..], m - {es[i].base})
  {
    RemoveSorted(es, i);
    hide Sorted, HasBase;
  }

  lemma FillSlot(es: seq<Entry>, pos: nat, e0: Entry, e: Entry)
    requires pos <= |es|
    ensures (es[..pos] + [e0] + es[pos..])[pos := e] == es[..pos] + [e] + es[pos..]
  {}

  /** The index does not notice a change that keeps every P2P id. */
  lemma IndexFrame(ix: seq<IdEntry>, m: map<nat, Entry>, m': map<nat, Entry>)
    requires IndexOk(ix, m)
    requires forall b <- m :: P2p in m[b].owners ==>
      b in m' && P2p in m'[b].owners && MrId(m'[b]) == MrId(m[b])
    requires forall b <- m' :: P2p in m'[b].owners ==> b in m && P2p in m[b].owners
    ensures IndexOk(ix, m')
  {
    hide Indexed;
  }

  lemma AppendIndex(ix: seq<IdEntry>, m: map<nat, Entry>, e: Entry)
    requires IndexOk(ix, m) && P2p in e.owners
    requires e.base in m ==> P2p !in m[e.base].owners
    requires forall j :: 0 <= j < |ix| ==> ix[j].mrId < MrId(e)
    ensures IndexOk(ix + [IdEntry(MrId(e), e.base)], m[e.base := e])
  {
    var r := ix + [IdEntry(MrId(e), e.base)];
    assert r[|ix|].base == e.base;
    forall b | b in m[e.base := e] && P2p in m[e.base := e][b].owners ensures Indexed(r, b) {
      if b != e.base {
        assert Indexed(ix, b);
        var j :| 0 <= j < |ix| && ix[j].base == b;
        assert r[j].base == b;
      }
    }
  }

  lemma CutIndex(ix: seq<IdEntry>, j: nat)
    requires j < |ix|
    ensures var r := ix[..j] + ix[j + 1..];
      && |r| == |ix| - 1
      && (forall i :: 0 <= i < |r| ==> r[i] == ix[if i < j then i else i + 1])
      && (forall b :: Indexed(ix, b) && b != ix[j].base ==> Indexed(r, b))
  {
    var r := ix[..j] + ix[j + 1..];
    forall b | Indexed(ix, b) && b != ix[j].base ensures Indexed(r, b) {
      var i :| 0 <= i < |ix| && ix[i].base == b;
      assert r[if i < j then i else i - 1].base == b;
    }
  }

  lemma RemoveIndex(ix: seq<IdEntry>, m: map<nat, Entry>, j: nat, m': map<nat, Entry>)
    requires IndexOk(ix, m) && j < |ix|
    requires forall b <- m :: b != ix[j].base ==> b in m' && m'[b] == m[b]
    requires forall b <- m' :: if b == ix[j].base then P2p !in m'[b].owners else b in m
    ensures IndexOk(ix[..j] + ix[j + 1..], m')
  {
    CutIndex(ix, j);
    forall i | 0 <= i < |ix| && i != j ensures ix[i].base != ix[j].base {
      assert ix[i].mrId != ix[j].mrId;
    }
    hide Indexed, MrId;
  }

  /** A new id may be appended exactly when it is above the last one. */
  lemma AppendableIsLast(ix: seq<IdEntry>, t: Table, id: nat)
    requires IndexOk(ix, t.entries)
    ensures Appendable(t, id) <==> (ix == [] || ix[|ix| - 1].mrId < id)
  {
    if ix != [] && ix[|ix| - 1].mrId < id {
      forall b | b in t.entries && P2p in t.entries[b].owners ensures MrId(t.entries[b]) < id {
        assert Indexed(ix, b);
      }
    }
    if ix == [] {
      forall b | b in t.entries ensures P2p !in t.entries[b].owners {
        assert P2p in t.entries[b].owners ==> Indexed(ix, b);
      }
    }
  }

  /** Only the two neighbours of the insertion point can overlap a new region. */
  lemma NeighboursDecideOverlap(es: seq<Entry>, t: Table, pos: nat, addr: nat, size: nat)
    requires Represents(es, t.entries) && Disjoint(t) && pos <= |es| && size > 0
    requires forall i :: 0 <= i < |es| ==> es[i].size > 0
    requires forall i :: 0 <= i < pos ==> es[i].base < addr
    requires forall i :: pos <= i < |es| ==> addr < es[i].base
    ensures Overlaps(t, addr, size) <==>
      || (pos > 0 && addr - es[pos - 1].base < es[pos - 1].size)
      || (pos < |es| && es[pos].base - addr < size)
  {
    if pos > 0 {
      assert es[pos - 1].base in t.entries;
      forall i | 0 <= i < pos - 1 ensures es[i].base + es[i].size <= es[pos - 1].base {
        assert es[i].base in t.entries;
      }
    }
    if pos < |es| { assert es[pos].base in t.entries; }
    forall b | b in t.entries && addr < b + t.entries[b].size
      ensures (pos > 0 && b == es[pos - 1].base) || (pos < |es| && es[pos].base <= b)
    {
      NearEntry(es, t, pos, addr, b);
    }
    hide HasBase, Sorted;
  }

  /** An entry that reaches beyond addr is the last one before it or comes after it. */
  lemma NearEntry(es: seq<Entry>, t: Table, pos: nat, addr: nat, b: nat)
    requires Represents(es, t.entries) && Disjoint(t) && pos <= |es|
    requires forall i :: 0 <= i < |es| ==> es[i].size > 0
    requires forall i :: 0 <= i < pos ==> es[i].base < addr
    requires b in t.entries && addr < b + t.entries[b].size
    ensures (pos > 0 && b == es[pos - 1].base) || (pos < |es| && es[pos].base <= b)
  {
    assert HasBase(es, b);
    assert pos > 0 ==> es[pos - 1].base in t.entries;
    var i :| 0 <= i < |es| && es[i].base == b;
    hide HasBase;
  }

  class Registry {
    var entries: array<Entry>
    var count: nat
    var idIndex: array<IdEntry>
    var idCount: nat
    var nextId: nat
    ghost var table: Table

    ghost predicate Valid()
      reads this, entries, idIndex
    {
      && count <= entries.Length && idCount <= idIndex.Length
      && nextId == table.nextId
      && Represents(entries[..count], table.entries)
      && IndexOk(idIndex[..idCount], table.entries)
    }

    /** A new registry; `firstId` is 1, or where the previous global registry stopped. */
    constructor (firstId: nat)
      ensures Valid() && table == Table(map[], firstId)
      ensures fresh(entries) && fresh(idIndex)
    {
      entries := new Entry[0];
      idIndex := new IdEntry[0];
      count, idCount, nextId := 0, 0, firstId;
      table := Table(map[], firstId);
    }

    // ------------------------------------------------------------------------ bisection

    /** The largest index whose base is not above addr, or -1. */
    method BsearchContaining(addr: nat) returns (result: int)
      requires Valid()
      ensures -1 <= result < count
      ensures forall i :: 0 <= i <= result ==> entries[i].base <= addr
      ensures forall i :: result < i < count ==> addr < entries[i].base
    {
      hide IndexOk;
      var lo, hi := 0, count - 1;
      result := -1;
      while lo <= hi
        invariant 0 <= lo <= hi + 1 <= count && result == lo - 1
        invariant forall i :: 0 <= i < lo ==> entries[..count][i].base <= addr
        invariant forall i :: hi < i < count ==> addr < entries[..count][i].base
        decreases hi - lo
      {
        var mid := lo + (hi - lo) / 2;
        assert entries[mid] == entries[..count][mid];
        if entries[mid].base <= addr { result := mid; lo := mid + 1; } else { hi := mid - 1; }
      }
      assert forall i :: 0 <= i < count ==> entries[i] == entries[..count][i];
    }

    method BsearchExact(addr: nat) returns (idx: int)
      requires Valid()
      ensures -1 <= idx < count
      ensures idx >= 0 ==> entries[idx].base == addr && addr in table.entries && table.entries[addr] == entries[idx]
      ensures idx < 0 <==> addr !in table.entries
    {
      hide IndexOk;
      var lo, hi := 0, count - 1;
      idx := -1;
      while lo <= hi
        invariant 0 <= lo <= hi + 1 <= count
        invariant forall i :: 0 <= i < count && (i < lo || hi < i) ==> entries[..count][i].base != addr
        decreases hi - lo
      {
        var mid := lo + (hi - lo) / 2;
        assert entries[mid] == entries[..count][mid];
        if entries[mid].base == addr { return mid; }
        else if entries[mid].base < addr { lo := mid + 1; } else { hi := mid - 1; }
      }
      assert addr in table.entries ==> HasBase(entries[..count], addr);
    }

    method FindInsertionPoint(addr: nat) returns (pos: nat)
      requires Valid() && addr !in table.entries
      ensures pos <= count
      ensures forall i :: 0 <= i < pos ==> entries[..count][i].base < addr
      ensures forall i :: pos <= i < count ==> addr < entries[..count][i].base
    {
      hide IndexOk;
      var lo, hi := 0, count;
      while lo < hi
        invariant 0 <= lo <= hi <= count
        invariant forall i :: 0 <= i < lo ==> entries[..count][i].base < addr
        invariant forall i :: hi <= i < count ==> addr < entries[..count][i].base
      {
        var mid := lo + (hi - lo) / 2;
        assert entries[mid] == entries[..count][mid];
        if entries[mid].base < addr { lo := mid + 1; } else { hi := mid; }
      }
      pos := lo;
    }

    /** Position of an id in the index, or -1. */
    method FindId(mrId: nat) returns (idx: int)
      requires Valid()
      ensures -1 <= idx < idCount
      ensures idx >= 0 ==> idIndex[idx].mrId == mrId
      ensures idx < 0 ==> forall j :: 0 <= j < idCount ==> idIndex[..idCount][j].mrId != mrId
    {
      hide Represents;
      var lo, hi := 0, idCount - 1;
      idx := -1;
      while lo <= hi
        invariant 0 <= lo <= hi + 1 <= idCount
        invariant forall j :: 0 <= j < idCount && (j < lo || hi < j) ==> idIndex[..idCount][j].mrId != mrId
        decreases hi - lo
      {
        var mid := lo + (hi - lo) / 2;
        assert idIndex[mid] == idIndex[..idCount][mid];
        if idIndex[mid].mrId == mrId { return mid; }
        else if idIndex[mid].mrId < mrId { lo := mid + 1; } else { hi := mid - 1; }
      }
    }

    // ------------------------------------------------------------------ shifting in place

    method EnsureCapacity(canGrow: bool) returns (st: Status)
      requires Valid()
      modifies this`entries
      ensures Valid() && entries[..count] == old(entries[..count])
      ensures entries == old(entries) || fresh(entries)
      ensures st == if old(count < entries.Length) || canGrow then Success else SystemError
      ensures st == Success ==> count < entries.Length
    {
      if count < entries.Length { return Success; }
      if !canGrow { return SystemError; }
      var grown := new Entry[if entries.Length == 0 then 16 else 2 * entries.Length]
        (_ => Entry(0, 0, 0, 0, {}, map[], map[]));
      var i := 0;
      while i < count
        invariant 0 <= i <= count
        invariant forall k :: 0 <= k < i ==> grown[k] == entries[k]
        modifies grown
      {
        grown[i] := entries[i];
        i := i + 1;
      }
      assert grown[..count] == entries[..count];
      entries := grown;
      return Success;
    }

    /** Shifts the tail right by one and writes e at pos; the caller adjusts the count. */
    method InsertAt(pos: nat, e: Entry)
      requires count < entries.Length && pos <= count
      modifies entries
      ensures entries[..count + 1] == old(entries[..count])[..pos] + [e] + old(entries[..count])[pos..]
    {
      ghost var a := entries[..count];
      var i := count;
      while i > pos
        invariant pos <= i <= count
        invariant forall k :: 0 <= k < i ==> entries[k] == a[k]
        invariant forall k :: i < k <= count ==> entries[k] == a[k - 1]
      {
        entries[i] := entries[i - 1];
        i := i - 1;
      }
      entries[pos] := e;
      Spliced(a, entries[..count + 1], pos, e);
    }

    /** Shifts the tail of the first n slots left over slot pos. */
    method RemoveAt(pos: nat, n: nat)
      requires pos < n <= entries.Length
      modifies entries
      ensures entries[..n - 1] == old(entries[..n])[..pos] + old(entries[..n])[pos + 1..]
    {
      var i := pos;
      while i + 1 < n
        invariant pos <= i < n
        invariant forall k :: 0 <= k < i ==> entries[k] == (if k < pos then old(entries[k]) else old(entries[k + 1]))
        invariant forall k :: i < k < n ==> entries[k] == old(entries[k])
      {
        entries[i] := entries[i + 1];
        i := i + 1;
      }
    }

    /** idIndexAppend. */
    method AppendId(mrId: nat, base: nat, canGrow: bool) returns (st: Status)
      requires idCount <= idIndex.Length
      modifies this`idIndex, this`idCount, idIndex
      ensures idCount <= idIndex.Length && (idIndex == old(idIndex) || fresh(idIndex))
      ensures st ==
        if old(idCount > 0 && mrId <= idIndex[idCount - 1].mrId) then InternalError
        else if old(idCount < idIndex.Length) || canGrow then Success else SystemError
      ensures idIndex[..idCount] ==
        if st == Success then old(idIndex[..idCount]) + [IdEntry(mrId, base)] else old(idIndex[..idCount])
    {
      if idCount > 0 && mrId <= idIndex[idCount - 1].mrId { return InternalError; }
      if idCount >= idIndex.Length {
        if !canGrow { return SystemError; }
        var grown := new IdEntry[if idIndex.Length == 0 then 16 else 2 * idIndex.Length](_ => IdEntry(0, 0));
        var i := 0;
        while i < idCount
          invariant 0 <= i <= idCount
          invariant forall k :: 0 <= k < i ==> grown[k] == idIndex[k]
          modifies grown
        {
          grown[i] := idIndex[i];
          i := i + 1;
        }
        assert grown[..idCount] == idIndex[..idCount];
        idIndex := grown;
      }
      idIndex[idCount] := IdEntry(mrId, base);
      idCount := idCount + 1;
      return Success;
    }

    /** idIndexRemove, at the position where the id was found. */
    method RemoveId(pos: nat)
      requires pos < idCount <= idIndex.Length
      modifies this`idCount, idIndex
      ensures idCount == old(idCount) - 1
      ensures idIndex[..idCount] == old(idIndex[..idCount])[..pos] + old(idIndex[..idCount])[pos + 1..]
    {
      var i := pos;
      while i + 1 < idCount
        invariant pos <= i < idCount
        invariant forall k :: 0 <= k < i ==> idIndex[k] == (if k < pos then old(idIndex[k]) else old(idIndex[k + 1]))
        invariant forall k :: i < k < idCount ==> idIndex[k] == old(idIndex[k])
        modifies idIndex
      {
        idIndex[i] := idIndex[i + 1];
        i := i + 1;
      }
      idCount := idCount - 1;
    }

    /** Chooses or adopts the id of a new P2P registration and appends it to the index. */
    method TakeId(ext: Ext, base: nat, canGrow: bool) returns (id: nat, st: Status)
      requires idCount <= idIndex.Length && nextId == table.nextId && IndexOk(idIndex[..idCount], table.entries)
      modifies this`nextId, this`idIndex, this`idCount, idIndex
      ensures idCount <= idIndex.Length && (idIndex == old(idIndex) || fresh(idIndex))
      ensures (id, nextId) == AssignId(old(nextId), ext)
      ensures st ==
        if !Appendable(table, id) then InternalError
        else if old(idCount < idIndex.Length) || canGrow then Success else SystemError
      ensures idIndex[..idCount] ==
        if st == Success then old(idIndex[..idCount]) + [IdEntry(id, base)] else old(idIndex[..idCount])
    {
      hide IndexOk, Appendable;
      id := ext.mrId;
      if id == 0 {
        id := nextId;
        nextId := (nextId + 1) % SPACE;
      }
      if id >= nextId { nextId := (id + 1) % SPACE; }
      AppendableIsLast(idIndex[..idCount], table, id);
      st := AppendId(id, base, canGrow);
    }

    // ------------------------------------------------------------------------ registering

    /** Overwrites one entry in place. */
    method SetEntry(idx: nat, e: Entry, ghost next: nat)
      requires idx < count <= entries.Length && idCount <= idIndex.Length && nextId == next
      requires Represents(entries[..count], table.entries) && e.base == entries[idx].base
      requires IndexOk(idIndex[..idCount], table.entries[e.base := e])
      modifies this`table, entries
      ensures Valid() && table == Table(old(table).entries[e.base := e], next)
    {
      ghost var es := entries[..count];
      ReplaceRepresents(es, table.entries, idx, e);
      hide Represents, IndexOk;
      entries[idx] := e;
      assert entries[..count] == es[idx := e];
      table := Table(table.entries[e.base := e], next);
    }

    /** The updated entry of an owner that registers again. */
    static method Renewed(e0: Entry, q: Request) returns (e: Entry, st: Status, id: Option<nat>)
      requires q.owner.Some? && q.owner.value in e0.owners && e0.owners == e0.exts.Keys == e0.handles.Keys
      ensures (e, st, id) == RenewEntry(e0, q)
    {
      e := e0;
      var owner := q.owner.value;
      var previous := MrId(e);
      assert e.handles[owner := e.handles[owner]] == e.handles;
      if q.handle != 0 && e.handles[owner] != q.handle {
        e := e.(handles := e.handles[owner := q.handle]);
      }
      id, st := None, Success;
      if q.ext.Some? {
        var ext := q.ext.value;
        if owner == P2p {
          if ext.mrId != 0 && previous != 0 && ext.mrId != previous { st := InternalError; return; }
          if ext.mrId == 0 { ext := ext.(mrId := previous); }
        }
        e := e.(exts := e.exts[owner := ext]);
      }
      if q.wantId { id := Some(if owner == P2p then MrId(e) else 0); }
    }

    /** The owner registers again. */
    method RenewAt(idx: nat, q: Request) returns (st: Status, id: Option<nat>)
      requires Valid() && TableOk(table) && idx < count && q.owner.Some? && q.owner.value in entries[idx].owners
      modifies this`table, entries
      ensures Valid()
      ensures Outcome(table, st, id) == Renew(old(table), old(entries[idx]), q)
    {
      ghost var e0 := entries[idx];
      assert entries[..count][idx] == e0 && EntryOk(e0);
      var e;
      e, st, id := Renewed(entries[idx], q);
      RenewKeepsId(table, e0, q);
      assert e == Renew(table, e0, q).table.entries[e0.base];
      hide Represents, Renew, RenewEntry;
      assert e.base == e0.base && e.owners == e0.owners by { RenewKeepsPlace(e0, q); }
      IndexFrame(idIndex[..idCount], table.entries, table.entries[e.base := e]);
      hide IndexOk;
      RenewShape(table, e0, q);
      SetEntry(idx, e, table.nextId);
    }

    /** Gives the new owner its id, if it needs one. */
    method TakeOwner(base: nat, q: Request) returns (st: Status, mrId: nat, id: Option<nat>)
      requires idCount <= idIndex.Length && nextId == table.nextId && IndexOk(idIndex[..idCount], table.entries)
      requires q.owner.Some? && q.ext.Some?
      modifies this`nextId, this`idIndex, this`idCount, idIndex
      ensures idCount <= idIndex.Length && (idIndex == old(idIndex) || fresh(idIndex))
      ensures Grant(st, mrId, nextId, id) == Take(table, q.(indexRoom := q.indexRoom || old(idCount < idIndex.Length)))
      ensures idIndex[..idCount] ==
        if st == Success && q.owner.value == P2p then old(idIndex[..idCount]) + [IdEntry(mrId, base)]
        else old(idIndex[..idCount])
    {
      hide IndexOk, Appendable, AssignId;
      st, mrId, id := Success, q.ext.value.mrId, None;
      if q.owner.value == P2p {
        mrId, st := TakeId(q.ext.value, base, q.indexRoom);
        if st == Success && q.wantId { id := Some(mrId); }
      } else if q.wantId {
        id := Some(nextId);
        nextId := (nextId + 1) % SPACE;
      }
    }

    /** A region already in the array gets a new owner. */
    method GiveOwner(idx: nat, q: Request) returns (st: Status, id: Option<nat>, kept: Option<Ext>)
      requires Valid() && TableOk(table) && idx < count
      requires q.owner.Some? && q.owner.value !in entries[idx].owners && q.ext.Some?
      modifies this`table, this`nextId, this`idIndex, this`idCount, entries, idIndex
      ensures Valid() && (idIndex == old(idIndex) || fresh(idIndex))
      ensures Outcome(table, st, id) == AddOwner(old(table), old(entries[idx]),
        q.(indexRoom := q.indexRoom || old(idCount < idIndex.Length)))
      ensures kept == LeftWith(old(table), q.(indexRoom := q.indexRoom || old(idCount < idIndex.Length)), st)
    {
      hide Represents, IndexOk, TableOk, EntryOk, Take;
      ghost var q' := q.(indexRoom := q.indexRoom || idCount < idIndex.Length);
      ghost var e0 := entries[idx];
      EntryAt(idx);
      TakeFails(table, q');
      var mrId;
      st, mrId, id := TakeOwner(entries[idx].base, q);
      kept := if st == Success then None else Some(q.ext.value.(mrId := mrId));
      if st != Success {
        table := table.(nextId := nextId);
        return;
      }
      GivenIndex(old(idIndex[..idCount]), idIndex[..idCount], table, e0, q', mrId);
      SetEntry(idx, WithOwner(entries[idx], q, mrId), nextId);
    }

    lemma EntryAt(idx: nat)
      requires Valid() && TableOk(table) && idx < count
      ensures var e := entries[idx]; e.base in table.entries && table.entries[e.base] == e && EntryOk(e)
    {
      assert entries[..count][idx] == entries[idx];
    }

    /** A region not in the array is inserted, and taken out again if it gets no id. */
    method InsertNew(pos: nat, q: Request) returns (st: Status, id: Option<nat>, kept: Option<Ext>)
      requires Valid() && TableOk(table) && q.owner.Some? && q.ext.Some? && q.addr !in table.entries
      requires pos <= count < entries.Length
      requires forall i :: 0 <= i < pos ==> entries[..count][i].base < q.addr
      requires forall i :: pos <= i < count ==> q.addr < entries[..count][i].base
      modifies this`table, this`nextId, this`count, this`idIndex, this`idCount, entries, idIndex
      ensures Valid() && (idIndex == old(idIndex) || fresh(idIndex))
      ensures Outcome(table, st, id) == AddOwner(old(table), NewEntry(q),
        q.(indexRoom := q.indexRoom || old(idCount < idIndex.Length)))
      ensures kept == LeftWith(old(table), q.(indexRoom := q.indexRoom || old(idCount < idIndex.Length)), st)
    {
      hide Represents, IndexOk, TableOk, Take;
      ghost var es, t := entries[..count], table;
      ghost var q' := q.(indexRoom := q.indexRoom || idCount < idIndex.Length);
      TakeFails(table, q');
      InsertAt(pos, NewEntry(q));
      var mrId;
      st, mrId, id := TakeOwner(q.addr, q);
      kept := if st == Success then None else Some(q.ext.value.(mrId := mrId));
      if st != Success {
        Withdraw(pos, es, NewEntry(q));
      } else {
        GivenIndex(old(idIndex[..idCount]), idIndex[..idCount], t, NewEntry(q), q', mrId);
        Commit(pos, es, NewEntry(q), WithOwner(NewEntry(q), q, mrId));
      }
    }

    /** The new slot is taken out again. */
    method Withdraw(pos: nat, ghost es: seq<Entry>, ghost e: Entry)
      requires count < entries.Length && pos <= count == |es| && idCount <= idIndex.Length
      requires entries[..count + 1] == es[..pos] + [e] + es[pos..]
      requires Represents(es, table.entries) && IndexOk(idIndex[..idCount], table.entries)
      modifies this`table, entries
      ensures Valid() && table == old(table).(nextId := nextId)
    {
      hide Represents, IndexOk;
      RemoveAt(pos, count + 1);
      assert entries[..count] == es;
      table := table.(nextId := nextId);
    }

    /** The new slot becomes an entry. */
    method Commit(pos: nat, ghost es: seq<Entry>, ghost e0: Entry, e: Entry)
      requires count < entries.Length && pos <= count == |es| && idCount <= idIndex.Length
      requires entries[..count + 1] == es[..pos] + [e0] + es[pos..]
      requires forall i :: 0 <= i < pos ==> es[i].base < e.base
      requires forall i :: pos <= i < count ==> e.base < es[i].base
      requires Represents(es, table.entries) && IndexOk(idIndex[..idCount], table.entries[e.base := e])
      modifies this`table, this`count, entries
      ensures Valid() && table == Table(old(table).entries[e.base := e], nextId)
    {
      InsertRepresents(es, table.entries, pos, e);
      FillSlot(es, pos, e0, e);
      hide Represents, IndexOk;
      ghost var a := entries[..count + 1];
      entries[pos] := e;
      assert entries[..count + 1] == a[pos := e];
      count := count + 1;
      table := Table(table.entries[e.base := e], nextId);
    }

    /** Somebody has registered exactly this base address before. */
    method RegisterAgain(exact: nat, q: Request) returns (st: Status, id: Option<nat>, kept: Option<Ext>)
      requires Valid() && TableOk(table) && exact < count && entries[exact].base == q.addr
      requires !BadRange(q.addr, q.size) && q.owner.Some?
      modifies this`table, this`nextId, this`idIndex, this`idCount, entries, idIndex
      ensures Valid() && (idIndex == old(idIndex) || fresh(idIndex))
      ensures Outcome(table, st, id) == MrTable.Register(old(table),
        q.(room := q.room || old(count < entries.Length),
           indexRoom := q.indexRoom || old(idCount < idIndex.Length)))
      ensures kept == KeptExt(old(table),
        q.(room := q.room || old(count < entries.Length),
           indexRoom := q.indexRoom || old(idCount < idIndex.Length)))
    {
      hide Represents, IndexOk, Overlaps, TableOk, AddOwner, Renew, EntryOk;
      ghost var room, indexRoom := q.room || count < entries.Length, q.indexRoom || idCount < idIndex.Length;
      EntryAt(exact);
      var existing := entries[exact];
      if existing.size != q.size || existing.ibDevN != q.ibDevN || existing.ptrType != q.ptrType {
        return InternalError, None, q.ext;
      }
      if q.owner.value in existing.owners {
        RenewIgnoresRoom(table, existing, q, room, indexRoom);
        st, id := RenewAt(exact, q);
        return st, id, if st == Success then None else q.ext;
      }
      if q.ext.None? { return InternalError, None, None; }
      AddIgnoresRoom(table, existing, q.(indexRoom := indexRoom), room);
      TakeIgnoresRoom(table, q.(indexRoom := indexRoom), room);
      st, id, kept := GiveOwner(exact, q);
    }

    /** The base address is new. */
    method RegisterNew(q: Request) returns (st: Status, id: Option<nat>, kept: Option<Ext>)
      requires Valid() && TableOk(table) && q.addr !in table.entries
      requires !BadRange(q.addr, q.size) && q.owner.Some?
      modifies this, entries, idIndex
      ensures Valid() && (entries == old(entries) || fresh(entries)) && (idIndex == old(idIndex) || fresh(idIndex))
      ensures Outcome(table, st, id) == MrTable.Register(old(table),
        q.(room := q.room || old(count < entries.Length),
           indexRoom := q.indexRoom || old(idCount < idIndex.Length)))
      ensures kept == KeptExt(old(table),
        q.(room := q.room || old(count < entries.Length),
           indexRoom := q.indexRoom || old(idCount < idIndex.Length)))
    {
      hide Represents, IndexOk, Overlaps, TableOk, AddOwner, KeptExt, LeftWith;
      ghost var room, indexRoom := q.room || count < entries.Length, q.indexRoom || idCount < idIndex.Length;
      KeptOfNew(table, q.(room := room, indexRoom := indexRoom));
      KeptIgnoresRoom(table, q.(indexRoom := indexRoom), room);
      var pos := FindInsertionPoint(q.addr);
      NeighboursHere(pos, q.addr, q.size);
      if pos > 0 && q.addr - entries[pos - 1].base < entries[pos - 1].size { return InternalError, None, q.ext; }
      if pos < count && entries[pos].base - q.addr < q.size { return InternalError, None, q.ext; }
      if q.ext.None? { return InternalError, None, None; }
      AddIgnoresRoom(table, NewEntry(q), q.(indexRoom := indexRoom), room);
      st := EnsureCapacity(q.room);
      if st != Success { return st, None, q.ext; }
      st, id, kept := InsertNew(pos, q);
    }

    method Register(q: Request) returns (st: Status, id: Option<nat>, kept: Option<Ext>)
      requires Valid() && TableOk(table)
      modifies this, entries, idIndex
      ensures Valid() && (entries == old(entries) || fresh(entries)) && (idIndex == old(idIndex) || fresh(idIndex))
      ensures Outcome(table, st, id) == MrTable.Register(old(table),
        q.(room := q.room || old(count < entries.Length),
           indexRoom := q.indexRoom || old(idCount < idIndex.Length)))
      ensures kept == KeptExt(old(table),
        q.(room := q.room || old(count < entries.Length),
           indexRoom := q.indexRoom || old(idCount < idIndex.Length)))
    {
      hide Represents, IndexOk, Overlaps, TableOk, AddOwner, Renew;
      if q.size == 0 || q.addr == 0 || (q.addr + q.size) % SPACE < q.addr || q.owner.None? {
        return InternalError, None, q.ext;
      }
      var exact := BsearchExact(q.addr);
      if exact >= 0 { st, id, kept := RegisterAgain(exact, q); } else { st, id, kept := RegisterNew(q); }
    }

    lemma NeighboursHere(pos: nat, addr: nat, size: nat)
      requires Valid() && TableOk(table) && pos <= count && size > 0
      requires forall i :: 0 <= i < pos ==> entries[..count][i].base < addr
      requires forall i :: pos <= i < count ==> addr < entries[..count][i].base
      ensures Overlaps(table, addr, size) <==>
        || (pos > 0 && addr - entries[pos - 1].base < entries[pos - 1].size)
        || (pos < count && entries[pos].base - addr < size)
    {
      var es := entries[..count];
      forall i | 0 <= i < |es| ensures es[i].size > 0 { assert EntryOk(table.entries[es[i].base]); }
      NeighboursDecideOverlap(es, table, pos, addr, size);
    }

    /** Takes the id of a departing P2P owner out of the index. */
    method DropId(e: Entry, owner: Owner, ghost m: map<nat, Entry>)
      requires Valid() && TableOk(table) && owner in e.owners
      requires e.base in table.entries && table.entries[e.base] == e && EntryOk(e)
      requires m == MrTable.Deregister(table, e.base, Some(owner)).0.entries
      modifies this`idCount, idIndex
      ensures idCount <= idIndex.Length && IndexOk(idIndex[..idCount], m)
    {
      hide TableOk, Represents, IndexOk, EntryOk;
      PositiveId(table, e);
      if owner == P2p && P2p in e.exts && e.exts[P2p].mrId != 0 {
        var j := FindId(e.exts[P2p].mrId);
        FoundId(idIndex[..idCount], table.entries, e.base, j);
        DroppedIndex(idIndex[..idCount], table, e, owner, j);
        RemoveId(j);
      } else {
        KeptIndex(idIndex[..idCount], table, e, owner);
      }
    }

    method Deregister(addr: nat, owner: Option<Owner>) returns (st: Status)
      requires Valid() && TableOk(table)
      modifies this`table, this`count, this`idCount, entries, idIndex
      ensures Valid() && (table, st) == MrTable.Deregister(old(table), addr, owner)
    {
      hide TableOk, Represents, IndexOk, EntryOk;
      if owner.None? { return InternalError; }
      var idx := BsearchExact(addr);
      if idx < 0 { return InternalError; }
      var e := entries[idx];
      if owner.value !in e.owners { return InternalError; }
      ghost var es, m := entries[..count], table.entries;
      EntryAt(idx);
      ghost var m' := MrTable.Deregister(table, addr, owner).0.entries;
      DropId(e, owner.value, m');
      var left := e.(owners := e.owners - {owner.value}, handles := e.handles - {owner.value},
                     exts := e.exts - {owner.value});
      if left.owners == {} {
        RemoveRepresents(es, m, idx);
        RemoveAt(idx, count);
        count := count - 1;
        assert entries[..count] == es[..idx] + es[idx + 1..];
      } else {
        ReplaceRepresents(es, m, idx, left);
        entries[idx] := left;
        assert entries[..count] == es[idx := left];
      }
      table := Table(m', table.nextId);
      return Success;
    }

    // -------------------------------------------------------------------------- lookups

    /** Finds the region that contains addr: it succeeds exactly when there is one, and there is at
        most one. */
    method Lookup(addr: nat) returns (st: Status, found: Option<Entry>)
      requires Valid() && TableOk(table)
      ensures st == (if found.Some? then Success else InternalError)
      ensures found.Some? <==> exists b :: b in table.entries && Contains(table.entries[b], addr)
      ensures found.Some? ==>
        forall b <- table.entries :: Contains(table.entries[b], addr) <==> table.entries[b] == found.value
    {
      var idx := BsearchContaining(addr);
      if idx >= 0 && addr >= entries[idx].base && addr - entries[idx].base < entries[idx].size {
        assert entries[..count][idx] == entries[idx];
        ContainsUnique(table, entries[idx].base, addr);
        return Success, Some(entries[idx]);
      }
      forall b | b in table.entries ensures !Contains(table.entries[b], addr) {
        assert HasBase(entries[..count], b);
        var i :| 0 <= i < count && entries[..count][i].base == b;
        if i < idx { assert entries[..count][idx].base in table.entries; }
      }
      return InternalError, None;
    }

    method FindExact(addr: nat) returns (st: Status, found: Option<Entry>)
      requires Valid()
      ensures st == (if found.Some? then Success else InternalError)
      ensures found == if addr in table.entries then Some(table.entries[addr]) else None
    {
      var idx := BsearchExact(addr);
      if idx < 0 { return InternalError, None; }
      return Success, Some(entries[idx]);
    }

    /** Finds the region by its P2P id, which belongs to at most one. */
    method LookupById(mrId: nat) returns (st: Status, found: Option<Entry>)
      requires Valid() && TableOk(table)
      ensures st == (if found.Some? then Success else InternalError)
      ensures found.Some? <==>
        exists b :: b in table.entries && P2p in table.entries[b].owners && MrId(table.entries[b]) == mrId
      ensures found.Some? ==> forall b <- table.entries ::
        (P2p in table.entries[b].owners && MrId(table.entries[b]) == mrId) <==> table.entries[b] == found.value
    {
      var j := FindId(mrId);
      if j >= 0 {
        assert idIndex[..idCount][j].base in table.entries;
        assert EntryOk(table.entries[idIndex[j].base]);
      }
      var base := if j < 0 then 0 else idIndex[j].base;
      if base == 0 {
        forall b | b in table.entries && P2p in table.entries[b].owners ensures MrId(table.entries[b]) != mrId {
          assert Indexed(idIndex[..idCount], b);
        }
        return InternalError, None;
      }
      assert idIndex[..idCount][j].base in table.entries;
      var idx := BsearchExact(base);
      assert EntryOk(table.entries[base]);
      if idx < 0 || P2p !in entries[idx].exts { return InternalError, None; }
      assert IdsOk(table);
      return Success, Some(entries[idx]);
    }
  }

  lemma ContainsUnique(t: Table, b: nat, addr: nat)
    requires TableOk(t) && b in t.entries && Contains(t.entries[b], addr)
    ensures forall c <- t.entries :: Contains(t.entries[c], addr) <==> t.entries[c] == t.entries[b]
  {
    forall c | c in t.entries && c != b ensures !Contains(t.entries[c], addr) {
      if c < b { assert c + t.entries[c].size <= b; } else { assert b + t.entries[b].size <= c; }
    }
  }

  lemma PositiveId(t: Table, e: Entry)
    requires TableOk(t) && e.base in t.entries && t.entries[e.base] == e
    ensures P2p in e.owners ==> P2p in e.exts && MrId(e) > 0
  {
    assert EntryOk(e) && IdsOk(t);
  }

  lemma DroppedIndex(ix: seq<IdEntry>, t: Table, e: Entry, owner: Owner, j: nat)
    requires IndexOk(ix, t.entries) && e.base in t.entries && t.entries[e.base] == e
    requires owner == P2p && P2p in e.owners && j < |ix| && ix[j].base == e.base
    ensures IndexOk(ix[..j] + ix[j + 1..], MrTable.Deregister(t, e.base, Some(owner)).0.entries)
  {
    RemoveIndex(ix, t.entries, j, MrTable.Deregister(t, e.base, Some(owner)).0.entries);
  }

  lemma KeptIndex(ix: seq<IdEntry>, t: Table, e: Entry, owner: Owner)
    requires IndexOk(ix, t.entries) && e.base in t.entries && t.entries[e.base] == e
    requires owner in e.owners && owner != P2p
    ensures IndexOk(ix, MrTable.Deregister(t, e.base, Some(owner)).0.entries)
  {
    var m := MrTable.Deregister(t, e.base, Some(owner)).0.entries;
    assert P2p in e.owners ==> P2p in e.owners - {owner};
    assert e.base in m ==> MrId(m[e.base]) == MrId(e);
    IndexFrame(ix, t.entries, m);
  }

  lemma TakeFails(t: Table, q: Request)
    requires q.owner.Some? && q.ext.Some?
    ensures Take(t, q).status != Success ==> Take(t, q).id == None
  {
    hide Appendable, AssignId;
  }

  lemma RenewIgnoresRoom(t: Table, e: Entry, q: Request, room: bool, indexRoom: bool)
    requires q.owner.Some?
    ensures Renew(t, e, q.(room := room, indexRoom := indexRoom)) == Renew(t, e, q)
  {}

  /** What a request for a new region leaves its caller with. */
  lemma KeptOfNew(t: Table, q: Request)
    requires q.addr !in t.entries && !BadRange(q.addr, q.size) && q.owner.Some?
    ensures Overlaps(t, q.addr, q.size) || q.ext.None? || !q.room ==> KeptExt(t, q) == q.ext
    ensures !Overlaps(t, q.addr, q.size) && q.ext.Some? && q.room ==>
      KeptExt(t, q) == LeftWith(t, q, AddOwner(t, NewEntry(q), q).status)
  {
    hide Overlaps, AddOwner, Take;
  }

  lemma KeptIgnoresRoom(t: Table, q: Request, room: bool)
    requires q.owner.Some?
    ensures q.ext.Some? ==> forall st :: LeftWith(t, q.(room := room), st) == LeftWith(t, q, st)
  {
    if q.ext.Some? { TakeIgnoresRoom(t, q, room); }
    hide Take;
  }

  lemma TakeIgnoresRoom(t: Table, q: Request, room: bool)
    requires q.owner.Some? && q.ext.Some?
    ensures Take(t, q.(room := room)) == Take(t, q)
  {
    hide Appendable;
  }

  lemma AddIgnoresRoom(t: Table, e: Entry, q: Request, room: bool)
    requires q.owner.Some? && q.ext.Some?
    ensures AddOwner(t, e, q.(room := room)) == AddOwner(t, e, q)
  {
    hide Appendable;
  }

  /** The index after an entry got an owner: one more id for P2P, otherwise the same. */
  lemma GivenIndex(ix: seq<IdEntry>, ix': seq<IdEntry>, t: Table, e: Entry, q: Request, mrId: nat)
    requires IndexOk(ix, t.entries) && q.owner.Some? && q.ext.Some? && q.owner.value !in e.owners
    requires e.base in t.entries ==> t.entries[e.base] == e
    requires e.base !in t.entries ==> e.owners == {}
    requires Take(t, q).status == Success && Take(t, q).mrId == mrId
    requires ix' == if q.owner.value == P2p then ix + [IdEntry(mrId, e.base)] else ix
    ensures IndexOk(ix', t.entries[e.base := WithOwner(e, q, mrId)])
  {
    var e' := WithOwner(e, q, mrId);
    if q.owner.value == P2p {
      AppendableIsLast(ix, t, mrId);
      hide Appendable, AssignId;
      AppendIndex(ix, t.entries, e');
    } else {
      assert MrId(e') == MrId(e);
      IndexFrame(ix, t.entries, t.entries[e.base := e']);
    }
  }

  lemma RenewKeepsPlace(e: Entry, q: Request)
    requires q.owner.Some?
    ensures RenewEntry(e, q).0.base == e.base && RenewEntry(e, q).0.owners == e.owners
  {}

  /** The id of a P2P entry is found at the position of that entry. */
  lemma FoundId(ix: seq<IdEntry>, m: map<nat, Entry>, b: nat, j: int)
    requires IndexOk(ix, m) && b in m && P2p in m[b].owners && -1 <= j < |ix|
    requires j >= 0 ==> ix[j].mrId == MrId(m[b])
    requires j < 0 ==> forall i :: 0 <= i < |ix| ==> ix[i].mrId != MrId(m[b])
    ensures j >= 0 && ix[j].base == b
  {
    assert Indexed(ix, b);
    var i :| 0 <= i < |ix| && ix[i].base == b;
    assert ix[i].mrId == MrId(m[b]);
    assert j >= 0 && i == j;
  }

  /** The process-wide registry with its reference count. */
  class GlobalRegistry {
    var refCount: nat
    /** Where the id counter goes on when the registry is created again. */
    var nextId: nat
    var registry: Registry?

    ghost predicate Valid()
      reads this, registry, if registry == null then {} else {registry.entries, registry.idIndex}
    {
      && (registry == null <==> refCount == 0)
      && (registry != null ==> registry.Valid() && TableOk(registry.table))
      && 1 <= nextId < SPACE
    }

    /** The next id the process will choose. */
    ghost function Counter(): nat
      reads this, registry
    {
      if registry == null then nextId else registry.nextId
    }

    constructor ()
      ensures Valid() && Counter() == 1 && refCount == 0
    {
      refCount, nextId, registry := 0, 1, null;
    }

    method Init()
      requires Valid()
      modifies this
      ensures Valid() && refCount == old(refCount) + 1 && Counter() == old(Counter())
      ensures old(registry) == null ==> fresh(registry) && registry.table == Table(map[], old(Counter()))
      ensures old(registry) != null ==> registry == old(registry)
    {
      if refCount == 0 {
        registry := new Registry(nextId);
        assert TableOk(registry.table);
      }
      refCount := refCount + 1;
    }

    /** The last release destroys the registry but keeps the counter. */
    method Release() returns (st: Status)
      requires Valid()
      modifies this
      ensures Valid() && Counter() == old(Counter())
      ensures st == if old(refCount) == 0 then InternalError else Success
      ensures refCount == if old(refCount) == 0 then 0 else old(refCount) - 1
      ensures old(refCount) > 1 ==> registry == old(registry)
    {
      if refCount == 0 { return InternalError; }
      refCount := refCount - 1;
      if refCount == 0 {
        nextId := registry.nextId;
        assert IdsOk(registry.table);
        registry := null;
      }
      return Success;
    }
  }
}
