// Transfers of the P2P engine (flagcx/core/flagcx_p2p.cc): cutting a transfer into slices, the queue a
// worker keeps them in, and handing them to the pool.

module P2pTransfer {
  import opened Results

  const WORD: nat := UINT64_MAX + 1
  const HALF_WORD: nat := UINT32_MAX + 1

  /** A slice's addresses are 64-bit words and its length is a 32-bit one. */
  datatype Slice = Slice(srcVa: nat, dstVa: nat, length: nat, lkey: nat, rkey: nat, opcode: nat)

  datatype Request = Request(srcVa: nat, dstVa: nat, totalLen: nat, lkey: nat, rkey: nat, opcode: nat)

  function Piece(r: Request, off: nat, len: nat): Slice {
    Slice((r.srcVa + off) % WORD, (r.dstVa + off) % WORD, len % HALF_WORD, r.lkey, r.rkey, r.opcode)
  }

  // ------------------------------------------------------------ what the slices should be

  /** The length of the last slice: what is left over joins the last block while it is small. */
  function LastLen(total: nat, block: nat, fragment: nat): nat {
    if block == 0 || total <= block + fragment then total else fragment + 1 + (total - fragment - 1) % block
  }

  /** The number of slices. */
  function SliceCount(total: nat, block: nat, fragment: nat): nat {
    if total == 0 then 0
    else if block == 0 || total <= block + fragment then 1
    else (total - fragment - 1) / block + 1
  }

  /** Slice k starts k blocks into the transfer; all but the last are a block long. */
  function SliceAt(r: Request, block: nat, fragment: nat, k: nat): Slice {
    if k + 1 == SliceCount(r.totalLen, block, fragment) then Piece(r, k * block, LastLen(r.totalLen, block, fragment))
    else Piece(r, k * block, block)
  }

  ghost predicate Cut(r: Request, block: nat, fragment: nat, slices: seq<Slice>) {
    && |slices| == SliceCount(r.totalLen, block, fragment)
    && forall k :: 0 <= k < |slices| ==> slices[k] == SliceAt(r, block, fragment, k)
  }

  // ------------------------------------------------------------ cutting

  class TransferTask {
    var sliceList: seq<Slice>
    var sliceCount: nat
    var doneSliceCount: nat
    var failedCount: nat

    constructor ()
      ensures sliceList == [] && sliceCount == doneSliceCount == failedCount == 0
    {
      sliceList, sliceCount, doneSliceCount, failedCount := [], 0, 0, 0;
    }

    method Push(s: Slice)
      modifies `sliceList, `sliceCount
      ensures sliceList == old(sliceList) + [s] && sliceCount == old(sliceCount) + 1
    {
      sliceList := sliceList + [s];
      sliceCount := sliceCount + 1;
    }

    /** flagcxBuildSlicesRuntime. The caller unpacks block and fragment limit from the halves of one word. */
    method BuildSlices(r: Request, block: nat, fragment: nat)
      requires r.totalLen < WORD && block < HALF_WORD && fragment < HALF_WORD
      modifies `sliceList, `sliceCount
      ensures old(sliceList) <= sliceList && Cut(r, block, fragment, sliceList[|old(sliceList)|..])
      ensures sliceCount - old(sliceCount) == |sliceList| - |old(sliceList)|
    {
      hide SliceCount, LastLen, Piece, CutUpTo, Cut;
      FirstCases(r, block, fragment);
      if r.totalLen == 0 {
        assert sliceList[|old(sliceList)|..] == [];
        return;
      }
      if block == 0 || r.totalLen <= block {
        Push(Piece(r, 0, r.totalLen));
        assert sliceList[|old(sliceList)|..] == [Piece(r, 0, r.totalLen)];
        return;
      }
      var off := 0;
      ghost var made: seq<Slice> := [];
      while off < r.totalLen
        invariant sliceList == old(sliceList) + made && sliceCount == old(sliceCount) + |made|
        invariant off == |made| * block && off < r.totalLen
        invariant |made| < SliceCount(r.totalLen, block, fragment) && CutUpTo(r, block, fragment, made)
        decreases r.totalLen - off
      {
        var merge := r.totalLen - off <= (block + fragment) % WORD;
        var len := if merge then r.totalLen - off else block;
        NextPiece(r, block, fragment, off, made);
        Push(Piece(r, off, len));
        made := made + [Piece(r, off, len)];
        off := (off + len) % WORD;
        if merge {
          break;
        }
      }
      assert sliceList[|old(sliceList)|..] == made;
      CutWhole(r, block, fragment, made);
    }

    method MarkAllFailed()
      modifies `doneSliceCount, `failedCount
      ensures doneSliceCount == old(doneSliceCount) + |sliceList| && failedCount == old(failedCount) + |sliceList|
    {
      var i := 0;
      while i < |sliceList|
        invariant i <= |sliceList|
        invariant doneSliceCount == old(doneSliceCount) + i && failedCount == old(failedCount) + i
      {
        failedCount := failedCount + 1;
        doneSliceCount := doneSliceCount + 1;
        i := i + 1;
      }
    }

    /** buildAndSubmitToPool on a new task, given whether the pool accepts. A transfer that is not handed
        over leaves no slice unmarked, so the task never waits for one. */
    method BuildAndSubmit(iovs: seq<Iov>, ibDevN: int, block: nat, fragment: nat, accepts: bool) returns (ok: bool)
      requires sliceList == [] && sliceCount == doneSliceCount == failedCount == 0
      requires block < HALF_WORD && fragment < HALF_WORD
      requires forall i :: 0 <= i < |iovs| ==> iovs[i].request.totalLen < WORD
      modifies this
      ensures ok <==> accepts && OnDevice(iovs, ibDevN) && exists i :: 0 <= i < |iovs| && iovs[i].request.totalLen > 0
      ensures sliceCount == |sliceList| && (OnDevice(iovs, ibDevN) ==> sliceList == AllCuts(iovs, block, fragment))
      ensures ok ==> sliceList != [] && doneSliceCount == failedCount == 0
      ensures !ok ==> doneSliceCount == failedCount == sliceCount
    {
      var i := 0;
      while i < |iovs|
        invariant i <= |iovs| && OnDevice(iovs[..i], ibDevN) && sliceList == AllCuts(iovs[..i], block, fragment)
        invariant sliceCount == |sliceList| && doneSliceCount == failedCount == 0
      {
        assert iovs[..i + 1][..i] == iovs[..i];
        if iovs[i].request.totalLen > 0 {
          if iovs[i].ibDevN != ibDevN {
            MarkAllFailed();
            return false;
          }
          ghost var before := sliceList;
          BuildSlices(iovs[i].request, block, fragment);
          CutIs(iovs[i].request, block, fragment, sliceList[|before|..]);
        } else {
          assert CutOf(iovs[i].request, block, fragment) == [];
        }
        i := i + 1;
      }
      assert iovs[..i] == iovs;
      NothingCut(iovs, block, fragment);
      if sliceList == [] {
        return false;
      }
      if !accepts {
        MarkAllFailed();
        return false;
      }
      ok := true;
    }
  }

  /** One piece of a vectored transfer, and the device its local memory is registered on. */
  datatype Iov = Iov(request: Request, ibDevN: int)

  predicate OnDevice(iovs: seq<Iov>, ibDevN: int) {
    forall i :: 0 <= i < |iovs| && iovs[i].request.totalLen > 0 ==> iovs[i].ibDevN == ibDevN
  }

  function CutOf(r: Request, block: nat, fragment: nat): seq<Slice> {
    seq(SliceCount(r.totalLen, block, fragment), k requires 0 <= k => SliceAt(r, block, fragment, k))
  }

  function AllCuts(iovs: seq<Iov>, block: nat, fragment: nat): seq<Slice> {
    if iovs == [] then [] else
      AllCuts(iovs[..|iovs| - 1], block, fragment) + CutOf(iovs[|iovs| - 1].request, block, fragment)
  }

  lemma CutIs(r: Request, block: nat, fragment: nat, slices: seq<Slice>)
    requires Cut(r, block, fragment, slices)
    ensures slices == CutOf(r, block, fragment)
  {}

  lemma {:induction false} NothingCut(iovs: seq<Iov>, block: nat, fragment: nat)
    ensures AllCuts(iovs, block, fragment) == [] <==> forall i :: 0 <= i < |iovs| ==> iovs[i].request.totalLen == 0
    decreases |iovs|
  {
    if iovs != [] {
      var m := |iovs| - 1;
      NothingCut(iovs[..m], block, fragment);
      var r := iovs[m].request;
      FirstCases(r, block, fragment);
      assert |CutOf(r, block, fragment)| == SliceCount(r.totalLen, block, fragment);
      assert iovs == iovs[..m] + [iovs[m]];
    }
  }

  // ------------------------------------------------------------ a worker's queue

  /** PendingSliceQueue: taken slices stay as a dead prefix until an append clears or compacts it. */
  class PendingSliceQueue {
    var slices: seq<nat>
    var head: nat

    predicate Valid()
      reads this
    {
      head <= |slices|
    }

    function Contents(): seq<nat>
      requires Valid()
      reads this
    {
      slices[head..]
    }

    constructor ()
      ensures Valid() && Contents() == []
    {
      slices, head := [], 0;
    }

    /** Appending keeps the contents in order, and the dead prefix small or less than half of the whole. */
    method Append(src: seq<nat>)
      requires Valid()
      modifies this
      ensures Valid() && Contents() == old(Contents()) + src
      ensures src != [] ==> head < 4096 || head * 2 < |slices|
    {
      if src == [] {
        return;
      }
      if head >= |slices| {
        Clear();
      } else if head >= 4096 && head * 2 >= |slices| {
        slices, head := slices[head..], 0;
      }
      slices := slices + src;
    }

    /** Taking n slices off the front only moves the head. */
    method Take(n: nat) returns (taken: seq<nat>)
      requires Valid() && n <= |Contents()|
      modifies this
      ensures Valid() && taken + Contents() == old(Contents()) && |taken| == n
    {
      taken := slices[head..head + n];
      head := head + n;
    }

    method Clear()
      modifies this
      ensures Valid() && Contents() == [] && head == 0
    {
      slices, head := [], 0;
    }
  }

  ghost predicate CutUpTo(r: Request, block: nat, fragment: nat, slices: seq<Slice>) {
    forall k :: 0 <= k < |slices| ==> slices[k] == SliceAt(r, block, fragment, k)
  }

  lemma FirstCases(r: Request, block: nat, fragment: nat)
    ensures CutUpTo(r, block, fragment, [])
    ensures r.totalLen == 0 ==> Cut(r, block, fragment, [])
    ensures r.totalLen > 0 ==> SliceCount(r.totalLen, block, fragment) > 0
    ensures r.totalLen > 0 && (block == 0 || r.totalLen <= block) ==>
      Cut(r, block, fragment, [Piece(r, 0, r.totalLen)])
  {}

  /** The loop's choices are those of the next slice. */
  lemma NextPiece(r: Request, block: nat, fragment: nat, off: nat, made: seq<Slice>)
    requires r.totalLen < WORD && block < HALF_WORD && fragment < HALF_WORD && 0 < block < r.totalLen
    requires CutUpTo(r, block, fragment, made) && off == |made| * block && off < r.totalLen
    requires |made| < SliceCount(r.totalLen, block, fragment)
    ensures var merge := r.totalLen - off <= (block + fragment) % WORD;
      var len := if merge then r.totalLen - off else block;
      && CutUpTo(r, block, fragment, made + [Piece(r, off, len)])
      && (merge <==> |made| + 1 == SliceCount(r.totalLen, block, fragment))
      && (!merge ==> off + len < r.totalLen && off + len == (|made| + 1) * block)
  {
    hide SliceCount, LastLen, Piece;
    MergesLast(r.totalLen, block, fragment, |made|);
    assert (|made| + 1) * block == |made| * block + block;
  }

  lemma CutWhole(r: Request, block: nat, fragment: nat, slices: seq<Slice>)
    requires CutUpTo(r, block, fragment, slices) && |slices| == SliceCount(r.totalLen, block, fragment)
    ensures Cut(r, block, fragment, slices)
  {}

  lemma DivMul(x: nat, d: nat)
    requires d > 0
    ensures x / d * d <= x < (x / d + 1) * d && x == x / d * d + x % d
  {
    DivSplit(x, d);
    assert (x / d + 1) * d == x / d * d + d;
  }

  lemma Monotone(a: nat, b: nat, d: nat)
    requires a <= b
    ensures a * d <= b * d
  {
    assert b * d == a * d + (b - a) * d;
  }

  /** Block k is the last one exactly when what is left then is no more than a block and a fragment. */
  lemma MergesLast(total: nat, block: nat, fragment: nat, k: nat)
    requires 0 < block < total && k < SliceCount(total, block, fragment) && k * block < total
    ensures total - k * block <= block + fragment <==> k + 1 == SliceCount(total, block, fragment)
    ensures k + 1 == SliceCount(total, block, fragment) ==> total - k * block == LastLen(total, block, fragment)
    ensures k + 1 < SliceCount(total, block, fragment) ==> (k + 1) * block < total
  {
    if total > block + fragment {
      var x := total - fragment - 1;
      DivMul(x, block);
      var q := x / block;
      if k < q {
        Monotone(k + 1, q, block);
        assert (k + 1) * block == k * block + block;
      }
    }
  }

  // ------------------------------------------------------------ what the cut guarantees

  /** The bounds of the last slice. */
  lemma LastBounds(total: nat, block: nat, fragment: nat)
    requires 0 < total
    ensures block == 0 ==> SliceCount(total, block, fragment) == 1
    ensures block > 0 ==> LastLen(total, block, fragment) <= block + fragment
    ensures SliceCount(total, block, fragment) >= 2 ==> fragment < LastLen(total, block, fragment)
    ensures var n := SliceCount(total, block, fragment);
      n >= 1 && total == (n - 1) * block + LastLen(total, block, fragment)
  {
    if block > 0 && total > block + fragment { DivMul(total - fragment - 1, block); }
  }

  lemma LengthAt(r: Request, block: nat, fragment: nat, slices: seq<Slice>, k: nat)
    requires Cut(r, block, fragment, slices) && block < HALF_WORD && k < |slices|
    ensures |slices| == SliceCount(r.totalLen, block, fragment)
    ensures k < |slices| - 1 ==> slices[k].length == block
    ensures k == |slices| - 1 ==> slices[k].length == LastLen(r.totalLen, block, fragment) % HALF_WORD
    ensures slices[k].srcVa == (r.srcVa + k * block) % WORD && slices[k].dstVa == (r.dstVa + k * block) % WORD
  {
    hide SliceCount, LastLen;
    assert slices[k] == SliceAt(r, block, fragment, k);
  }

  function Bytes(slices: seq<Slice>): nat {
    if slices == [] then 0 else Bytes(slices[..|slices| - 1]) + slices[|slices| - 1].length
  }

  lemma {:induction false} BlocksBefore(r: Request, block: nat, fragment: nat, slices: seq<Slice>, k: nat)
    requires Cut(r, block, fragment, slices) && block < HALF_WORD && k < |slices|
    ensures Bytes(slices[..k]) == k * block
    decreases k
  {
    hide Cut, SliceCount, LastLen;
    if k > 0 {
      BlocksBefore(r, block, fragment, slices, k - 1);
      assert slices[..k][..k - 1] == slices[..k - 1];
      LengthAt(r, block, fragment, slices, k - 1);
      assert k * block == (k - 1) * block + block;
    }
  }

  /** The slices carry all bytes of the transfer exactly when the last one fits a 32-bit length. */
  lemma CarriesAll(r: Request, block: nat, fragment: nat, slices: seq<Slice>)
    requires Cut(r, block, fragment, slices) && block < HALF_WORD
    ensures Bytes(slices) == r.totalLen <==> LastLen(r.totalLen, block, fragment) < HALF_WORD
    ensures Bytes(slices) <= r.totalLen
  {
    var n, last := |slices|, LastLen(r.totalLen, block, fragment);
    if r.totalLen == 0 {
      assert slices == [];
    } else {
      hide Cut, SliceCount, LastLen;
      CountOf(r, block, fragment, slices);
      LastBounds(r.totalLen, block, fragment);
      BlocksBefore(r, block, fragment, slices, n - 1);
      LengthAt(r, block, fragment, slices, n - 1);
      Truncates(last);
    }
  }

  /** The first transfer it does not hold for: 4 GiB without a block size go out as one empty slice. So
      they do when block and fragment limit together reach that length. */
  lemma FourGigabytesLost(r: Request, block: nat, fragment: nat, slices: seq<Slice>)
    requires r.totalLen == HALF_WORD && block < HALF_WORD && Cut(r, block, fragment, slices)
    ensures block == 0 || HALF_WORD <= block + fragment ==> slices == [Piece(r, 0, HALF_WORD)] && Bytes(slices) == 0
    ensures Bytes(slices) == HALF_WORD <==> 0 < block && block + fragment < HALF_WORD
  {
    CarriesAll(r, block, fragment, slices);
    if block == 0 || HALF_WORD <= block + fragment {
      assert slices == [SliceAt(r, block, fragment, 0)];
      assert Bytes(slices) == Bytes(slices[..0]) + slices[0].length;
    } else {
      LastBounds(r.totalLen, block, fragment);
    }
  }

  lemma CountOf(r: Request, block: nat, fragment: nat, slices: seq<Slice>)
    requires Cut(r, block, fragment, slices)
    ensures |slices| == SliceCount(r.totalLen, block, fragment)
  {}

  lemma Truncates(x: nat)
    ensures x % HALF_WORD <= x && (x % HALF_WORD == x <==> x < HALF_WORD)
  {}

  /** No length is cut short for transfers that have 32-bit lengths themselves. */
  lemma ShortTransfersFit(r: Request, block: nat, fragment: nat, slices: seq<Slice>)
    requires Cut(r, block, fragment, slices) && block < HALF_WORD && r.totalLen < HALF_WORD
    ensures Bytes(slices) == r.totalLen
  {
    if r.totalLen > 0 { LastBounds(r.totalLen, block, fragment); }
    CarriesAll(r, block, fragment, slices);
  }

  predicate Covers(block: nat, slices: seq<Slice>, k: nat, x: nat) {
    k < |slices| && k * block <= x < k * block + slices[k].length
  }

  /** Every byte lies in exactly one slice, at the same distance into source and destination. */
  lemma TilesOnce(r: Request, block: nat, fragment: nat, slices: seq<Slice>, x: nat) returns (k: nat)
    requires Cut(r, block, fragment, slices) && block < HALF_WORD && x < r.totalLen
    requires LastLen(r.totalLen, block, fragment) < HALF_WORD
    ensures Covers(block, slices, k, x) && forall j: nat :: Covers(block, slices, j, x) ==> j == k
    ensures slices[k].srcVa == (r.srcVa + k * block) % WORD && slices[k].dstVa == (r.dstVa + k * block) % WORD
  {
    hide Cut, SliceCount, LastLen;
    var n := |slices|;
    CountOf(r, block, fragment, slices);
    LastBounds(r.totalLen, block, fragment);
    k := Home(block, x, n);
    LengthAt(r, block, fragment, slices, k);
    Truncates(LastLen(r.totalLen, block, fragment));
    forall j: nat | Covers(block, slices, j, x)
      ensures j == k
    {
      LengthAt(r, block, fragment, slices, j);
      Apart(block, x, j, k, n);
    }
  }

  /** The slice a byte belongs to. */
  lemma Home(block: nat, x: nat, n: nat) returns (k: nat)
    requires n >= 1 && (block == 0 ==> n == 1)
    ensures k < n && k * block <= x && (k < n - 1 ==> x < k * block + block)
  {
    if block == 0 {
      k := 0;
      NoBlock(k);
    } else {
      var q := DivBlock(x, block);
      k := HomeAt(block, x, n, q);
    }
  }

  lemma DivBlock(x: nat, d: nat) returns (q: nat)
    requires d > 0
    ensures q * d <= x < q * d + d
  {
    q := x / d;
    DivSplit(x, d);
  }

  /** Block q holds x; the slice is that one, or the last. */
  lemma HomeAt(block: nat, x: nat, n: nat, q: nat) returns (k: nat)
    requires n >= 1 && q * block <= x < q * block + block
    ensures k < n && k * block <= x && (k < n - 1 ==> x < k * block + block)
  {
    if q >= n - 1 {
      k := n - 1;
      Monotone(n - 1, q, block);
    } else {
      k := q;
    }
  }

  lemma NoBlock(k: nat)
    ensures k * 0 == 0
  {}

  lemma OneMoreBlock(k: nat, block: nat)
    ensures (k + 1) * block == k * block + block
  {}

  lemma Apart(block: nat, x: nat, j: nat, k: nat, n: nat)
    requires j < n && k < n && j * block <= x && k * block <= x
    requires (j < n - 1 ==> x < j * block + block) && (k < n - 1 ==> x < k * block + block)
    ensures j == k
  {
    OneMoreBlock(j, block);
    OneMoreBlock(k, block);
    if j < k {
      Monotone(j + 1, k, block);
    } else if k < j {
      Monotone(k + 1, j, block);
    }
  }
}
