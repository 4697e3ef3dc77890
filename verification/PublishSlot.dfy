// Choice of the handle slot that is free on every rank (flagcx/flagcx.cc).

module PublishSlot {
  import opened Results

  /** One row per rank, all of the same width. */
  predicate Matrix(occ: seq<seq<bool>>, nSlots: nat) {
    occ != [] && forall r :: 0 <= r < |occ| ==> |occ[r]| == nSlots
  }

  predicate FreeEverywhere(occ: seq<seq<bool>>, i: nat) {
    forall r :: 0 <= r < |occ| ==> i < |occ[r]| && !occ[r][i]
  }

  predicate UsedEverywhere(occ: seq<seq<bool>>, i: nat) {
    forall r :: 0 <= r < |occ| ==> i < |occ[r]| && occ[r][i]
  }

  predicate AllFree(occ: seq<seq<bool>>, nSlots: nat) {
    forall i :: 0 <= i < nSlots ==> FreeEverywhere(occ, i)
  }

  function FirstFree(occ: seq<seq<bool>>, from: nat, nSlots: nat): (i: nat)
    requires from <= nSlots
    ensures from <= i <= nSlots
    ensures i < nSlots ==> FreeEverywhere(occ, i)
    ensures forall j :: from <= j < i ==> !FreeEverywhere(occ, j)
    decreases nSlots - from
  {
    if from == nSlots || FreeEverywhere(occ, from) then from else FirstFree(occ, from + 1, nSlots)
  }

  /** The common slot; None when the ranks disagree about slot 0, the connection owner. */
  function SelectSlot(occ: seq<seq<bool>>, nSlots: nat): Option<nat> {
    if nSlots == 0 || AllFree(occ, nSlots) then Some(0)
    else if UsedEverywhere(occ, 0) then Some(FirstFree(occ, 1, nSlots))
    else None
  }

  /** The chosen slot is live on no rank, and slot 0 is chosen only when nothing is live at all. */
  lemma SelectedIsFree(occ: seq<seq<bool>>, nSlots: nat)
    requires Matrix(occ, nSlots) && SelectSlot(occ, nSlots).Some?
    ensures var s := SelectSlot(occ, nSlots).value;
      && s <= nSlots
      && (forall r :: 0 <= r < |occ| ==> s < |occ[r]| ==> !occ[r][s])
      && (s == 0 ==> forall r, i :: 0 <= r < |occ| && 0 <= i < nSlots ==> !occ[r][i])
      && (s > 0 ==> forall r :: 0 <= r < |occ| ==> 0 < |occ[r]| && occ[r][0])
  {
    if nSlots > 0 && AllFree(occ, nSlots) {
      forall r, i | 0 <= r < |occ| && 0 <= i < nSlots ensures !occ[r][i] { assert FreeEverywhere(occ, i); }
    }
  }

  /** flagcxOneSideSelectCommonPublishSlot. */
  method SelectCommonPublishSlot(occ: seq<seq<bool>>, nSlots: nat) returns (st: Status, slot: nat)
    requires Matrix(occ, nSlots)
    ensures st == (if SelectSlot(occ, nSlots).Some? then Success else InvalidUsage)
    ensures st == Success ==> Some(slot) == SelectSlot(occ, nSlots)
  {
    slot := 0;
    if nSlots == 0 { return Success, 0; }
    var slotZeroOccupied := occ[0][0];
    var rank := 1;
    while rank < |occ|
      invariant 1 <= rank <= |occ|
      invariant forall r :: 0 <= r < rank ==> occ[r][0] == slotZeroOccupied
    {
      if occ[rank][0] != slotZeroOccupied {
        assert !FreeEverywhere(occ, 0);
        return InvalidUsage, 0;
      }
      rank := rank + 1;
    }
    if !slotZeroOccupied {
      rank := 0;
      while rank < |occ|
        invariant 0 <= rank <= |occ|
        invariant forall r, i :: 0 <= r < rank && 0 <= i < nSlots ==> !occ[r][i]
      {
        var i := 1;
        while i < nSlots
          invariant 1 <= i <= nSlots
          invariant forall j :: 0 <= j < i ==> !occ[rank][j]
        {
          if occ[rank][i] {
            assert !FreeEverywhere(occ, i);
            return InvalidUsage, 0;
          }
          i := i + 1;
        }
        rank := rank + 1;
      }
      assert AllFree(occ, nSlots);
      return Success, 0;
    }
    assert !FreeEverywhere(occ, 0) && UsedEverywhere(occ, 0);
    slot := 1;
    while slot < nSlots
      invariant 1 <= slot <= nSlots
      invariant FirstFree(occ, slot, nSlots) == FirstFree(occ, 1, nSlots)
    {
      var freeEverywhere := true;
      rank := 0;
      while rank < |occ|
        invariant 0 <= rank <= |occ|
        invariant freeEverywhere <==> forall r :: 0 <= r < rank ==> !occ[r][slot]
      {
        freeEverywhere := freeEverywhere && !occ[rank][slot];
        rank := rank + 1;
      }
      if freeEverywhere {
        assert FreeEverywhere(occ, slot);
        return Success, slot;
      }
      slot := slot + 1;
    }
    return Success, slot;
  }
}
