// Result codes shared by every component (flagcx/include/flagcx.h, flagcxResult_t).

module Results {

  datatype Status =
    | Success
    | UnhandledDeviceError
    | SystemError
    | InternalError
    | InvalidArgument
    | InvalidUsage
    | RemoteError
    | InProgress
    | UnhandledCclError
    | NotSupported

  datatype Option<+T> = None | Some(value: T)

  const UINT32_MAX: nat := 0xFFFF_FFFF
  const UINT64_MAX: nat := 0xFFFF_FFFF_FFFF_FFFF

  /** The n numbers from lo on. */
  function Range(lo: nat, n: nat): (r: set<nat>)
    ensures |r| == n
    ensures forall s :: s in r <==> lo <= s < lo + n
  {
    if n == 0 then {} else
      var r := Range(lo, n - 1);
      assert lo + n - 1 !in r;
      r + {lo + n - 1}
  }

  predicate NoRepeats(ds: seq<nat>) { forall a, b :: 0 <= a < b < |ds| ==> ds[a] != ds[b] }

  function Elements(ds: seq<nat>): set<nat> { set d | d in ds }

  lemma {:induction false} NoRepeatsSize(ds: seq<nat>)
    requires NoRepeats(ds)
    ensures |Elements(ds)| == |ds|
    decreases |ds|
  {
    if ds != [] {
      var n := |ds| - 1;
      NoRepeatsSize(ds[..n]);
      assert ds == ds[..n] + [ds[n]];
      assert Elements(ds) == Elements(ds[..n]) + {ds[n]};
      assert ds[n] !in ds[..n];
    }
  }

  lemma SubsetSize(a: set<nat>, b: set<nat>)
    requires a <= b
    ensures |a| <= |b|
    ensures |a| == |b| ==> a == b
  {
    assert b == a + (b - a);
  }

  lemma DivSplit(x: nat, n: nat)
    requires n > 0
    ensures x == x / n * n + x % n && x % n < n
  {}

  /** A multiple of c strictly between -c and c is zero. */
  lemma MultipleBelow(c: int, k: int, m: int)
    requires c > 0 && c * k == m && -c < m < c
    ensures m == 0
  {
    assert k > 0 ==> c * k >= c;
    assert k < 0 ==> c * k <= -c;
  }

  lemma ModUnique(x: nat, q: nat, n: int, i: nat)
    requires x == q * n + i && i < n
    ensures x % n == i
  {
    DivSplit(x, n);
    var d := q - x / n;
    assert d * n == q * n - x / n * n;
    assert d * n == x % n - i;
    assert d >= 1 ==> d * n >= n;
    assert d <= -1 ==> d * n <= -n;
  }
}
