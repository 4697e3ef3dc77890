// The cluster-to-cluster schedule (flagcx/flagcx.cc): rounds step through the clusters by triangular
// numbers modulo a power of two, skipping values that name no cluster.

module C2cSchedule {
  import opened Results
  import Convergence

  // ----------------------------------------------------------------- powers of two

  function Pow2(m: nat): (p: nat)
    ensures p >= 1
    ensures m > 0 ==> p % 2 == 0
  {
    if m == 0 then 1 else 2 * Pow2(m - 1)
  }

  /** Number of significant bits. */
  function BitLength(x: nat): (w: nat)
    ensures x < Pow2(w) && (x > 0 ==> w > 0 && Pow2(w - 1) <= x)
  {
    if x == 0 then 0 else 1 + BitLength(x / 2)
  }

  /** log2Up of flagcx/service/include/utils.h: the word size minus the leading zeros of x - 1. */
  function Log2Up(x: nat): nat { if x <= 1 then 0 else BitLength(x - 1) }

  function Pow2Up(x: nat): nat { Pow2(Log2Up(x)) }

  /** Pow2Up is the least power of two that is not below x. */
  lemma Pow2UpIsLeast(x: nat)
    ensures x <= Pow2Up(x)
    ensures x > 1 ==> Log2Up(x) > 0 && Pow2(Log2Up(x) - 1) < x
  {}

  lemma Pow2UpIsPower(x: nat)
    ensures Pow2Up(x) == Pow2(Log2Up(x))
  {}

  function BitAnd(x: nat, y: nat): nat {
    if x == 0 || y == 0 then 0 else (x % 2) * (y % 2) + 2 * BitAnd(x / 2, y / 2)
  }

  lemma SplitDigit(x: nat, q: nat)
    requires q > 0
    ensures x % (2 * q) == x % 2 + 2 * ((x / 2) % q)
  {
    var h := x / 2;
    var r := x % 2 + 2 * (h % q);
    assert h == q * (h / q) + h % q;
    assert x == (2 * q) * (h / q) + r;
    assert 0 <= r < 2 * q;
    RemainderIs(x, 2 * q, h / q, r);
  }

  lemma RemainderIs(x: nat, q: nat, k: nat, r: nat)
    requires q > 0 && x == q * k + r && r < q
    ensures x % q == r
  {
    MultipleBelow(q, x / q - k, r - x % q);
  }

  /** Masking with 2^m - 1 is the remainder modulo 2^m. */
  lemma {:induction false} MaskIsMod(x: nat, m: nat)
    ensures BitAnd(x, Pow2(m) - 1) == x % Pow2(m)
    decreases m
  {
    if m > 0 {
      MaskIsMod(x / 2, m - 1);
      assert Pow2(m) - 1 == 2 * (Pow2(m - 1) - 1) + 1;
      assert (Pow2(m) - 1) / 2 == Pow2(m - 1) - 1;
      SplitDigit(x, Pow2(m - 1));
    }
  }

  // -------------------------------------------------------------- triangular numbers

  function Tri(i: nat): nat { if i == 0 then 0 else Tri(i - 1) + i }

  lemma {:induction false} TwiceTri(i: nat)
    ensures 2 * Tri(i) == i * (i + 1)
    decreases i
  {
    if i > 0 { TwiceTri(i - 1); }
  }

  ghost predicate Divides(d: int, x: int) { exists k: int :: x == d * k }

  /** An odd factor carries no power of two. */
  lemma {:induction false} OddFactor(m: nat, a: int, b: int)
    requires a % 2 == 1 && Divides(Pow2(m), a * b)
    ensures Divides(Pow2(m), b)
    decreases m
  {
    if m == 0 {
      assert b == Pow2(0) * b;
    } else {
      var p := Pow2(m - 1);
      assert Pow2(m) == 2 * p;
      hide Pow2;
      var k: int :| a * b == (2 * p) * k;
      var h := HalfFactor(a, b, p, k);
      OddFactor(m - 1, a, h);
      var j: int :| h == p * j;
      TwiceProduct(p, j);
    }
  }

  lemma TwiceProduct(p: int, k: int)
    ensures (2 * p) * k == 2 * (p * k)
  {}

  /** An even product with an odd factor: the other factor can be halved. */
  lemma HalfFactor(a: int, b: int, p: int, k: int) returns (h: int)
    requires a % 2 == 1 && a * b == (2 * p) * k
    ensures b == 2 * h && a * h == p * k
  {
    TwiceProduct(p, k);
    var n := a / 2;
    TwiceProduct(n, b);
    OddTimes(n, b);
    h := p * k - n * b;
    OddTimes(n, h);
    TwiceProduct(n, h);
    assert n * b == 2 * (n * h) by { assert n * (2 * h) == 2 * (n * h); }
  }

  lemma OddTimes(n: int, x: int)
    ensures (2 * n + 1) * x == 2 * (n * x) + x
  {}

  lemma SmallMultiple(d: int, x: int)
    requires d > 0 && Divides(d, x)
    ensures !(0 < x < d)
  {
    var k: int :| x == d * k;
    MultipleApart(d, k);
  }

  lemma MultipleApart(d: int, k: int)
    requires d > 0
    ensures k > 0 ==> d * k >= d
    ensures k <= 0 ==> d * k <= 0
  {}

  lemma Difference(i: int, j: int, p: int, k: int, ti: int, tj: int)
    requires 2 * ti == i * (i + 1) && 2 * tj == j * (j + 1) && tj - ti == p * k
    ensures (j - i) * (i + j + 1) == (2 * p) * k
  {
    Factor(i, j);
    TwiceProduct(p, k);
  }

  lemma Factor(i: int, j: int)
    ensures (j - i) * (i + j + 1) == j * (j + 1) - i * (i + 1)
  {
    assert (j - i) * (i + (j + 1)) == (j - i) * i + (j - i) * (j + 1);
    assert (j - i) * i == j * i - i * i;
    assert (j - i) * (j + 1) == j * (j + 1) - i * (j + 1);
    assert i * (j + 1) == j * i + i && i * (i + 1) == i * i + i;
  }

  /** The delta of step k: the triangular number modulo the power of two. */
  function Delta(k: nat, p: nat): (d: nat)
    requires p > 0
    ensures d < p
  {
    Tri(k) % p
  }

  lemma SameRemainder(x: nat, y: nat, p: nat)
    requires p > 0 && x % p == y % p
    ensures y - x == p * (y / p - x / p)
  {
    var a, b := x / p, y / p;
    assert x == p * a + x % p && y == p * b + y % p;
    assert p * (b - a) == p * b - p * a;
  }

  lemma SameFactor(x: int, p: int, k: int)
    requires x == (2 * p) * k
    ensures forall d :: d == 2 * p ==> x == d * k
  {}

  lemma EqualDeltas(i: nat, j: nat, p: nat) returns (k: int)
    requires p > 0 && Delta(i, p) == Delta(j, p)
    ensures forall d :: d == 2 * p ==> (j - i) * (i + j + 1) == d * k
  {
    TwiceTri(i);
    TwiceTri(j);
    SameRemainder(Tri(i), Tri(j), p);
    hide Tri;
    k := Tri(j) / p - Tri(i) / p;
    Difference(i, j, p, k, Tri(i), Tri(j));
    SameFactor((j - i) * (i + j + 1), p, k);
  }

  /** The deltas of the first 2^m steps are distinct. */
  lemma DeltasDistinct(m: nat, i: nat, j: nat)
    requires i < j < Pow2(m)
    ensures Delta(i, Pow2(m)) != Delta(j, Pow2(m))
  {
    hide Delta;
    if Delta(i, Pow2(m)) == Delta(j, Pow2(m)) {
      var k := EqualDeltas(i, j, Pow2(m));
      var d := Pow2(m + 1);
      assert d == 2 * Pow2(m);
      NotBothSmall(m + 1, d, j - i, i + j + 1, k);
    }
  }

  /** Of two numbers of different parity whose product is a multiple of 2^m, one is itself. */
  lemma NotBothSmall(m: nat, d: int, a: int, b: int, k: int)
    requires (a + b) % 2 == 1 && d == Pow2(m) && a * b == d * k
    ensures !(0 < a < d && 0 < b < d)
  {
    BothDivisible(a, b, d, k);
    OneDivisible(m, d, a, b);
    if Divides(d, a) { SmallMultiple(d, a); } else { SmallMultiple(d, b); }
  }

  lemma OneDivisible(m: nat, d: int, a: int, b: int)
    requires (a + b) % 2 == 1 && d == Pow2(m) && Divides(d, a * b) && Divides(d, b * a)
    ensures Divides(d, a) || Divides(d, b)
  {
    hide Pow2, Divides;
    if a % 2 == 1 { OddFactor(m, a, b); } else { OddFactor(m, b, a); }
  }

  lemma BothDivisible(a: int, b: int, d: int, k: int)
    requires a * b == d * k
    ensures Divides(d, a * b) && Divides(d, b * a)
  {
    assert b * a == d * k by { assert b * a == a * b; }
  }

  // ------------------------------------------------------------------- the schedule

  /** The deltas below n among the first i steps, in order. */
  function Deltas(i: nat, p: nat, n: nat): (ds: seq<nat>)
    requires p > 0
    ensures |ds| <= i
  {
    if i == 0 then []
    else if Delta(i - 1, p) < n then Deltas(i - 1, p, n) + [Delta(i - 1, p)]
    else Deltas(i - 1, p, n)
  }

  predicate Reached(i: nat, p: nat, d: nat)
    requires p > 0
  {
    exists k :: 0 <= k < i && Delta(k, p) == d
  }

  lemma {:induction false} DeltasFrom(i: nat, p: nat, n: nat, d: nat)
    requires p > 0
    ensures d in Deltas(i, p, n) <==> d < n && Reached(i, p, d)
    decreases i
  {
    hide Delta;
    if i > 0 {
      DeltasFrom(i - 1, p, n, d);
      assert Reached(i, p, d) <==> Reached(i - 1, p, d) || Delta(i - 1, p) == d;
      hide Reached;
    }
  }

  lemma {:induction false} DeltasNoRepeats(i: nat, m: nat, n: nat)
    requires i <= Pow2(m)
    ensures NoRepeats(Deltas(i, Pow2(m), n))
    decreases i
  {
    hide Delta;
    if i > 0 {
      DeltasNoRepeats(i - 1, m, n);
      var d := Delta(i - 1, Pow2(m));
      DeltasFrom(i - 1, Pow2(m), n, d);
      forall k | 0 <= k < i - 1 ensures Delta(k, Pow2(m)) != d { DeltasDistinct(m, k, i - 1); }
      assert d !in Deltas(i - 1, Pow2(m), n);
    }
  }

  lemma DeltasBelow(i: nat, p: nat, n: nat)
    requires p > 0
    ensures Elements(Deltas(i, p, n)) <= Range(0, n)
  {
    forall d | d in Deltas(i, p, n) ensures d in Range(0, n) { DeltasFrom(i, p, n, d); }
  }

  /** There are never more entries than clusters. */
  lemma DeltasFit(i: nat, m: nat, n: nat)
    requires i <= Pow2(m)
    ensures |Deltas(i, Pow2(m), n)| <= n
  {
    DeltasNoRepeats(i, m, n);
    NoRepeatsSize(Deltas(i, Pow2(m), n));
    DeltasBelow(i, Pow2(m), n);
    hide Elements, Deltas;
    SubsetSize(Elements(Deltas(i, Pow2(m), n)), Range(0, n));
  }

  /** All 2^m steps together reach every value below 2^m. */
  lemma EveryRemainder(m: nat, d: nat)
    requires d < Pow2(m)
    ensures Reached(Pow2(m), Pow2(m), d)
  {
    var p := Pow2(m);
    DeltasNoRepeats(p, m, p);
    NoRepeatsSize(Deltas(p, p, p));
    AllSteps(p, p);
    DeltasBelow(p, p, p);
    hide Deltas, Reached;
    SubsetSize(Elements(Deltas(p, p, p)), Range(0, p));
    assert d in Range(0, p);
    DeltasFrom(p, p, p, d);
  }

  lemma {:induction false} AllSteps(i: nat, p: nat)
    requires p > 0
    ensures |Deltas(i, p, p)| == i
    decreases i
  {
    hide Delta;
    if i > 0 { AllSteps(i - 1, p); }
  }

  /** The full run visits every cluster exactly once. */
  lemma DeltasArePermutation(m: nat, n: nat)
    requires n <= Pow2(m)
    ensures var ds := Deltas(Pow2(m), Pow2(m), n);
      |ds| == n && NoRepeats(ds) && forall d :: d in ds <==> 0 <= d < n
  {
    var p := Pow2(m);
    var ds := Deltas(p, p, n);
    DeltasNoRepeats(p, m, n);
    NoRepeatsSize(ds);
    hide Deltas, Reached, NoRepeats;
    forall d: nat ensures d in ds <==> d < n {
      DeltasFrom(p, p, n, d);
      if d < n { EveryRemainder(m, d); }
    }
    assert Elements(ds) == Range(0, n);
  }

  datatype Entry = Entry(sendCluster: nat, recvCluster: nat)

  /** The peers of a cluster for one delta. */
  function EntryFor(local: nat, delta: nat, n: nat): Entry
    requires local < n && delta < n
  {
    Entry(Convergence.ConnectPeer(local, delta, n), Convergence.AcceptPeer(local, delta, n))
  }

  method PeersFor(local: nat, delta: nat, n: nat) returns (e: Entry)
    requires local < n && delta < n
    ensures e == EntryFor(local, delta, n)
  {
    e := Entry((local + delta) % n, (local - delta + n) % n);
  }

  /** The quadratic update. */
  method NextLocalDelta(localDelta: nat, localRound: nat, p: nat, ghost m: nat) returns (next: nat)
    requires localRound > 0 && p == Pow2(m) && localDelta == Delta(localRound - 1, p)
    ensures next == Delta(localRound, p)
  {
    NextDelta(localRound, p);
    MaskIsMod(localDelta + localRound, m);
    hide Delta, Pow2, BitAnd;
    next := BitAnd(localDelta + localRound, p - 1);
  }

  /** The c2cSchedule loop of flagcxCommInitRank for cluster `local` of n: it fills the array exactly,
      and sends to, and receives from, every cluster in exactly one round. */
  method BuildSchedule(n: nat, local: nat) returns (schedule: array<Entry>)
    requires local < n
    ensures schedule.Length == n == |Deltas(Pow2Up(n), Pow2Up(n), n)|
    ensures forall r :: 0 <= r < n ==>
      Deltas(Pow2Up(n), Pow2Up(n), n)[r] < n
      && schedule[r] == EntryFor(local, Deltas(Pow2Up(n), Pow2Up(n), n)[r], n)
    ensures forall r, t :: 0 <= r < t < n ==>
      schedule[r].sendCluster != schedule[t].sendCluster && schedule[r].recvCluster != schedule[t].recvCluster
    ensures forall r :: 0 <= r < n ==> schedule[r].sendCluster < n && schedule[r].recvCluster < n
  {
    ghost var deltas;
    hide BitAnd, Delta, Deltas, Pow2, NoRepeats, Pow2Up, Log2Up, EntryFor;
    assert Pow2Up(n) == Pow2(Log2Up(n)) by { Pow2UpIsPower(n); }
    schedule := new Entry[n](_ => Entry(0, 0));
    var p := Pow2Up(n);
    ghost var m := Log2Up(n);
    Pow2UpIsLeast(n);
    var localRound, localDelta, round := 0, 0, 0;
    deltas := [];
    StartOfRun(p, n);
    while true
      invariant 0 <= localRound < p && localDelta == Delta(localRound, p)
      invariant deltas == Deltas(localRound, p, n) && round == |deltas| <= n
      invariant forall r :: 0 <= r < round ==>
        deltas[r] < n &&
        schedule[r] == EntryFor(local, deltas[r], n)
      decreases p - localRound
    {
      DeltasStep(localRound, p, n);
      DeltasFit(localRound + 1, m, n);
      if localDelta < n {
        schedule[round] := PeersFor(local, localDelta, n);
        deltas := deltas + [localDelta];
        round := round + 1;
      }
      localRound := localRound + 1;
      localDelta := NextLocalDelta(localDelta, localRound, p, m);
      if localRound == p { break; }
    }
    DeltasArePermutation(m, n);
    MeetsAllOnce(deltas, schedule[..], local, n);
  }

  /** Entries for different deltas meet different clusters. */
  lemma MeetsAllOnce(deltas: seq<nat>, entries: seq<Entry>, local: nat, n: nat)
    requires NoRepeats(deltas) && |deltas| == |entries| == n && local < n
    requires forall r :: 0 <= r < n ==> deltas[r] < n && entries[r] == EntryFor(local, deltas[r], n)
    ensures forall r, t :: 0 <= r < t < n ==>
      entries[r].sendCluster != entries[t].sendCluster && entries[r].recvCluster != entries[t].recvCluster
    ensures forall r :: 0 <= r < n ==> entries[r].sendCluster < n && entries[r].recvCluster < n
  {
    hide EntryFor, NoRepeats;
    forall r, t | 0 <= r < t < n
      ensures entries[r].sendCluster != entries[t].sendCluster && entries[r].recvCluster != entries[t].recvCluster
    {
      Apart(deltas, r, t);
      EntriesDiffer(local, deltas[r], deltas[t], n);
    }
    forall r | 0 <= r < n ensures entries[r].sendCluster < n && entries[r].recvCluster < n {
      EntryInRange(local, deltas[r], n);
    }
  }

  lemma Apart(ds: seq<nat>, r: nat, t: nat)
    requires NoRepeats(ds) && r < t < |ds|
    ensures ds[r] != ds[t]
  {}

  lemma EntryInRange(local: nat, d: nat, n: nat)
    requires local < n && d < n
    ensures EntryFor(local, d, n).sendCluster < n && EntryFor(local, d, n).recvCluster < n
  {}

  /** Different deltas name different peers. */
  lemma EntriesDiffer(local: nat, d: nat, e: nat, n: nat)
    requires local < n && d < n && e < n && d != e
    ensures EntryFor(local, d, n).sendCluster != EntryFor(local, e, n).sendCluster
    ensures EntryFor(local, d, n).recvCluster != EntryFor(local, e, n).recvCluster
  {
    Convergence.ModOnce(local + d, n);
    Convergence.ModOnce(local + e, n);
    Convergence.ModOnce(local + n - d, n);
    Convergence.ModOnce(local + n - e, n);
  }

  lemma StartOfRun(p: nat, n: nat)
    requires p > 0
    ensures Delta(0, p) == 0 && Deltas(0, p, n) == []
  {}

  lemma DeltasStep(i: nat, p: nat, n: nat)
    requires p > 0
    ensures Deltas(i + 1, p, n) == if Delta(i, p) < n then Deltas(i, p, n) + [Delta(i, p)] else Deltas(i, p, n)
  {}

  /** The quadratic update keeps the delta at the triangular number of the round. */
  lemma NextDelta(i: nat, p: nat)
    requires i > 0 && p > 0
    ensures (Delta(i - 1, p) + i) % p == Delta(i, p)
  {
    ShiftRemainder(Tri(i - 1), i, p);
  }

  lemma ShiftRemainder(t: nat, i: nat, p: nat)
    requires p > 0
    ensures (t % p + i) % p == (t + i) % p
  {
    ShiftFrom(t, i, p, t / p, t % p, (t % p + i) / p, (t % p + i) % p);
  }

  lemma ShiftFrom(t: nat, i: nat, p: nat, a: nat, s: nat, q: nat, r: nat)
    requires p > 0 && t == p * a + s && s + i == p * q + r && r < p
    ensures (t + i) % p == r
  {
    assert p * (a + q) == p * a + p * q;
    RemainderIs(t + i, p, a + q, r);
  }

  /** In every round the clusters match: a sends to b exactly when b receives from a. */
  lemma RoundsMatch(n: nat, a: nat, b: nat, r: nat)
    requires a < n && b < n && r < n
    ensures var deltas := Deltas(Pow2Up(n), Pow2Up(n), n);
      && |deltas| == n && deltas[r] < n
      && (Convergence.ConnectPeer(a, deltas[r], n) == b <==> Convergence.AcceptPeer(b, deltas[r], n) == a)
  {
    Pow2UpIsLeast(n);
    DeltasArePermutation(Log2Up(n), n);
    var deltas := Deltas(Pow2Up(n), Pow2Up(n), n);
    hide Deltas, Pow2Up, NoRepeats;
    assert deltas[r] in deltas;
    Convergence.RoundMatches(a, b, deltas[r], n);
  }
}
