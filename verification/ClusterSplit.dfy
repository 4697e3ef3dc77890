// Clusters of a communicator and their split into sub-clusters (flagcx/core/cluster.cc), and the
// tables built from them (flagcx/flagcx.cc).

module ClusterSplit {
  import opened Results

  // ------------------------------------------------------------------------- blocks

  function Sum(sizes: seq<nat>): nat {
    if sizes == [] then 0 else Sum(sizes[..|sizes| - 1]) + sizes[|sizes| - 1]
  }

  /** Block number and offset of position r when the positions are cut into consecutive blocks. */
  function Block(sizes: seq<nat>, r: nat): (b: (nat, nat))
    requires r < Sum(sizes)
    ensures b.0 < |sizes| && b.1 < sizes[b.0]
  {
    var n := |sizes| - 1;
    if r >= Sum(sizes[..n]) then (n, r - Sum(sizes[..n])) else Block(sizes[..n], r)
  }

  /** A position is its block's start plus its offset. */
  lemma {:induction false} BlockStart(sizes: seq<nat>, r: nat)
    requires r < Sum(sizes)
    ensures var (b, o) := Block(sizes, r); r == Sum(sizes[..b]) + o
    decreases |sizes|
  {
    var n := |sizes| - 1;
    if r < Sum(sizes[..n]) {
      BlockStart(sizes[..n], r);
      assert sizes[..n][..Block(sizes, r).0] == sizes[..Block(sizes, r).0];
    }
  }

  lemma {:induction false} SumAppend(a: seq<nat>, b: seq<nat>)
    ensures Sum(a + b) == Sum(a) + Sum(b)
    decreases |b|
  {
    if b == [] { assert a + b == a; }
    else {
      assert (a + b)[..|a + b| - 1] == a + b[..|b| - 1];
      SumAppend(a, b[..|b| - 1]);
    }
  }

  lemma {:induction false} BlockAppend(a: seq<nat>, b: seq<nat>, r: nat)
    requires r < Sum(a) + Sum(b)
    ensures Sum(a + b) == Sum(a) + Sum(b)
    ensures Block(a + b, r) ==
      if r < Sum(a) then Block(a, r) else (|a| + Block(b, r - Sum(a)).0, Block(b, r - Sum(a)).1)
    decreases |b|
  {
    SumAppend(a, b);
    if b == [] { assert a + b == a; }
    else {
      var n := |b| - 1;
      assert (a + b)[..|a + b| - 1] == a + b[..n];
      SumAppend(a, b[..n]);
      if r < Sum(a) + Sum(b[..n]) { BlockAppend(a, b[..n], r); }
    }
  }

  // ------------------------------------------------------------------- split of one cluster

  lemma QuotientFacts(x: nat, d: nat)
    requires d > 0
    ensures x / d >= 0 && 0 <= x % d < d
    ensures x >= d ==> x / d >= 1
  {
    if x >= d { DivBound(x, d, 1); }
  }

  /** Sub-cluster, rank in it and its size for the rank at offset o of a cluster of s ranks that is
      split k ways, as flagcxCollectClusterInfos computes them. */
  function SubCluster(o: nat, s: nat, k: nat): (r: (nat, nat, nat))
    requires 1 <= k <= s && o < s
  {
    QuotientFacts(s, k);
    var q := s / k;
    QuotientFacts(o, q);
    var part := o / q;
    var hasRes := part >= k;
    (if hasRes then part - 1 else part,
     if hasRes then q + o % q else o % q,
     if hasRes || part == k - 1 then q + s % k else q)
  }

  /** Sizes of the sub-clusters: the last one takes the remainder. */
  function Parts(s: nat, k: nat): (ps: seq<nat>)
    requires 1 <= k <= s
    ensures |ps| == k
  {
    QuotientFacts(s, k);
    seq(k - 1, _ => s / k) + [s / k + s % k]
  }

  /** How the quotient d of o by q compares with k. */
  lemma QuotientBound(o: int, q: int, k: int, d: int, m: int)
    requires q > 0 && o == q * d + m && 0 <= m < q
    ensures d >= k <==> o >= q * k
    ensures o - q * k == q * (d - k) + m
  {
    assert q * (d - k) == q * d - q * k;
    TimesPositive(q, d - k);
  }

  lemma TimesPositive(q: int, x: int)
    requires q > 0
    ensures x >= 0 ==> q * x >= 0
    ensures x < 0 ==> q * x <= -q
  {
    if x >= 0 {
      assert q * x >= 0;
    } else {
      assert q * x == -q - q * (-1 - x);
      assert q * (-1 - x) >= 0;
    }
  }

  lemma DivBound(o: nat, q: nat, k: nat)
    requires q > 0
    ensures o / q >= k <==> o >= q * k
    ensures o >= q * k ==> o / q - k == (o - q * k) / q && o % q == (o - q * k) % q
  {
    QuotientBound(o, q, k, o / q, o % q);
    if o >= q * k { Quotient(o - q * k, q, o / q - k, o % q); }
  }

  lemma Quotient(x: int, q: int, d: int, m: int)
    requires q > 0 && x == q * d + m && 0 <= m < q
    ensures x / q == d && x % q == m
  {
    var e := x / q - d;
    assert q * e == m - x % q by { assert q * (x / q) + x % q == x; assert q * e == q * (x / q) - q * d; }
    assert e > 0 ==> q * e >= q;
    assert e < 0 ==> q * e <= -q;
  }

  /** The split keeps every sub-cluster number in range exactly when the remainder is no larger
      than the quotient. */
  lemma SplitInRange(s: nat, k: nat)
    requires 1 <= k <= s
    ensures (forall o :: 0 <= o < s ==> SubCluster(o, s, k).0 < k) <==> s % k <= s / k
  {
    var q, r := s / k, s % k;
    assert s == q * k + r;
    assert q >= 1 by { DivBound(s, k, 1); }
    if r <= q {
      forall o | 0 <= o < s ensures SubCluster(o, s, k).0 < k {
        SubClusterExact(o, s, k);
        DivBound(o, q, k - 1);
        hide SubCluster;
      }
    } else {
      DivBound(s - 1, q, k + 1);
      assert q * (k + 1) == q * k + q;
      assert SubCluster(s - 1, s, k).0 >= k;
    }
  }

  /** Five ranks split three ways: the last rank lands in sub-cluster 3 of 3. */
  lemma FiveSplitThree()
    ensures SubCluster(4, 5, 3).0 == 3
  {}

  lemma BlockOfLast(front: seq<nat>, last: nat, o: nat)
    requires o < Sum(front) + last
    ensures Sum(front + [last]) == Sum(front) + last
    ensures Block(front + [last], o) == if o < Sum(front) then Block(front, o) else (|front|, o - Sum(front))
  {
    assert (front + [last])[..|front|] == front;
  }

  lemma {:induction false} EqualParts(n: nat, q: nat, r: nat)
    requires q > 0
    ensures Sum(seq(n, _ => q)) == q * n
    ensures r < q * n ==> Block(seq(n, _ => q), r) == (r / q, r % q)
    decreases n
  {
    hide Block, Sum;
    if n == 0 {
      NoParts();
    } else {
      var ps := seq(n - 1, _ => q);
      assert seq(n, _ => q) == ps + [q];
      EqualParts(n - 1, q, r);
      assert q * (n - 1) + q == q * n;
      BlockOfLast(ps, q, if r < q * n then r else 0);
      if q * (n - 1) <= r < q * n { Quotient(r, q, n - 1, r - q * (n - 1)); }
    }
  }

  lemma NoParts()
    ensures Sum([]) == 0
  {}

  lemma SubClusterExact(o: nat, s: nat, k: nat)
    requires 1 <= k <= s && o < s && s % k <= s / k
    ensures s / k >= 1
    ensures var q, r := s / k, s % k;
      SubCluster(o, s, k) ==
        if o < q * (k - 1) then (o / q, o % q, q) else (k - 1, o - q * (k - 1), q + r)
  {
    var q, r := s / k, s % k;
    DivBound(s, k, 1);
    DivSplit(s, k);
    SplitPoint(o, q, k, q * (k - 1), q * k);
    SubClusterOf(o, s, k, q, r, o / q, o % q);
    hide SubCluster;
  }

  /** Quotient and remainder of an offset around the last part. */
  lemma SplitPoint(o: nat, q: nat, k: nat, start: int, end: int)
    requires q > 0 && k >= 1 && start == q * (k - 1) && end == q * k
    ensures end == start + q
    ensures o < start <==> o / q < k - 1
    ensures start <= o < end ==> o / q == k - 1 && o % q == o - start
    ensures end <= o < end + q ==> o / q == k && o % q == o - end
  {
    NextPart(q, k);
    DivBound(o, q, k - 1);
    if start <= o < end {
      Quotient(o, q, k - 1, o - start);
    } else if end <= o < end + q {
      Quotient(o, q, k, o - end);
    }
  }

  lemma NextPart(q: int, k: int)
    ensures q * (k - 1) + q == q * k
  {}

  lemma SubClusterOf(o: nat, s: nat, k: nat, q: nat, r: nat, d: nat, m: nat)
    requires 1 <= k <= s && o < s && q == s / k && r == s % k && q > 0 && d == o / q && m == o % q
    ensures SubCluster(o, s, k) ==
      (if d >= k then d - 1 else d, if d >= k then q + m else m, if d >= k || d == k - 1 then q + r else q)
  {}

  lemma BlockOfParts(o: nat, s: nat, k: nat)
    requires 1 <= k <= s && o < s
    ensures s / k >= 1 && Sum(Parts(s, k)) == s
    ensures var q, r := s / k, s % k;
      Block(Parts(s, k), o) == if o < q * (k - 1) then (o / q, o % q) else (k - 1, o - q * (k - 1))
  {
    hide Block, Sum;
    var q, r := s / k, s % k;
    assert s == q * k + r;
    DivBound(s, k, 1);
    assert q * (k - 1) + q == q * k;
    EqualParts(k - 1, q, o);
    BlockOfLast(seq(k - 1, _ => q), q + r, o);
    assert Parts(s, k) == seq(k - 1, _ => q) + [q + r];
  }

  /** With a small remainder the split is a partition into the parts: rank by rank the computed
      sub-cluster, rank and size are those of the part the rank lies in. */
  lemma SplitIsPartition(s: nat, k: nat, o: nat)
    requires 1 <= k <= s && o < s && s % k <= s / k
    ensures Sum(Parts(s, k)) == s
    ensures var (b, h) := Block(Parts(s, k), o); SubCluster(o, s, k) == (b, h, Parts(s, k)[b])
  {
    SubClusterExact(o, s, k);
    BlockOfParts(o, s, k);
    hide Sum, SubCluster;
  }

  // -------------------------------------------------------------------- split of all clusters

  ghost predicate SplitsOk(sizes: seq<nat>, splits: seq<nat>) {
    |splits| == |sizes| && forall c :: 0 <= c < |sizes| ==> 1 <= splits[c] <= sizes[c]
  }

  /** Every cluster's remainder is no larger than its quotient. */
  ghost predicate SmallRemainders(sizes: seq<nat>, splits: seq<nat>)
    requires SplitsOk(sizes, splits)
  {
    forall c :: 0 <= c < |sizes| ==> sizes[c] % splits[c] <= sizes[c] / splits[c]
  }

  function AllParts(sizes: seq<nat>, splits: seq<nat>): (ps: seq<nat>)
    requires |splits| == |sizes| && forall c :: 0 <= c < |sizes| ==> 1 <= splits[c] <= sizes[c]
    ensures |ps| == Sum(splits)
  {
    if sizes == [] then []
    else
      var n := |sizes| - 1;
      AllParts(sizes[..n], splits[..n]) + Parts(sizes[n], splits[n])
  }

  lemma SumParts(s: nat, k: nat)
    requires 1 <= k <= s
    ensures Sum(Parts(s, k)) == s
  {
    BlockOfParts(0, s, k);
  }

  lemma {:induction false} SumAllParts(sizes: seq<nat>, splits: seq<nat>)
    requires SplitsOk(sizes, splits)
    ensures Sum(AllParts(sizes, splits)) == Sum(sizes)
    decreases |sizes|
  {
    if sizes != [] {
      var n := |sizes| - 1;
      SumAllParts(sizes[..n], splits[..n]);
      SumParts(sizes[n], splits[n]);
      SumAppend(AllParts(sizes[..n], splits[..n]), Parts(sizes[n], splits[n]));
    }
  }

  /** Over the whole communicator: the sub-clusters of earlier clusters come first, and every rank
      lies in the part its numbers name. */
  lemma {:induction false} SplitsArePartition(sizes: seq<nat>, splits: seq<nat>, r: nat)
    requires SplitsOk(sizes, splits) && SmallRemainders(sizes, splits) && r < Sum(sizes)
    ensures Sum(AllParts(sizes, splits)) == Sum(sizes)
    ensures var (c, o) := Block(sizes, r);
      var (b, h) := Block(AllParts(sizes, splits), r);
      var (sub, rank, size) := SubCluster(o, sizes[c], splits[c]);
      b == Sum(splits[..c]) + sub && h == rank && AllParts(sizes, splits)[b] == size
    decreases |sizes|
  {
    SumAllParts(sizes, splits);
    var n := |sizes| - 1;
    var front, last := AllParts(sizes[..n], splits[..n]), Parts(sizes[n], splits[n]);
    SumAllParts(sizes[..n], splits[..n]);
    SumParts(sizes[n], splits[n]);
    BlockAppend(front, last, r);
    if r < Sum(sizes[..n]) {
      SplitsArePartition(sizes[..n], splits[..n], r);
      var c := Block(sizes, r).0;
      assert splits[..n][..c] == splits[..c];
    } else {
      SplitIsPartition(sizes[n], splits[n], r - Sum(sizes[..n]));
      assert (front + last)[|front| + Block(last, r - Sum(front)).0] == last[Block(last, r - Sum(front)).0];
    }
  }
}
