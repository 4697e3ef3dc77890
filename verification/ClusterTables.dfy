// What one rank works out about the clusters, and the tables every rank builds from the gathered
// numbers (flagcx/core/cluster.cc, flagcx/flagcx.cc).

module ClusterTables {
  import opened Results
  import opened ClusterSplit

  datatype ClusterInfo = ClusterInfo(
    clusterId: int, homoRank: int, homoRootRank: int, homoRanks: int, nclusters: int)

  // ---------------------------------------------------------------- vendors in rank order

  function Count(vs: seq<nat>, v: nat): nat {
    if vs == [] then 0 else Count(vs[..|vs| - 1], v) + (if vs[|vs| - 1] == v then 1 else 0)
  }

  /** The different vendors in order of first appearance. */
  function Order(vs: seq<nat>): (order: seq<nat>)
    ensures forall v :: v in order <==> v in vs
    ensures forall i, j :: 0 <= i < j < |order| ==> order[i] != order[j]
  {
    if vs == [] then []
    else
      var n := |vs| - 1;
      assert vs == vs[..n] + [vs[n]];
      if vs[n] in vs[..n] then Order(vs[..n]) else Order(vs[..n]) + [vs[n]]
  }

  function First(vs: seq<nat>, v: nat): (i: nat)
    requires v in vs
    ensures i < |vs| && vs[i] == v && v !in vs[..i]
  {
    var n := |vs| - 1;
    assert vs == vs[..n] + [vs[n]];
    if v in vs[..n] then
      var i := First(vs[..n], v);
      assert vs[..n][..i] == vs[..i];
      i
    else n
  }

  lemma FirstIs(vs: seq<nat>, v: nat, i: nat)
    requires i < |vs| && vs[i] == v && v !in vs[..i]
    ensures First(vs, v) == i
  {
    var f := First(vs, v);
    forall j | 0 <= j < i ensures vs[j] != v { assert vs[..i][j] == vs[j]; }
    forall j | 0 <= j < f ensures vs[j] != v { assert vs[..f][j] == vs[j]; }
  }

  /** One more rank: how the order and the counts change. */
  lemma CountStep(vs: seq<nat>, i: nat)
    requires i < |vs|
    ensures vs[..i + 1] == vs[..i] + [vs[i]]
    ensures Order(vs[..i + 1]) == (if vs[i] in vs[..i] then Order(vs[..i]) else Order(vs[..i]) + [vs[i]])
    ensures forall v :: Count(vs[..i + 1], v) == Count(vs[..i], v) + (if v == vs[i] then 1 else 0)
  {
    assert vs[..i + 1] == vs[..i] + [vs[i]];
    assert vs[..i + 1][..i] == vs[..i];
  }

  lemma FirstStep(vs: seq<nat>, i: nat)
    requires i < |vs|
    ensures vs[i] !in vs[..i] ==> Count(vs[..i], vs[i]) == 0 && First(vs, vs[i]) == i
    ensures vs[i] in vs[..i] ==> First(vs, vs[i]) < i
  {
    hide Count, First;
    if vs[i] !in vs[..i] {
      CountMissing(vs[..i], vs[i]);
      FirstIs(vs, vs[i], i);
    } else {
      var j :| 0 <= j < i && vs[..i][j] == vs[i];
      FirstNotAfter(vs, vs[i], j);
    }
  }

  /** One more rank of vendor cls. */
  lemma OneMore(vs: seq<nat>, i: nat)
    requires i < |vs|
    ensures var cls := vs[i];
      && vs[..i + 1] == vs[..i] + [cls]
      && Order(vs[..i + 1]) == (if cls in vs[..i] then Order(vs[..i]) else Order(vs[..i]) + [cls])
      && (forall v :: Count(vs[..i + 1], v) == Count(vs[..i], v) + (if v == cls then 1 else 0))
      && (cls !in vs[..i] ==> Count(vs[..i], cls) == 0 && First(vs, cls) == i)
      && (cls in vs[..i] ==> First(vs, cls) < i)
  {
    CountStep(vs, i);
    FirstStep(vs, i);
    hide Order, Count, First;
  }

  lemma FirstNotAfter(vs: seq<nat>, v: nat, j: nat)
    requires j < |vs| && vs[j] == v
    ensures First(vs, v) <= j
  {
    var f := First(vs, v);
    forall k | 0 <= k < f ensures vs[k] != v { assert vs[..f][k] == vs[k]; }
  }

  lemma {:induction false} CountMissing(vs: seq<nat>, v: nat)
    requires v !in vs
    ensures Count(vs, v) == 0
    decreases |vs|
  {
    if vs != [] {
      assert vs[..|vs| - 1] <= vs;
      CountMissing(vs[..|vs| - 1], v);
    }
  }

  /** sizes counts the vendors of vs. */
  ghost predicate Tallies(sizes: map<nat, nat>, vs: seq<nat>) {
    (forall v :: v in sizes <==> v in vs) && (forall v <- sizes :: sizes[v] == Count(vs, v))
  }

  lemma TallyStep(sizes: map<nat, nat>, vs: seq<nat>, i: nat)
    requires i < |vs| && Tallies(sizes, vs[..i])
    ensures vs[i] in sizes <==> vs[i] in vs[..i]
    ensures Tallies(sizes[vs[i] := if vs[i] in sizes then sizes[vs[i]] + 1 else 1], vs[..i + 1])
  {
    hide Count, Order, First, Tallies;
    CountStep(vs, i);
    FirstStep(vs, i);
    TallyMore(sizes, vs[..i], vs[..i + 1], vs[i]);
  }

  lemma TallyMore(sizes: map<nat, nat>, before: seq<nat>, after: seq<nat>, x: nat)
    requires Tallies(sizes, before) && after == before + [x]
    requires forall v :: Count(after, v) == Count(before, v) + (if v == x then 1 else 0)
    requires x !in before ==> Count(before, x) == 0
    ensures x in sizes <==> x in before
    ensures Tallies(sizes[x := if x in sizes then sizes[x] + 1 else 1], after)
  {
    hide Count;
    forall v ensures v in after <==> v in before || v == x { MemberStep(before, x, v); }
  }

  lemma MemberStep(a: seq<nat>, x: nat, v: nat)
    ensures v in a + [x] <==> v in a || v == x
  {}

  lemma StartScan(vs: seq<nat>)
    requires vs != []
    ensures Order(vs[..1]) == [vs[0]] && Tallies(map[vs[0] := 1], vs[..1]) && First(vs, vs[0]) == 0
  {
    hide Order, Tallies, First;
    assert vs[..1] == [vs[0]];
    OneVendor(vs[0]);
    FirstNotAfter(vs, vs[0], 0);
  }

  lemma OneVendor(v: nat)
    ensures Order([v]) == [v] && Tallies(map[v := 1], [v])
  {
    assert [v][..0] == [];
  }

  /** The scan of flagcxCollectClusterInfos before any split. */
  method Scan(vendors: seq<nat>, rank: nat)
    returns (homoRank: int, homoRootRank: int, currCluster: nat, sizes: map<nat, nat>, order: seq<nat>)
    requires rank < |vendors|
    ensures var my := vendors[rank];
      && homoRootRank == First(vendors, my) && homoRank == rank - homoRootRank
      && order == Order(vendors) && currCluster < |order| && order[currCluster] == my
      && Tallies(sizes, vendors)
  {
    hide Order, First, Tallies;
    var my := vendors[rank];
    ghost var first := First(vendors, my);
    FirstNotAfter(vendors, my, rank);
    StartScan(vendors);
    homoRank, homoRootRank, currCluster := rank, 0, 0;
    sizes, order := map[vendors[0] := 1], [vendors[0]];
    var aggRanks, localHomoRootRank := 1, 0;
    var i := 1;
    while i < |vendors|
      invariant 1 <= i <= |vendors| && aggRanks == i
      invariant order == Order(vendors[..i])
      invariant Tallies(sizes, vendors[..i])
      invariant localHomoRootRank == if first < i then first else 0
      invariant homoRank == rank - localHomoRootRank
      invariant first < i ==> currCluster < |order| && order[currCluster] == my
      invariant homoRootRank == if 0 < rank < i then first else 0
    {
      var cls := vendors[i];
      OneMore(vendors, i);
      TallyStep(sizes, vendors, i);
      if cls in sizes {
        sizes := sizes[cls := sizes[cls] + 1];
      } else {
        sizes := sizes[cls := 1];
        order := order + [cls];
        if my == cls {
          homoRank := homoRank - aggRanks;
          currCluster := |order| - 1;
          localHomoRootRank := i;
        }
      }
      aggRanks := aggRanks + 1;
      if i == rank { homoRootRank := localHomoRootRank; }
      i := i + 1;
    }
    assert vendors[..i] == vendors;
  }

  // ------------------------------------------------------------------------- collecting

  function Total(splits: seq<int>): int {
    if splits == [] then 0 else Total(splits[..|splits| - 1]) + splits[|splits| - 1]
  }

  /** Position of a vendor in the order of first appearance. */
  function Position(order: seq<nat>, v: nat): (c: nat)
    requires v in order
    ensures c < |order| && order[c] == v
  {
    if order[|order| - 1] == v then |order| - 1
    else
      assert order == order[..|order| - 1] + [order[|order| - 1]];
      Position(order[..|order| - 1], v)
  }

  method Prefix(splits: seq<int>, n: nat) returns (sum: int)
    requires n <= |splits|
    ensures sum == Total(splits[..n])
  {
    sum := 0;
    var i := 0;
    while i < n
      invariant 0 <= i <= n && sum == Total(splits[..i])
    {
      assert splits[..i + 1][..i] == splits[..i];
      sum := sum + splits[i];
      i := i + 1;
    }
  }

  lemma PositiveQuotient(s: nat, k: nat)
    requires 1 <= k <= s
    ensures s / k >= 1
  {
    DivBound(s, k, 1);
  }

  /** The numbers of a rank inside its split cluster; defined for every offset. */
  function SplitInfo(rank: nat, homoRank: int, homoRanks: nat, c: nat, splits: seq<int>): ClusterInfo
    requires c < |splits| && 1 <= splits[c] <= homoRanks
  {
    var k := splits[c];
    PositiveQuotient(homoRanks, k);
    var q := homoRanks / k;
    var part := homoRank / q;
    var h := if part >= k then q + homoRank % q else homoRank % q;
    ClusterInfo(Total(splits[..c]) + (if part >= k then part - 1 else part), h, rank - h,
                if part >= k || part == k - 1 then q + homoRanks % k else q, Total(splits))
  }

  /** Inside the cluster it is the split of one cluster, after the sub-clusters of earlier ones. */
  lemma SplitInfoIsSubCluster(rank: nat, o: nat, s: nat, c: nat, splits: seq<int>)
    requires c < |splits| && 1 <= splits[c] <= s && o < s
    ensures var (sub, h, size) := SubCluster(o, s, splits[c]);
      SplitInfo(rank, o, s, c, splits) == ClusterInfo(Total(splits[..c]) + sub, h, rank - h, size, Total(splits))
  {
    PositiveQuotient(s, splits[c]);
  }

  predicate ValidSplit(splits: seq<int>, vendors: seq<nat>) {
    && |splits| == |Order(vendors)|
    && forall c :: 0 <= c < |splits| ==> 1 <= splits[c] <= Count(vendors, Order(vendors)[c])
  }

  predicate SplitAccepted(vendors: seq<nat>, split: Option<seq<int>>) {
    |vendors| == 1 || split.None? || ValidSplit(split.value, vendors)
  }

  /** The numbers of a rank, from first appearances and counts. */
  function Numbers(vendors: seq<nat>, rank: nat, split: Option<seq<int>>): ClusterInfo
    requires rank < |vendors| && SplitAccepted(vendors, split)
  {
    var my, order := vendors[rank], Order(vendors);
    assert my in order;
    var c, root := Position(order, my), First(vendors, my);
    if |vendors| == 1 then ClusterInfo(0, 0, 0, 1, 1)
    else if split.None?
    then ClusterInfo(if |order| > 1 then c else 0, rank - root, root, Count(vendors, my), |order|)
    else SplitInfo(rank, rank - root, Count(vendors, my), c, split.value)
  }

  /** flagcxCollectClusterInfos; `split` is the parsed split list, if there is one. A lone rank
      never looks at the split. */
  method Collect(vendors: seq<nat>, rank: nat, split: Option<seq<int>>) returns (st: Status, info: ClusterInfo)
    requires rank < |vendors|
    ensures st == if SplitAccepted(vendors, split) then Success else SystemError
    ensures st == Success ==> info == Numbers(vendors, rank, split)
  {
    hide Order, Count, First, Position, Total, SplitInfo;
    assert vendors[rank] in Order(vendors);
    info := ClusterInfo(0, rank, 0, 1, 1);
    st := Success;
    if |vendors| <= 1 { return; }
    var homoRank, homoRootRank, currCluster, sizes, order := Scan(vendors, rank);
    var my := vendors[rank];
    UniquePosition(order, my, currCluster);
    KeysOfOrder(sizes, vendors);
    var homoRanks := sizes[my];
    info := ClusterInfo(if |sizes| > 1 then currCluster else 0, homoRank, homoRootRank, homoRanks, |order|);
    if split.None? { return; }
    var splits := split.value;
    if |order| != |splits| { return SystemError, info; }
    var i := 0;
    while i < |order|
      invariant 0 <= i <= |order|
      invariant forall c :: 0 <= c < i ==> 1 <= splits[c] <= sizes[order[c]]
    {
      if splits[i] <= 0 || splits[i] > sizes[order[i]] { return SystemError, info; }
      i := i + 1;
    }
    info := ApplySplit(rank, homoRank, homoRanks, currCluster, splits);
  }

  method ApplySplit(rank: nat, homoRank: int, homoRanks: nat, currCluster: nat, splits: seq<int>)
    returns (info: ClusterInfo)
    requires currCluster < |splits| && 1 <= splits[currCluster] <= homoRanks
    ensures info == SplitInfo(rank, homoRank, homoRanks, currCluster, splits)
  {
    hide Total;
    var subClusterId := Prefix(splits, currCluster);
    var k := splits[currCluster];
    var subHomoRanks := homoRanks / k;
    PositiveQuotient(homoRanks, k);
    var part := homoRank / subHomoRanks;
    var hasRes := part >= k;
    subClusterId := subClusterId + (if hasRes then part - 1 else part);
    var subHomoRank := if hasRes then subHomoRanks + homoRank % subHomoRanks else homoRank % subHomoRanks;
    var subHomoRootRank := rank - subHomoRank;
    if hasRes || part == k - 1 { subHomoRanks := subHomoRanks + homoRanks % k; }
    var subNClusters := Prefix(splits, |splits|);
    assert splits[..|splits|] == splits;
    info := ClusterInfo(subClusterId, subHomoRank, subHomoRootRank, subHomoRanks, subNClusters);
  }

  lemma UniquePosition(order: seq<nat>, v: nat, c: nat)
    requires c < |order| && order[c] == v
    requires forall i, j :: 0 <= i < j < |order| ==> order[i] != order[j]
    ensures Position(order, v) == c
  {
    var p := Position(order, v);
    assert p < c || p == c || c < p;
  }

  lemma KeysOfOrder(sizes: map<nat, nat>, vs: seq<nat>)
    requires Tallies(sizes, vs)
    ensures |sizes| == |Order(vs)|
    ensures forall v :: v in Order(vs) ==> v in sizes && sizes[v] == Count(vs, v)
  {
    var order := Order(vs);
    NoRepeatsSize(order);
    assert sizes.Keys == Elements(order);
  }

  // -------------------------------------------------------- vendors in consecutive blocks

  /** Equal vendors are exactly the positions of one block; no block is empty. */
  ghost predicate Contiguous(vendors: seq<nat>, sizes: seq<nat>) {
    && vendors != [] && Sum(sizes) == |vendors|
    && (forall c :: 0 <= c < |sizes| ==> sizes[c] > 0)
    && (forall r, t :: 0 <= r < |vendors| && 0 <= t < |vendors| ==>
          (vendors[r] == vendors[t] <==> Block(sizes, r).0 == Block(sizes, t).0))
  }

  lemma {:induction false} SumPrefix(sizes: seq<nat>, c: nat)
    requires c < |sizes|
    ensures Sum(sizes[..c]) + sizes[c] == Sum(sizes[..c + 1]) <= Sum(sizes)
    decreases |sizes|
  {
    assert sizes[..c + 1][..c] == sizes[..c];
    var n := |sizes| - 1;
    if c < n {
      SumPrefix(sizes[..n], c);
      assert sizes[..n][..c + 1] == sizes[..c + 1] && sizes[..n][..c] == sizes[..c];
    } else {
      assert sizes[..c + 1] == sizes;
    }
  }

  /** A position is determined by its block and offset. */
  lemma {:induction false} BlockAt(sizes: seq<nat>, c: nat, o: nat)
    requires c < |sizes| && o < sizes[c]
    ensures Sum(sizes[..c]) + o < Sum(sizes)
    ensures Block(sizes, Sum(sizes[..c]) + o) == (c, o)
    decreases |sizes|
  {
    SumPrefix(sizes, c);
    var n := |sizes| - 1;
    if c < n {
      assert sizes[..n][..c] == sizes[..c];
      BlockAt(sizes[..n], c, o);
    }
  }

  /** The next position is the next offset, or the start of the next block. */
  lemma BlockNext(sizes: seq<nat>, r: nat)
    requires r + 1 < Sum(sizes) && forall c :: 0 <= c < |sizes| ==> sizes[c] > 0
    ensures var (c, o) := Block(sizes, r);
      Block(sizes, r + 1) == if o + 1 < sizes[c] then (c, o + 1) else (c + 1, 0)
    ensures var (c, o) := Block(sizes, r); o + 1 < sizes[c] || c + 1 < |sizes|
  {
    BlockStart(sizes, r);
    var (c, o) := Block(sizes, r);
    SumPrefix(sizes, c);
    if c + 1 == |sizes| { assert sizes[..c + 1] == sizes; }
    if o + 1 < sizes[c] { BlockAt(sizes, c, o + 1); } else { BlockAt(sizes, c + 1, 0); }
  }

  /** Start of a block. */
  function StartOf(sizes: seq<nat>, c: nat): nat
    requires c <= |sizes|
  {
    Sum(sizes[..c])
  }

  lemma BlockIsKnown(vendors: seq<nat>, sizes: seq<nat>, n: nat)
    requires Contiguous(vendors, sizes) && 0 < n < |vendors|
    ensures vendors[n] in vendors[..n] <==> Block(sizes, n).1 > 0
  {
    BlockNext(sizes, n - 1);
    var (c, o) := Block(sizes, n);
    if o > 0 {
      assert vendors[n - 1] == vendors[n] && vendors[..n][n - 1] == vendors[n - 1];
    } else {
      BlockStart(sizes, n);
      forall r | 0 <= r < n ensures vendors[r] != vendors[n] {
        BlockStart(sizes, r);
        var (b, p) := Block(sizes, r);
        assert b == c ==> r >= n;
      }
    }
  }

  /** After the first n ranks: the order lists the blocks entered so far, and the counts are the
      parts of the blocks seen. */
  ghost predicate Scanned(vendors: seq<nat>, sizes: seq<nat>, n: nat)
    requires Sum(sizes) == |vendors| && 0 < n <= |vendors|
  {
    var (b, o) := Block(sizes, n - 1);
    && |Order(vendors[..n])| == b + 1
    && forall r :: 0 <= r < n ==> InScan(vendors[..n], vendors[r], Block(sizes, r).0, b, sizes, o)
  }

  /** A vendor of block c, when the scan has reached offset o of block b. */
  ghost predicate InScan(vs: seq<nat>, v: nat, c: nat, b: nat, sizes: seq<nat>, o: nat)
  {
    && c <= b && c < |Order(vs)| && c < |sizes| && Order(vs)[c] == v
    && Count(vs, v) == if c < b then sizes[c] else o + 1
  }

  lemma ScanStart(vendors: seq<nat>, sizes: seq<nat>)
    requires Contiguous(vendors, sizes)
    ensures Scanned(vendors, sizes, 1)
  {
    hide Order, First;
    assert sizes != [];
    BlockAt(sizes, 0, 0);
    assert sizes[..0] == [];
    StartScan(vendors);
    assert vendors[..1] == [vendors[0]];
  }

  /** What rank n adds to the scan, as seen by a rank of block c. */
  lemma ScanStep(vs: seq<nat>, vs': seq<nat>, x: nat, v: nat, c: nat, sizes: seq<nat>, b: nat, o: nat, enters: bool)
    requires vs' == vs + [x] && b < |sizes| && |Order(vs)| == b + 1
    requires Order(vs') == if enters then Order(vs) + [x] else Order(vs)
    requires Count(vs', v) == Count(vs, v) + (if v == x then 1 else 0)
    requires if enters then o + 1 == sizes[b] && b + 1 < |sizes| else o + 1 < sizes[b]
    requires v == x <==> c == if enters then b + 1 else b
    requires if c == b + 1 then enters && Count(vs, v) == 0 else InScan(vs, v, c, b, sizes, o)
    ensures |Order(vs')| == if enters then b + 2 else b + 1
    ensures InScan(vs', v, c, if enters then b + 1 else b, sizes, if enters then 0 else o + 1)
  {
    hide Order, Count;
  }

  /** How the block of rank n relates to the scan before it. */
  lemma NextBlock(vendors: seq<nat>, sizes: seq<nat>, n: nat)
    requires Contiguous(vendors, sizes) && 0 < n < |vendors|
    ensures var (b, o) := Block(sizes, n - 1);
      var enters := vendors[n] !in vendors[..n];
      && b < |sizes| && Block(sizes, n) == (if enters then (b + 1, 0) else (b, o + 1))
      && (if enters then o + 1 == sizes[b] && b + 1 < |sizes| else o + 1 < sizes[b])
  {
    BlockNext(sizes, n - 1);
    BlockIsKnown(vendors, sizes, n);
    BlockStart(sizes, n - 1);
    hide Contiguous, Block;
  }

  lemma SameBlock(vendors: seq<nat>, sizes: seq<nat>, r: nat, t: nat)
    requires Contiguous(vendors, sizes) && r < |vendors| && t < |vendors|
    ensures vendors[r] == vendors[t] <==> Block(sizes, r).0 == Block(sizes, t).0
  {
    hide Block;
  }

  lemma ScanNext(vendors: seq<nat>, sizes: seq<nat>, n: nat)
    requires Contiguous(vendors, sizes) && 0 < n < |vendors|
    requires Sum(sizes) == |vendors| && Scanned(vendors, sizes, n)
    ensures Scanned(vendors, sizes, n + 1)
  {
    hide Contiguous, Block, Order, Count, First, InScan;
    var (b, o) := Block(sizes, n - 1);
    var x := vendors[n];
    var vs, vs' := vendors[..n], vendors[..n + 1];
    var enters := x !in vs;
    NextBlock(vendors, sizes, n);
    OneMore(vendors, n);
    var (b', o') := Block(sizes, n);
    forall r | 0 <= r < n + 1
      ensures |Order(vs')| == b' + 1 && InScan(vs', vendors[r], Block(sizes, r).0, b', sizes, o')
    {
      var c := Block(sizes, r).0;
      SameBlock(vendors, sizes, r, n);
      if r < n {
        assert InScan(vs, vendors[r], c, b, sizes, o);
        assert c <= b by { InScanBound(vs, vendors[r], c, b, sizes, o); }
      } else if !enters {
        assert InScan(vs, vendors[n - 1], Block(sizes, n - 1).0, b, sizes, o);
        SameBlock(vendors, sizes, n - 1, n);
      }
      ScanStep(vs, vs', x, vendors[r], c, sizes, b, o, enters);
    }
    assert InScan(vs', vendors[0], Block(sizes, 0).0, b', sizes, o');
  }

  lemma InScanBound(vs: seq<nat>, v: nat, c: nat, b: nat, sizes: seq<nat>, o: nat)
    requires InScan(vs, v, c, b, sizes, o)
    ensures c <= b
  {}

  lemma {:induction false} ScanBlocks(vendors: seq<nat>, sizes: seq<nat>, n: nat)
    requires Contiguous(vendors, sizes) && Sum(sizes) == |vendors| && 0 < n <= |vendors|
    ensures Scanned(vendors, sizes, n)
    decreases n
  {
    hide Contiguous, Scanned;
    if n == 1 {
      ScanStart(vendors, sizes);
    } else {
      ScanBlocks(vendors, sizes, n - 1);
      ScanNext(vendors, sizes, n - 1);
    }
  }

  /** For vendors in consecutive blocks the scan finds the block, its start and its size. */
  lemma ScanOfBlocks(vendors: seq<nat>, sizes: seq<nat>, r: nat)
    requires Contiguous(vendors, sizes) && r < |vendors|
    ensures vendors[r] in Order(vendors)
    ensures var (c, o) := Block(sizes, r);
      && |Order(vendors)| == |sizes|
      && Position(Order(vendors), vendors[r]) == c
      && First(vendors, vendors[r]) == r - o
      && Count(vendors, vendors[r]) == sizes[c]
  {
    hide Order, Count, First, Position;
    var n := |vendors|;
    ScanBlocks(vendors, sizes, n);
    assert vendors[..n] == vendors;
    var (bn, on) := Block(sizes, n - 1);
    assert InScan(vendors[..n], vendors[r], Block(sizes, r).0, bn, sizes, on);
    LastBlock(sizes);
    FirstOfBlock(vendors, sizes, r);
    UniquePosition(Order(vendors), vendors[r], Block(sizes, r).0);
  }

  lemma FirstOfBlock(vendors: seq<nat>, sizes: seq<nat>, r: nat)
    requires Contiguous(vendors, sizes) && r < |vendors|
    ensures vendors[r] in vendors && First(vendors, vendors[r]) == r - Block(sizes, r).1
  {
    var (c, o) := Block(sizes, r);
    BlockStart(sizes, r);
    BlockAt(sizes, c, 0);
    var start := StartOf(sizes, c);
    forall t | 0 <= t < start ensures vendors[..start][t] != vendors[r] {
      BlockStart(sizes, t);
      var (b, p) := Block(sizes, t);
      assert b == c ==> t == start + p;
    }
    FirstIs(vendors, vendors[r], start);
  }

  lemma LastBlock(sizes: seq<nat>)
    requires Sum(sizes) > 0 && forall c :: 0 <= c < |sizes| ==> sizes[c] > 0
    ensures Block(sizes, Sum(sizes) - 1) == (|sizes| - 1, sizes[|sizes| - 1] - 1)
  {
    var n := |sizes| - 1;
    BlockAt(sizes, n, sizes[n] - 1);
    SumPrefix(sizes, n);
    assert sizes[..n + 1] == sizes;
  }

  /** The numbers a rank has in a division into parts. */
  function InfoOf(parts: seq<nat>, r: nat): ClusterInfo
    requires r < Sum(parts)
  {
    var (b, h) := Block(parts, r);
    ClusterInfo(b, h, r - h, parts[b], |parts|)
  }

  /** Without a split the numbers of flagcxCollectClusterInfos are those of the vendor blocks. */
  lemma CollectOfBlocks(vendors: seq<nat>, sizes: seq<nat>, r: nat)
    requires Contiguous(vendors, sizes) && |vendors| > 1 && r < |vendors|
    ensures vendors[r] in Order(vendors)
    ensures var my, order := vendors[r], Order(vendors);
      ClusterInfo(if |order| > 1 then Position(order, my) else 0, r - First(vendors, my), First(vendors, my),
                  Count(vendors, my), |order|) == InfoOf(sizes, r)
  {
    ScanOfBlocks(vendors, sizes, r);
    BlockStart(sizes, r);
  }

  /** The split numbers of the rank at offset o of block c are its numbers in the parts. */
  lemma PartInfo(sizes: seq<nat>, splits: seq<nat>, r: nat)
    requires SplitsOk(sizes, splits) && SmallRemainders(sizes, splits) && r < Sum(sizes)
    ensures Sum(AllParts(sizes, splits)) == Sum(sizes) && |AllParts(sizes, splits)| == Sum(splits)
    ensures var (c, o) := Block(sizes, r);
      && c < |splits| && 1 <= splits[c] <= sizes[c]
      && SplitInfo(r, o, sizes[c], c, splits) == InfoOf(AllParts(sizes, splits), r)
  {
    hide SmallRemainders, SubCluster, SplitInfo, Sum, Total, Block, AllParts;
    SplitsArePartition(sizes, splits, r);
    var (c, o) := Block(sizes, r);
    assert |AllParts(sizes, splits)| == Sum(splits);
    SplitInfoIsSubCluster(r, o, sizes[c], c, splits);
    TotalIsSum(splits[..c]);
    TotalIsSum(splits);
  }

  /** With a split of small remainders they are those of the parts of all clusters. */
  lemma CollectOfParts(vendors: seq<nat>, sizes: seq<nat>, splits: seq<nat>, r: nat)
    requires Contiguous(vendors, sizes) && |vendors| > 1 && r < |vendors|
    requires SplitsOk(sizes, splits) && SmallRemainders(sizes, splits)
    ensures vendors[r] in Order(vendors) && Sum(AllParts(sizes, splits)) == |vendors|
    ensures var my, order := vendors[r], Order(vendors);
      var c := Position(order, my);
      && c < |splits| && 1 <= splits[c] <= Count(vendors, my)
      && SplitInfo(r, r - First(vendors, my), Count(vendors, my), c, splits) == InfoOf(AllParts(sizes, splits), r)
  {
    hide Contiguous, SplitsOk, SmallRemainders, AllParts, Count, Order, First, Position, SplitInfo, InfoOf, Sum, Block;
    ContiguousFacts(vendors, sizes);
    ScanOfBlocks(vendors, sizes, r);
    PartInfo(sizes, splits, r);
  }

  lemma {:induction false} TotalIsSum(splits: seq<nat>)
    ensures Total(splits) == Sum(splits)
    decreases |splits|
  {
    if splits != [] { TotalIsSum(splits[..|splits| - 1]); }
  }

  // ------------------------------------------------------------------- gathered tables

  /** The numbers every rank reports, in rank order, are those of a division into parts. */
  ghost predicate Divided(ids: seq<nat>, homo: seq<int>, parts: seq<nat>) {
    && |ids| == |homo| == Sum(parts) && parts != [] && (forall b :: 0 <= b < |parts| ==> parts[b] > 0)
    && (forall r :: 0 <= r < |ids| ==> (ids[r], homo[r]) == Block(parts, r))
  }

  /** The clusterSizes loop of flagcxCommInitRank: for a division it recovers the parts, which sum
      to the number of ranks. */
  method ClusterSizes(ids: seq<nat>, ghost homo: seq<int>, n: nat, ghost parts: seq<nat>) returns (sizes: array<nat>)
    requires n > 0 && forall r :: 0 <= r < |ids| ==> ids[r] < n
    ensures sizes.Length == n
    ensures Divided(ids, homo, parts) && n == |parts| ==> sizes[..] == parts && Sum(sizes[..]) == |ids|
  {
    ghost var divided := Divided(ids, homo, parts) && n == |parts|;
    sizes := new nat[n](_ => 0);
    var cid, sum := 0, 0;
    var i := 0;
    while i < |ids|
      invariant 0 <= i <= |ids| && cid < n && 0 <= sum <= i
      invariant divided ==> sum == StartOf(parts, cid)
      invariant divided && i == 0 ==> cid == 0
      invariant divided && i > 0 ==> cid == ids[i - 1]
      invariant divided ==> forall c :: 0 <= c < cid ==> sizes[c] == parts[c]
    {
      if divided { NextId(ids, homo, parts, i); }
      if ids[i] == cid + 1 {
        sizes[cid] := i - sum;
        cid := cid + 1;
        sum := i;
      }
      i := i + 1;
    }
    if divided { LastId(ids, homo, parts); }
    sizes[cid] := |ids| - sum;
    if divided { assert sizes[..] == parts; }
  }

  /** From one rank to the next the cluster stays, or the next one starts. */
  lemma NextId(ids: seq<nat>, homo: seq<int>, parts: seq<nat>, i: nat)
    requires Divided(ids, homo, parts) && i < |ids|
    ensures ids[i] < |parts| && StartOf(parts, ids[i]) <= i
    ensures i == 0 ==> ids[i] == 0
    ensures i > 0 ==>
      ids[i] == ids[i - 1] || (ids[i] == ids[i - 1] + 1 && StartOf(parts, ids[i]) == i
                               && i - StartOf(parts, ids[i - 1]) == parts[ids[i - 1]])
  {
    BlockStart(parts, i);
    if i == 0 {
      BlockAt(parts, 0, 0);
      assert parts[..0] == [];
    } else {
      BlockStart(parts, i - 1);
      BlockNext(parts, i - 1);
      SumPrefix(parts, ids[i - 1]);
    }
  }

  lemma LastId(ids: seq<nat>, homo: seq<int>, parts: seq<nat>)
    requires Divided(ids, homo, parts)
    ensures |ids| > 0 && ids[|ids| - 1] == |parts| - 1
    ensures |ids| - StartOf(parts, |parts| - 1) == parts[|parts| - 1]
  {
    SumPrefix(parts, 0);
    LastBlock(parts);
    SumPrefix(parts, |parts| - 1);
    assert parts[..|parts| - 1 + 1] == parts;
  }

  /** Rank r is the member of its cluster with that cluster rank. */
  predicate IsMember(ids: seq<nat>, homo: seq<int>, clusterId: nat, r: nat, h: int)
    requires |ids| == |homo|
  {
    r < |ids| && ids[r] == clusterId && homo[r] == h
  }

  predicate HasMember(ids: seq<nat>, homo: seq<int>, clusterId: nat, h: int)
    requires |ids| == |homo|
  {
    exists r :: 0 <= r < |ids| && IsMember(ids, homo, clusterId, r, h)
  }

  /** flagcxBuildHomoRankList: succeeds exactly when the cluster ranks number the cluster's members
      from 0 on without gap or repetition, and then lists the members by cluster rank. */
  method BuildHomoRankList(ids: seq<nat>, homo: seq<int>, clusterId: nat, homoRanks: nat)
    returns (st: Status, list: array<int>)
    requires |ids| == |homo|
    ensures st == Success <==>
      && (forall r :: 0 <= r < |ids| && ids[r] == clusterId ==> 0 <= homo[r] < homoRanks)
      && (forall r, t :: 0 <= r < t < |ids| && ids[r] == clusterId && ids[t] == clusterId ==> homo[r] != homo[t])
      && (forall h :: 0 <= h < homoRanks ==> HasMember(ids, homo, clusterId, h))
    ensures st == Success ==>
      && list.Length == homoRanks
      && forall h :: 0 <= h < homoRanks ==> list[h] >= 0 && IsMember(ids, homo, clusterId, list[h], h)
  {
    st := Success;
    list := new int[homoRanks](_ => -1);
    var globalRank := 0;
    while globalRank < |ids|
      invariant 0 <= globalRank <= |ids|
      invariant forall r :: 0 <= r < globalRank && ids[r] == clusterId ==>
        0 <= homo[r] < homoRanks && list[homo[r]] == r
      invariant forall h :: 0 <= h < homoRanks ==>
        list[h] == -1 || (0 <= list[h] < globalRank && IsMember(ids, homo, clusterId, list[h], h))
    {
      if ids[globalRank] == clusterId {
        var homoRank := homo[globalRank];
        if homoRank < 0 || homoRank >= homoRanks { return InternalError, list; }
        if list[homoRank] != -1 {
          assert homo[list[homoRank]] == homo[globalRank] && ids[list[homoRank]] == clusterId;
          return InternalError, list;
        }
        list[homoRank] := globalRank;
      }
      globalRank := globalRank + 1;
    }
    var h := 0;
    while h < homoRanks
      invariant 0 <= h <= homoRanks
      invariant forall k :: 0 <= k < h ==> list[k] != -1 && HasMember(ids, homo, clusterId, k)
    {
      if list[h] == -1 {
        assert !HasMember(ids, homo, clusterId, h);
        return InternalError, list;
      }
      assert IsMember(ids, homo, clusterId, list[h], h);
      h := h + 1;
    }
  }

  predicate MemberAt(ids: seq<nat>, homo: seq<int>, parts: seq<nat>, b: nat, h: nat)
    requires |ids| == |homo| && b < |parts|
  {
    IsMember(ids, homo, b, StartOf(parts, b) + h, h)
  }

  /** For a division into parts the list of every cluster can be built: cluster b has exactly the
      ranks start..start+size, and its member with cluster rank h is start + h. */
  lemma ListSucceeds(ids: seq<nat>, homo: seq<int>, parts: seq<nat>, b: nat)
    requires Divided(ids, homo, parts) && b < |parts|
    ensures forall r :: 0 <= r < |ids| && ids[r] == b ==> 0 <= homo[r] < parts[b]
    ensures forall r, t :: 0 <= r < t < |ids| && ids[r] == b && ids[t] == b ==> homo[r] != homo[t]
    ensures forall h :: 0 <= h < parts[b] ==> HasMember(ids, homo, b, h) && MemberAt(ids, homo, parts, b, h)
  {
    forall r | 0 <= r < |ids| && ids[r] == b ensures 0 <= homo[r] < parts[b] && r == StartOf(parts, b) + homo[r] {
      BlockStart(parts, r);
    }
    forall h | 0 <= h < parts[b] ensures HasMember(ids, homo, b, h) && MemberAt(ids, homo, parts, b, h) {
      BlockAt(parts, b, h);
      assert IsMember(ids, homo, b, StartOf(parts, b) + h, h);
    }
  }

  // -------------------------------------------------------------------------- end to end

  /** A split list that fits the vendor blocks, with small remainders. */
  ghost predicate FittingSplit(sizes: seq<nat>, split: Option<seq<int>>) {
    split.Some? ==>
      && |split.value| == |sizes|
      && forall c :: 0 <= c < |sizes| ==>
           1 <= split.value[c] <= sizes[c] && sizes[c] % split.value[c] <= sizes[c] / split.value[c]
  }

  /** The parts all ranks together form. */
  ghost function PartsOf(sizes: seq<nat>, split: Option<seq<int>>): seq<nat>
    requires FittingSplit(sizes, split)
  {
    if Sum(sizes) == 1 || split.None? then sizes else AllParts(sizes, split.value)
  }

  lemma SingleRank(sizes: seq<nat>)
    requires Sum(sizes) == 1 && forall c :: 0 <= c < |sizes| ==> sizes[c] > 0
    ensures sizes == [1]
  {
    assert sizes != [];
    LastBlock(sizes);
    BlockAt(sizes, 0, 0);
    assert sizes[..0] == [];
  }

  lemma FittingIsValid(vendors: seq<nat>, sizes: seq<nat>, split: Option<seq<int>>)
    requires Contiguous(vendors, sizes) && FittingSplit(sizes, split)
    ensures SplitAccepted(vendors, split)
  {
    if split.Some? {
      hide Order, Count, Contiguous, Block;
      assert |vendors| > 0 by { ContiguousFacts(vendors, sizes); }
      ScanOfBlocks(vendors, sizes, 0);
      forall c | 0 <= c < |sizes| ensures Count(vendors, Order(vendors)[c]) == sizes[c] {
        ContiguousFacts(vendors, sizes);
        BlockAt(sizes, c, 0);
        var r := Sum(sizes[..c]);
        ScanOfBlocks(vendors, sizes, r);
      }
    }
  }

  lemma ContiguousFacts(vendors: seq<nat>, sizes: seq<nat>)
    requires Contiguous(vendors, sizes)
    ensures vendors != [] && Sum(sizes) == |vendors| && forall c :: 0 <= c < |sizes| ==> sizes[c] > 0
  {}

  /** What every rank works out is its place in one division of the ranks into non-empty parts. */
  lemma NumbersAreParts(vendors: seq<nat>, sizes: seq<nat>, split: Option<seq<int>>, r: nat)
    requires Contiguous(vendors, sizes) && FittingSplit(sizes, split) && r < |vendors|
    ensures SplitAccepted(vendors, split) && Sum(PartsOf(sizes, split)) == |vendors|
    ensures Numbers(vendors, r, split) == InfoOf(PartsOf(sizes, split), r)
  {
    hide Contiguous, Order, Count, First, SplitInfo, Position, FittingSplit, Sum, Block, AllParts;
    FittingIsValid(vendors, sizes, split);
    ContiguousFacts(vendors, sizes);
    if |vendors| == 1 {
      SingleRank(sizes);
      assert Block(sizes, 0) == (0, 0) by { BlockAt(sizes, 0, 0); assert sizes[..0] == []; }
    } else if split.None? {
      CollectOfBlocks(vendors, sizes, r);
    } else {
      FittingIsOk(sizes, split);
      CollectOfParts(vendors, sizes, split.value, r);
    }
  }

  lemma FittingIsOk(sizes: seq<nat>, split: Option<seq<int>>)
    requires FittingSplit(sizes, split) && split.Some?
    ensures forall c :: 0 <= c < |split.value| ==> split.value[c] >= 0
    ensures SplitsOk(sizes, split.value) && SmallRemainders(sizes, split.value)
  {}

  lemma {:induction false} PartsPositive(sizes: seq<nat>, splits: seq<nat>)
    requires SplitsOk(sizes, splits)
    ensures forall b :: 0 <= b < |AllParts(sizes, splits)| ==> AllParts(sizes, splits)[b] > 0
    decreases |sizes|
  {
    if sizes != [] {
      var n := |sizes| - 1;
      PartsPositive(sizes[..n], splits[..n]);
      PositiveQuotient(sizes[n], splits[n]);
    }
  }

  lemma PartsOfPositive(vendors: seq<nat>, sizes: seq<nat>, split: Option<seq<int>>)
    requires Contiguous(vendors, sizes) && FittingSplit(sizes, split)
    ensures forall b :: 0 <= b < |PartsOf(sizes, split)| ==> PartsOf(sizes, split)[b] > 0
  {
    ContiguousFacts(vendors, sizes);
    if Sum(sizes) != 1 && split.Some? { PartsPositive(sizes, split.value); }
  }

  /** The gathered numbers are a division. */
  lemma GatheredIsDivided(vendors: seq<nat>, sizes: seq<nat>, split: Option<seq<int>>, infos: seq<ClusterInfo>,
                          ids: seq<nat>, homo: seq<int>)
    requires Contiguous(vendors, sizes) && FittingSplit(sizes, split) && SplitAccepted(vendors, split)
    requires |infos| == |ids| == |homo| == |vendors|
    requires forall r :: 0 <= r < |infos| ==>
      infos[r] == Numbers(vendors, r, split) && ids[r] == infos[r].clusterId && homo[r] == infos[r].homoRank
    ensures var parts := PartsOf(sizes, split);
      && Divided(ids, homo, parts)
      && forall r :: 0 <= r < |infos| ==> ids[r] < |parts| && infos[r].nclusters == |parts| && infos[r].homoRanks == parts[ids[r]]
  {
    hide Contiguous, FittingSplit, Numbers, PartsOf, Block, Sum;
    var parts := PartsOf(sizes, split);
    PartsOfPositive(vendors, sizes, split);
    assert vendors != [] by { ContiguousFacts(vendors, sizes); }
    NumbersAreParts(vendors, sizes, split, 0);
    forall r | 0 <= r < |infos|
      ensures (ids[r], homo[r]) == Block(parts, r) && infos[r].nclusters == |parts| && infos[r].homoRanks == parts[ids[r]]
    {
      NumbersAreParts(vendors, sizes, split, r);
    }
    NoParts();
  }

  /** The tables of one rank from the vendors of all: every rank collects its numbers, they are
      gathered, and the rank builds the cluster sizes and the members of its own cluster. For vendors
      in consecutive blocks and a fitting split this succeeds on every rank: the sizes are those of
      the parts and sum to the number of ranks, and the members are the consecutive ranks of the part. */
  method InitTables(vendors: seq<nat>, rank: nat, split: Option<seq<int>>, ghost blocks: seq<nat>)
    returns (st: Status, sizes: array<nat>, list: array<int>)
    requires rank < |vendors| && Contiguous(vendors, blocks) && FittingSplit(blocks, split)
    ensures st == Success && Sum(sizes[..]) == |vendors| && sizes[..] == PartsOf(blocks, split)
    ensures Sum(PartsOf(blocks, split)) == |vendors|
    ensures var (b, h) := Block(PartsOf(blocks, split), rank);
      && list.Length == PartsOf(blocks, split)[b]
      && forall k :: 0 <= k < list.Length ==> list[k] == rank - h + k
  {
    hide Contiguous, FittingSplit, Numbers, PartsOf, Block, Sum, Divided;
    FittingIsValid(vendors, blocks, split);
    var ids: seq<nat>, homo: seq<int>, infos: seq<ClusterInfo> := [], [], [];
    while |infos| < |vendors|
      invariant |infos| == |ids| == |homo| <= |vendors|
      invariant forall r :: 0 <= r < |infos| ==>
        infos[r] == Numbers(vendors, r, split) && ids[r] == infos[r].clusterId && homo[r] == infos[r].homoRank
      decreases |vendors| - |infos|
    {
      var r := |infos|;
      var info;
      st, info := Collect(vendors, r, split);
      NumbersAreParts(vendors, blocks, split, r);
      ids, homo, infos := ids + [info.clusterId], homo + [info.homoRank], infos + [info];
    }
    ghost var parts := PartsOf(blocks, split);
    GatheredIsDivided(vendors, blocks, split, infos, ids, homo);
    sizes := ClusterSizes(ids, homo, infos[rank].nclusters, parts);
    st, list := BuildHomoRankList(ids, homo, ids[rank], infos[rank].homoRanks);
    MembersOfPart(ids, homo, parts, rank);
  }

  /** The member of a part with a given cluster rank is the rank that far from its start. */
  lemma MembersOfPart(ids: seq<nat>, homo: seq<int>, parts: seq<nat>, rank: nat)
    requires Divided(ids, homo, parts) && rank < |ids|
    ensures (ids[rank], homo[rank]) == Block(parts, rank)
    ensures var b := ids[rank];
      && b < |parts|
      && (forall r :: 0 <= r < |ids| && ids[r] == b ==> 0 <= homo[r] < parts[b])
      && (forall r, t :: 0 <= r < t < |ids| && ids[r] == b && ids[t] == b ==> homo[r] != homo[t])
      && (forall h :: 0 <= h < parts[b] ==> HasMember(ids, homo, b, h))
      && (forall r, h :: IsMember(ids, homo, b, r, h) ==> r == rank - homo[rank] + h)
  {
    assert (ids[rank], homo[rank]) == Block(parts, rank);
    ListSucceeds(ids, homo, parts, ids[rank]);
    forall r, h | IsMember(ids, homo, ids[rank], r, h) ensures r == rank - homo[rank] + h {
      BlockStart(parts, r);
      BlockStart(parts, rank);
    }
  }
}
