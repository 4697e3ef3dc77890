// The ring indices of the RMA proxy: 32-bit words that wrap (flagcx/core/flagcx_hetero.cc).

module RmaIndex {
  import opened Results

  const WRAP: nat := UINT32_MAX + 1

  /** The difference of two wrapped indices is right while it is below 2^32. */
  lemma WrappedDistance(consumed: nat, n: nat)
    requires n < WRAP
    ensures ((consumed + n) % WRAP - consumed % WRAP) % WRAP == n
  {
    var d := (consumed + n) % WRAP - consumed % WRAP;
    assert d == n || d == n - WRAP;
  }

  lemma NextIndex(i: nat, n: nat)
    ensures (i % WRAP + n) % WRAP == (i + n) % WRAP
  {}

  /** flagcxRmaProxyCircularBufEmpty. */
  predicate EmptyTest(ci: int, pi: int) { ci >= pi }

  /** No wrap lies between the two indices of a ring with n entries. */
  predicate SameLap(consumed: int, n: int) { consumed / WRAP == (consumed + n) / WRAP }

  lemma FirstLap(consumed: nat, n: nat)
    requires consumed + n < WRAP
    ensures SameLap(consumed, n)
  {}

  /** The empty test compares the wrapped indices without wrapping: it answers "empty" exactly when
      the ring is empty or a wrap lies between its indices. So it is right exactly when the ring is empty
      or no wrap does. */
  lemma EmptyTestExact(consumed: nat, n: nat)
    requires n <= UINT32_MAX / 2
    ensures EmptyTest(consumed % WRAP, (consumed + n) % WRAP) <==> n == 0 || !SameLap(consumed, n)
    ensures (EmptyTest(consumed % WRAP, (consumed + n) % WRAP) <==> n == 0) <==> n == 0 || SameLap(consumed, n)
  {
    var a, b := consumed / WRAP, (consumed + n) / WRAP;
    assert b == a || b == a + 1;
  }

  /** The first failure: a descriptor enqueued across the wrap is taken for an empty ring. */
  lemma EmptyTestMissesWrap()
    ensures EmptyTest(UINT32_MAX % WRAP, (UINT32_MAX + 1) % WRAP)
  {}

  /** Consuming puts no wrap between the indices, and producing takes none away. */
  lemma LapsAreOrdered(consumed: nat, n: nat, taken: nat, more: nat)
    requires taken <= n
    ensures SameLap(consumed, n) ==> SameLap(consumed + taken, n - taken)
    ensures !SameLap(consumed, n) ==> !SameLap(consumed, n + more)
  {
    var a, b, c, d := consumed / WRAP, (consumed + taken) / WRAP, (consumed + n) / WRAP, (consumed + n + more) / WRAP;
    assert a <= b <= c <= d;
  }
}
