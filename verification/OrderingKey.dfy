// Ordering keys of collective proxy edges (flagcx/core/coll_proxy_transport.cc): a packed edge, mixed
// by steps that are each undone by another one.

module OrderingKey {

  /** The packed identity of an edge, never zero. */
  function Pack(channel: bv32, src: bv32, dst: bv32): bv64 {
    ((channel & 0x1f) as bv64 << 49) | ((src & 0xff_ffff) as bv64 << 25) | ((dst & 0xff_ffff) as bv64 << 1) | 1
  }

  function Shift30(x: bv64): bv64 { x ^ (x >> 30) }
  function Shift27(x: bv64): bv64 { x ^ (x >> 27) }
  function Shift31(x: bv64): bv64 { x ^ (x >> 31) }
  function Times1(x: bv64): bv64 { x * 0xbf58_476d_1ce4_e5b9 }
  function Times2(x: bv64): bv64 { x * 0x94d0_49bb_1331_11eb }
  function Mix(x: bv64): bv64 { Shift31(Times2(Shift27(Times1(Shift30(x))))) }

  // Every step has an inverse; the multipliers are odd, so they have one modulo 2^64.
  function Unshift30(y: bv64): bv64 { y ^ (y >> 30) ^ (y >> 60) }
  function Unshift27(y: bv64): bv64 { y ^ (y >> 27) ^ (y >> 54) }
  function Unshift31(y: bv64): bv64 { y ^ (y >> 31) ^ (y >> 62) }
  function Untimes1(y: bv64): bv64 { y * 0x96de_1b17_3f11_9089 }
  function Untimes2(y: bv64): bv64 { y * 0x3196_42b2_d24d_8ec3 }
  function Unmix(y: bv64): bv64 { Unshift30(Untimes1(Unshift27(Untimes2(Unshift31(y))))) }

  lemma UndoRawShift(x: bv64)
    ensures Unshift30(x ^ (x >> 30)) == x && Unshift27(x ^ (x >> 27)) == x && Unshift31(x ^ (x >> 31)) == x
  {}

  lemma RedoRawShift(y: bv64)
    ensures Shift30(y ^ (y >> 30) ^ (y >> 60)) == y
    ensures Shift27(y ^ (y >> 27) ^ (y >> 54)) == y
    ensures Shift31(y ^ (y >> 31) ^ (y >> 62)) == y
  {}

  lemma UndoRawTimes(x: bv64)
    ensures Untimes1(x * 0xbf58_476d_1ce4_e5b9) == x && Untimes2(x * 0x94d0_49bb_1331_11eb) == x
  {}

  lemma RedoRawTimes(y: bv64)
    ensures Times1(y * 0x96de_1b17_3f11_9089) == y && Times2(y * 0x3196_42b2_d24d_8ec3) == y
  {}

  lemma UndoShift(x: bv64)
    ensures Unshift30(Shift30(x)) == x && Unshift27(Shift27(x)) == x && Unshift31(Shift31(x)) == x
  {
    hide Unshift30, Unshift27, Unshift31;
    UndoRawShift(x);
  }

  lemma RedoShift(y: bv64)
    ensures Shift30(Unshift30(y)) == y && Shift27(Unshift27(y)) == y && Shift31(Unshift31(y)) == y
  {
    hide Shift30, Shift27, Shift31;
    RedoRawShift(y);
  }

  lemma UndoTimes(x: bv64)
    ensures Untimes1(Times1(x)) == x && Untimes2(Times2(x)) == x
  {
    hide Untimes1, Untimes2;
    UndoRawTimes(x);
  }

  lemma RedoTimes(y: bv64)
    ensures Times1(Untimes1(y)) == y && Times2(Untimes2(y)) == y
  {
    hide Times1, Times2;
    RedoRawTimes(y);
  }

  /** The mixing is a bijection on 64-bit words. */
  lemma MixIsBijection(x: bv64)
    ensures Unmix(Mix(x)) == x && Mix(Unmix(x)) == x
  {
    hide Shift30, Shift27, Shift31, Unshift30, Unshift27, Unshift31, Times1, Times2, Untimes1, Untimes2;
    UndoShift(x);
    UndoTimes(Shift30(x));
    UndoShift(Times1(Shift30(x)));
    UndoTimes(Shift27(Times1(Shift30(x))));
    UndoShift(Times2(Shift27(Times1(Shift30(x)))));
    RedoShift(x);
    RedoTimes(Unshift31(x));
    RedoShift(Untimes2(Unshift31(x)));
    RedoTimes(Unshift27(Untimes2(Unshift31(x))));
    RedoShift(Untimes1(Unshift27(Untimes2(Unshift31(x)))));
  }

  lemma MixNotZero(x: bv64)
    requires x != 0
    ensures Mix(x) != 0
  {
    MixIsBijection(x);
    MixIsBijection(0);
    assert Mix(0) == 0 by { MixOfZero(); }
    hide Mix, Unmix;
  }

  lemma MixOfZero()
    ensures Mix(0) == 0
  {}

  lemma PackNotZero(channel: bv32, src: bv32, dst: bv32)
    ensures Pack(channel, src, dst) != 0
  {}

  lemma PackIsInjective(c1: bv32, s1: bv32, d1: bv32, c2: bv32, s2: bv32, d2: bv32)
    requires Pack(c1, s1, d1) == Pack(c2, s2, d2)
    ensures c1 & 0x1f == c2 & 0x1f && s1 & 0xff_ffff == s2 & 0xff_ffff && d1 & 0xff_ffff == d2 & 0xff_ffff
  {}

  /** Two edges share a key exactly when they agree in the low five bits of the channel and the
      low 24 bits of both ranks. */
  lemma KeysCollideExactly(c1: bv32, s1: bv32, d1: bv32, c2: bv32, s2: bv32, d2: bv32)
    ensures Mix(Pack(c1, s1, d1)) == Mix(Pack(c2, s2, d2)) <==>
      c1 & 0x1f == c2 & 0x1f && s1 & 0xff_ffff == s2 & 0xff_ffff && d1 & 0xff_ffff == d2 & 0xff_ffff
  {
    MixIsBijection(Pack(c1, s1, d1));
    MixIsBijection(Pack(c2, s2, d2));
    hide Mix, Unmix;
    if Pack(c1, s1, d1) == Pack(c2, s2, d2) { PackIsInjective(c1, s1, d1, c2, s2, d2); }
  }

  /** flagcxCollProxyOrderingKey, one statement a step. The edge can be read back from the key, and the
      key is never zero, so the final fallback is never taken. */
  method OrderingKey(channel: bv32, src: bv32, dst: bv32) returns (key: bv64)
    ensures Unmix(key) == Pack(channel, src, dst) && key == Mix(Pack(channel, src, dst)) && key != 0
  {
    var packed := Pack(channel, src, dst);
    PackNotZero(channel, src, dst);
    MixNotZero(packed);
    MixIsBijection(packed);
    hide Pack, Unmix, Shift30, Shift27, Shift31, Times1, Times2;
    var value := Shift30(packed);
    value := Times1(value);
    value := Shift27(value);
    value := Times2(value);
    value := Shift31(value);
    key := if value == 0 then 1 else value;
  }
}
