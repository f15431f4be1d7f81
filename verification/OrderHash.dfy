/**
 The two order-id hash policies, and the reason distinct ids collide only through the table's
 mask: each policy is a permutation of the 64-bit words.
 */
module OrderHash {
  import opened Types
  import opened Bits

  function WordXor(x: u64, y: u64): u64 {
    Pow2Is64();
    XorBelow(x, y, 64);
    Xor(x, y)
  }

  function WordShr(x: u64, s: nat): u64 {
    ShrSmaller(x, s);
    Shr(x, s)
  }

  function WordMul(x: u64, m: u64): u64 { (x * m) % U64 }

  function XorShift(x: u64, s: nat): u64 { WordXor(x, WordShr(x, s)) }

  const MIX1: u64 := 0xff51_afd7_ed55_8ccd
  const MIX2: u64 := 0xc4ce_b9fe_1a85_ec53
  // Their inverses modulo 2^64.
  const MIX1_INVERSE: u64 := 0x4f74_430c_22a5_4005
  const MIX2_INVERSE: u64 := 0x9cb4_b2f8_1293_37db

  function FastOrderIdHash(x: OrderId): u64 { XorShift(x, 32) }

  /** A xor-shift by 33 before, between and after two multiplications. */
  function Mix(x: u64, p: u64, q: u64): u64 {
    var x := XorShift(x, 33);
    var x := WordMul(x, p);
    var x := XorShift(x, 33);
    var x := WordMul(x, q);
    XorShift(x, 33)
  }

  function RobustOrderIdHash(x: OrderId): u64 { Mix(x, MIX1, MIX2) }

  function RobustInverse(y: u64): OrderId { Mix(y, MIX2_INVERSE, MIX1_INVERSE) }

  lemma XorBelow(x: nat, y: nat, n: nat)
    requires x < Pow2(n) && y < Pow2(n)
    ensures Xor(x, y) < Pow2(n)
  {
    if Xor(x, y) >= Pow2(n) {
      var k := HighBitSet(Xor(x, y), n);
      BitXor(x, y, k);
      HighBitClear(x, n, k);
      HighBitClear(y, n, k);
    }
  }

  lemma {:induction false} ShrSmaller(x: nat, s: nat)
    ensures Shr(x, s) <= x
  {
    if s > 0 { ShrSmaller(x / 2, s - 1); }
  }

  /** A xor-shift by at least half the word undoes itself. */
  lemma XorShiftInvolution(x: u64, s: nat)
    requires s >= 32
    ensures XorShift(XorShift(x, s), s) == x
  {
    var y := XorShift(x, s);
    forall k: nat ensures Bit(XorShift(y, s), k) == Bit(x, k) {
      BitXor(y, Shr(y, s), k);
      BitShr(y, s, k);
      BitXor(x, Shr(x, s), k);
      BitXor(x, Shr(x, s), k + s);
      BitShr(x, s, k);
      BitShr(x, s, k + s);
      Pow2Is64();
      HighBitClear(x, 64, k + s + s);
    }
    SameBits(XorShift(y, s), x);
  }

  /** Multiplying by m undoes multiplying by its inverse modulo 2^64. */
  lemma MulInverse(x: u64, m: u64, i: u64)
    requires (m * i) % U64 == 1
    ensures WordMul(WordMul(x, m), i) == x
  {
    var q1, r1 := (x * m) / U64, (x * m) % U64;
    var q2 := (m * i) / U64;
    assert m * i == U64 * q2 + 1;
    assert r1 == x * m - U64 * q1;
    assert r1 * i == x * (m * i) - U64 * (q1 * i) by {
      assert (x * m) * i == x * (m * i);
      assert (U64 * q1) * i == U64 * (q1 * i);
      assert (x * m - U64 * q1) * i == (x * m) * i - (U64 * q1) * i;
    }
    assert x * (m * i) == U64 * (x * q2) + x;
    DivModUnique(r1 * i, U64, x * q2 - q1 * i, x);
  }

  lemma FastHashIsPermutation(x: OrderId)
    ensures FastOrderIdHash(FastOrderIdHash(x)) == x
  {
    XorShiftInvolution(x, 32);
  }

  lemma RobustHashIsPermutation(x: OrderId)
    ensures RobustInverse(RobustOrderIdHash(x)) == x
    ensures RobustOrderIdHash(RobustInverse(x)) == x
  {
    hide XorShift;
    hide WordMul;
    assert (MIX1 * MIX1_INVERSE) % U64 == 1 && (MIX2 * MIX2_INVERSE) % U64 == 1;
    MixUndone(x, MIX1, MIX1_INVERSE, MIX2, MIX2_INVERSE);
    MixUndone(x, MIX2_INVERSE, MIX2, MIX1_INVERSE, MIX1);
  }

  /** Three xor-shifts with a multiplication between each two, by p and q; undone by their inverses p1 and q1. */
  lemma MixUndone(x: u64, p: u64, p1: u64, q: u64, q1: u64)
    requires (p * p1) % U64 == 1 && (q * q1) % U64 == 1
    ensures Mix(Mix(x, p, q), q1, p1) == x
  {
    hide XorShift;
    hide WordMul;
    var a := XorShift(x, 33);
    var b := WordMul(a, p);
    var c := XorShift(b, 33);
    var d := WordMul(c, q);
    XorShiftInvolution(x, 33);
    MulInverse(a, p, p1);
    XorShiftInvolution(b, 33);
    MulInverse(c, q, q1);
    XorShiftInvolution(d, 33);
  }

  // ---- The hash words, bit by bit ----

  lemma XorShiftBit(x: u64, s: nat, k: nat)
    ensures Bit(XorShift(x, s), k) <==> Bit(x, k) != Bit(x, k + s)
  {
    BitXor(x, Shr(x, s), k);
    BitShr(x, s, k);
  }

  /** Each bit of the fast hash is the id's bit, turned over when the bit 32 places up is set. */
  lemma FastHashBits(x: OrderId, k: nat)
    ensures Bit(FastOrderIdHash(x), k) <==> Bit(x, k) != Bit(x, k + 32)
  {
    XorShiftBit(x, 32, k);
  }

  /** Word y is word x with each bit turned over when the bit 33 places up is set. */
  ghost predicate Folded(x: u64, y: u64) { forall k: nat :: Bit(y, k) <==> Bit(x, k) != Bit(x, k + 33) }

  lemma XorShiftFolds(x: u64)
    ensures Folded(x, XorShift(x, 33))
  {
    forall k: nat ensures Bit(XorShift(x, 33), k) <==> Bit(x, k) != Bit(x, k + 33) {
      XorShiftBit(x, 33, k);
    }
  }

  /** Folding leaves no choice. */
  lemma FoldedIsUnique(x: u64, y: u64, z: u64)
    requires Folded(x, y) && Folded(x, z)
    ensures y == z
  {
    forall k: nat ensures Bit(y, k) == Bit(z, k) {
      assert Bit(y, k) <==> Bit(x, k) != Bit(x, k + 33);
    }
    SameBits(y, z);
  }

  /** The robust hash folds, multiplies, folds, multiplies and folds, with the constants of the source. */
  lemma RobustHashWords(x: OrderId) returns (w0: u64, w1: u64, w2: u64, w3: u64, w4: u64)
    ensures forall k: nat :: Bit(w0, k) <==> Bit(x, k) != Bit(x, k + 33)
    ensures w1 == (w0 * 0xff51_afd7_ed55_8ccd) % U64
    ensures forall k: nat :: Bit(w2, k) <==> Bit(w1, k) != Bit(w1, k + 33)
    ensures w3 == (w2 * 0xc4ce_b9fe_1a85_ec53) % U64
    ensures forall k: nat :: Bit(w4, k) <==> Bit(w3, k) != Bit(w3, k + 33)
    ensures RobustOrderIdHash(x) == w4
  {
    w0 := XorShift(x, 33);
    w1 := WordMul(w0, MIX1);
    w2 := XorShift(w1, 33);
    w3 := WordMul(w2, MIX2);
    w4 := XorShift(w3, 33);
    XorShiftFolds(x);
    XorShiftFolds(w1);
    XorShiftFolds(w3);
    hide XorShift;
  }

  /** And that alone decides the word. */
  lemma RobustHashIs(x: OrderId, w0: u64, w1: u64, w2: u64, w3: u64, w4: u64)
    requires Folded(x, w0) && w1 == (w0 * 0xff51_afd7_ed55_8ccd) % U64
    requires Folded(w1, w2) && w3 == (w2 * 0xc4ce_b9fe_1a85_ec53) % U64
    requires Folded(w3, w4)
    ensures RobustOrderIdHash(x) == w4
  {
    var v0, v1, v2, v3, v4 := RobustHashWords(x);
    FoldedIsUnique(x, v0, w0);
    FoldedIsUnique(w1, v2, w2);
    FoldedIsUnique(w3, v4, w4);
    hide Folded;
  }

  /** The xor-shift of a word by 32 or 33, from its upper and lower part. */
  lemma XorShiftIs(x: u64, s: nat, high: nat, low: nat, y: u64)
    requires x == high * Pow2(s) + low && low < Pow2(s) && Xor(x, high) == y
    ensures XorShift(x, s) == y
  {
    ShrIsDiv(x, s, high, low);
    hide Xor;
    hide Shr;
  }

  lemma FirstFoldValue()
    ensures XorShift(0xff51_afd7_ed55_8ccd, 33) == 0xff51_afd7_92fd_5b26
  {
    hide Xor;
    hide XorShift;
    hide Pow2;
    XorRest(0xff51_afd7);
    XorDigit(0xff51_afd7, 1, 1, 1, 0, 0x0, 0, 1, 1, 1, 0xff51_afd7);
    XorDigit(0xf_f51a_fd7e, 1, 1, 0, 1, 0x7, 1, 1, 1, 1, 0xf_f51a_fd79);
    XorDigit(0xff_51af_d7ed, 0, 1, 0, 1, 0x7f, 1, 0, 1, 0, 0xff_51af_d792);
    XorDigit(0xff5_1afd_7ed5, 0, 1, 0, 1, 0x7fa, 1, 0, 0, 0, 0xff5_1afd_792f);
    XorDigit(0xff51_afd7_ed55, 1, 0, 0, 0, 0x7fa8, 1, 1, 0, 1, 0xff51_afd7_92fd);
    XorDigit(0xf_f51a_fd7e_d558, 1, 1, 0, 0, 0x7_fa8d, 0, 1, 1, 1, 0xf_f51a_fd79_2fd5);
    XorDigit(0xff_51af_d7ed_558c, 1, 1, 0, 0, 0x7f_a8d7, 1, 1, 1, 0, 0xff_51af_d792_fd5b);
    XorDigit(0xff5_1afd_7ed5_58cc, 1, 1, 0, 1, 0x7fa_8d7e, 1, 0, 1, 1, 0xff5_1afd_792f_d5b2);
    Pow2Is32();
    XorShiftIs(0xff51_afd7_ed55_8ccd, 33, 0x7fa8_d7eb, 0x1_ed55_8ccd, 0xff51_afd7_92fd_5b26);
  }

  lemma SecondFoldValue()
    ensures XorShift(0xb456_bcfc_6ee9_9552, 33) == 0xb456_bcfc_34c2_cb2c
  {
    hide Xor;
    hide XorShift;
    hide Pow2;
    XorRest(0xb456_bcfc);
    XorDigit(0xb456_bcfc, 0, 1, 1, 0, 0x0, 0, 1, 0, 1, 0xb456_bcfc);
    XorDigit(0xb_456b_cfc6, 1, 1, 1, 0, 0x5, 1, 0, 1, 0, 0xb_456b_cfc3);
    XorDigit(0xb4_56bc_fc6e, 1, 1, 1, 0, 0x5a, 0, 0, 1, 0, 0xb4_56bc_fc34);
    XorDigit(0xb45_6bcf_c6ee, 1, 0, 0, 1, 0x5a2, 1, 0, 1, 1, 0xb45_6bcf_c34c);
    XorDigit(0xb456_bcfc_6ee9, 1, 0, 0, 1, 0x5a2b, 0, 1, 0, 1, 0xb456_bcfc_34c2);
    XorDigit(0xb_456b_cfc6_ee99, 0, 1, 0, 1, 0x5_a2b5, 1, 1, 1, 0, 0xb_456b_cfc3_4c2c);
    XorDigit(0xb4_56bc_fc6e_e995, 0, 1, 0, 1, 0x5a_2b5e, 0, 1, 1, 1, 0xb4_56bc_fc34_c2cb);
    XorDigit(0xb45_6bcf_c6ee_9955, 0, 0, 1, 0, 0x5a2_b5e7, 1, 1, 1, 0, 0xb45_6bcf_c34c_2cb2);
    Pow2Is32();
    XorShiftIs(0xb456_bcfc_6ee9_9552, 33, 0x5a2b_5e7e, 0x6ee9_9552, 0xb456_bcfc_34c2_cb2c);
  }

  lemma XorRest(x: nat)
    ensures Xor(x, 0) == x
  {}

  lemma FastHashValue()
    ensures FastOrderIdHash(0x1_0000_0000) == 0x1_0000_0001
  {
    hide Xor;
    hide XorShift;
    hide Pow2;
    XorRest(0x1000_0000);
    XorDigit(0x1000_0000, 0, 0, 0, 0, 0x0, 0, 0, 0, 1, 0x1000_0000);
    Pow2Is32();
    XorShiftIs(0x1_0000_0000, 32, 1, 0, 0x1_0000_0001);
  }

  lemma RobustHashValue()
    ensures RobustOrderIdHash(1) == 0xb456_bcfc_34c2_cb2c
  {
    assert WordMul(1, MIX1) == 0xff51_afd7_ed55_8ccd;
    assert WordMul(0xff51_afd7_92fd_5b26, MIX2) == 0xb456_bcfc_6ee9_9552;
    hide WordMul;
    hide Xor;
    hide XorShift;
    hide Pow2;
    XorRest(1);
    Pow2Is32();
    XorShiftIs(1, 33, 0, 1, 1);
    FirstFoldValue();
    SecondFoldValue();
  }

  /** Two different ids share a home slot only if their different hash words agree modulo the capacity. */
  lemma CollideOnlyThroughMask(x: OrderId, y: OrderId, capacity: nat)
    requires IsPow2(capacity) && x != y
    ensures FastOrderIdHash(x) != FastOrderIdHash(y)
    ensures RobustOrderIdHash(x) != RobustOrderIdHash(y)
    ensures And(FastOrderIdHash(x), capacity - 1) == And(FastOrderIdHash(y), capacity - 1)
       <==> FastOrderIdHash(x) % capacity == FastOrderIdHash(y) % capacity
    ensures And(RobustOrderIdHash(x), capacity - 1) == And(RobustOrderIdHash(y), capacity - 1)
       <==> RobustOrderIdHash(x) % capacity == RobustOrderIdHash(y) % capacity
  {
    FastHashIsPermutation(x);
    FastHashIsPermutation(y);
    RobustHashIsPermutation(x);
    RobustHashIsPermutation(y);
    MaskPow2(FastOrderIdHash(x), capacity);
    MaskPow2(FastOrderIdHash(y), capacity);
    MaskPow2(RobustOrderIdHash(x), capacity);
    MaskPow2(RobustOrderIdHash(y), capacity);
  }
}
