/**
 The machine's bit operations on unsigned words, as functions on natural numbers: bit k of a
 number is what Bit(x, k) says, and every operation is characterised bit by bit.
 */
module Bits {
  import opened Types

  function Pow2(k: nat): (r: nat)
    ensures r >= 1
  {
    if k == 0 then 1 else 2 * Pow2(k - 1)
  }

  predicate Bit(x: nat, k: nat) {
    if k == 0 then x % 2 == 1 else Bit(x / 2, k - 1)
  }

  function And(x: nat, y: nat): (r: nat)
    ensures r <= x && r <= y
  {
    if x == 0 || y == 0 then 0
    else 2 * And(x / 2, y / 2) + (if x % 2 == 1 && y % 2 == 1 then 1 else 0)
  }

  function Or(x: nat, y: nat): (r: nat)
    decreases x + y
  {
    if x == 0 then y else if y == 0 then x
    else 2 * Or(x / 2, y / 2) + (if x % 2 == 1 || y % 2 == 1 then 1 else 0)
  }

  function Xor(x: nat, y: nat): (r: nat)
    decreases x + y
  {
    if x == 0 then y else if y == 0 then x
    else 2 * Xor(x / 2, y / 2) + (if x % 2 != y % 2 then 1 else 0)
  }

  function Shr(x: nat, s: nat): nat {
    if s == 0 then x else Shr(x / 2, s - 1)
  }

  function Shl(x: nat, s: nat): nat {
    if s == 0 then x else 2 * Shl(x, s - 1)
  }

  predicate IsPow2(n: nat) {
    exists k: nat :: k <= n && n == Pow2(k)
  }

  // ---- Each operation, bit by bit ----

  lemma {:induction false} BitZero(k: nat)
    ensures !Bit(0, k)
  {
    if k > 0 { BitZero(k - 1); }
  }

  lemma Halves(half: nat, bit: nat)
    requires bit < 2
    ensures (2 * half + bit) / 2 == half && (2 * half + bit) % 2 == bit
  {}

  lemma AndHalves(x: nat, y: nat)
    requires x > 0 && y > 0
    ensures And(x, y) / 2 == And(x / 2, y / 2) && (And(x, y) % 2 == 1 <==> x % 2 == 1 && y % 2 == 1)
  {
    Halves(And(x / 2, y / 2), if x % 2 == 1 && y % 2 == 1 then 1 else 0);
  }

  lemma OrHalves(x: nat, y: nat)
    requires x > 0 && y > 0
    ensures Or(x, y) / 2 == Or(x / 2, y / 2) && (Or(x, y) % 2 == 1 <==> x % 2 == 1 || y % 2 == 1)
  {
    Halves(Or(x / 2, y / 2), if x % 2 == 1 || y % 2 == 1 then 1 else 0);
  }

  lemma XorHalves(x: nat, y: nat)
    requires x > 0 && y > 0
    ensures Xor(x, y) / 2 == Xor(x / 2, y / 2) && (Xor(x, y) % 2 == 1 <==> x % 2 != y % 2)
  {
    Halves(Xor(x / 2, y / 2), if x % 2 != y % 2 then 1 else 0);
  }

  lemma {:induction false} BitAnd(x: nat, y: nat, k: nat)
    ensures Bit(And(x, y), k) <==> Bit(x, k) && Bit(y, k)
  {
    if x == 0 || y == 0 {
      BitZero(k);
    } else {
      AndHalves(x, y);
      hide And;
      if k > 0 {
        BitAnd(x / 2, y / 2, k - 1);
      }
    }
  }

  lemma {:induction false} BitOr(x: nat, y: nat, k: nat)
    ensures Bit(Or(x, y), k) <==> Bit(x, k) || Bit(y, k)
  {
    if x == 0 || y == 0 {
      BitZero(k);
    } else {
      OrHalves(x, y);
      hide Or;
      if k > 0 {
        BitOr(x / 2, y / 2, k - 1);
      }
    }
  }

  lemma {:induction false} BitXor(x: nat, y: nat, k: nat)
    ensures Bit(Xor(x, y), k) <==> Bit(x, k) != Bit(y, k)
  {
    if x == 0 || y == 0 {
      BitZero(k);
    } else {
      XorHalves(x, y);
      hide Xor;
      if k > 0 {
        BitXor(x / 2, y / 2, k - 1);
      }
    }
  }

  lemma {:induction false} BitShr(x: nat, s: nat, k: nat)
    ensures Bit(Shr(x, s), k) == Bit(x, k + s)
  {
    if s > 0 { BitShr(x / 2, s - 1, k); }
  }

  lemma {:induction false} BitShl(x: nat, s: nat, k: nat)
    ensures Bit(Shl(x, s), k) <==> k >= s && Bit(x, k - s)
    decreases s
  {
    if s > 0 {
      if k > 0 {
        assert Shl(x, s) / 2 == Shl(x, s - 1);
        BitShl(x, s - 1, k - 1);
      }
    }
  }

  /** A number below 2^n has no bit at n or above... */
  lemma {:induction false} HighBitClear(x: nat, n: nat, k: nat)
    requires x < Pow2(n) && k >= n
    ensures !Bit(x, k)
  {
    if n == 0 {
      BitZero(k);
    } else {
      HighBitClear(x / 2, n - 1, k - 1);
    }
  }

  /** ...and a number that is not below 2^n has one. */
  lemma {:induction false} HighBitSet(x: nat, n: nat) returns (k: nat)
    requires x >= Pow2(n)
    ensures k >= n && Bit(x, k)
  {
    if n == 0 {
      HasBit(x);
      k :| Bit(x, k);
    } else {
      k := HighBitSet(x / 2, n - 1);
      k := k + 1;
    }
  }

  lemma {:induction false} HasBit(x: nat)
    requires x > 0
    ensures exists k: nat :: Bit(x, k)
  {
    if x % 2 == 1 {
      assert Bit(x, 0);
    } else {
      HasBit(x / 2);
      var k: nat :| Bit(x / 2, k);
      assert Bit(x, k + 1);
    }
  }

  /** Numbers with the same bits are equal. */
  lemma {:induction false} SameBits(x: nat, y: nat)
    requires forall k: nat :: Bit(x, k) == Bit(y, k)
    ensures x == y
    decreases x + y
  {
    assert Bit(x, 0) == Bit(y, 0);
    if x > 0 || y > 0 {
      forall k: nat ensures Bit(x / 2, k) == Bit(y / 2, k) {
        assert Bit(x, k + 1) == Bit(y, k + 1);
      }
      SameBits(x / 2, y / 2);
    }
  }

  // ---- Masks, words and powers of two ----

  lemma {:induction false} Pow2Sum(a: nat, b: nat)
    ensures Pow2(a + b) == Pow2(a) * Pow2(b)
  {
    if b > 0 {
      Pow2Sum(a, b - 1);
      assert Pow2(a + b) == 2 * Pow2(a + b - 1);
      assert Pow2(b) == 2 * Pow2(b - 1);
      assert Pow2(a) * (2 * Pow2(b - 1)) == 2 * (Pow2(a) * Pow2(b - 1));
    } else {
      assert Pow2(a) * 1 == Pow2(a);
    }
  }

  lemma DoublePow2(n: nat)
    requires IsPow2(n)
    ensures n >= 1 && IsPow2(2 * n)
  {
    var k: nat :| k <= n && n == Pow2(k);
    assert Pow2(k + 1) == 2 * n;
  }

  lemma {:induction false} Pow2Monotone(a: nat, b: nat)
    requires a <= b
    ensures Pow2(a) <= Pow2(b)
    decreases b
  {
    if a < b { Pow2Monotone(a, b - 1); }
  }

  lemma Pow2Is16()
    ensures Pow2(16) == 65536
  {
    assert Pow2(8) == 256;
    Pow2Sum(8, 8);
  }

  lemma Pow2Is64()
    ensures Pow2(64) == U64
  {
    Pow2Is16();
    Pow2Sum(16, 16);
    Pow2Sum(32, 32);
  }

  lemma MulAtLeast(d: int, m: int)
    requires d > 0
    ensures m >= 1 ==> d * m >= d
    ensures m <= -1 ==> d * m <= -d
  {
    if m >= 1 {
      assert d * (m - 1) >= 0;
    } else {
      assert d * -m >= 0;
      if m <= -1 { assert d * (-m - 1) >= 0; }
    }
  }

  lemma DivModUnique(x: int, d: int, q: int, r: int)
    requires d > 0 && 0 <= r < d && x == d * q + r
    ensures x / d == q && x % d == r
  {
    var m := x / d - q;
    assert d * m == d * (x / d) - d * q == r - x % d;
    MulAtLeast(d, m);
  }

  /** The remainder, as a function: it keeps the solver away from division by a variable. */
  function Residue(x: nat, n: nat): (r: nat)
    requires n > 0
    ensures r < n
  {
    x % n
  }

  lemma HalfMod(x: nat, p: nat)
    requires p > 0
    ensures Residue(x, 2 * p) == 2 * Residue(x / 2, p) + x % 2
  {
    var q, r := (x / 2) / p, (x / 2) % p;
    assert (2 * p) * q == 2 * (p * q);
    DivModUnique(x, 2 * p, q, 2 * r + x % 2);
  }

  lemma SmallResidues(x: nat, n: nat)
    requires n > 0
    ensures Residue(x, 1) == 0 && Residue(0, n) == 0
  {
    DivModUnique(x, 1, x, 0);
    DivModUnique(0, n, 0, 0);
  }

  lemma {:induction false} MaskIsResidue(x: nat, k: nat)
    ensures And(x, Pow2(k) - 1) == Residue(x, Pow2(k))
    decreases k, x
  {
    hide Residue;
    hide And;
    SmallResidues(x, Pow2(k));
    if k == 0 || x == 0 {
      MaskOfNothing(x, Pow2(k) - 1);
    } else {
      MaskIsResidue(x / 2, k - 1);
      HalfMod(x, Pow2(k - 1));
      AndOddMask(x, Pow2(k - 1) - 1);
    }
  }

  lemma MaskOfNothing(x: nat, m: nat)
    requires x == 0 || m == 0
    ensures And(x, m) == 0
  {}

  /** Masking with 2^k - 1 is reduction modulo 2^k: what every `& (Capacity - 1)` in the source relies on. */
  lemma MaskIsMod(x: nat, k: nat)
    ensures And(x, Pow2(k) - 1) == x % Pow2(k)
  {
    MaskIsResidue(x, k);
    hide Pow2;
    hide And;
  }

  lemma AndOddMask(x: nat, m: nat)
    requires x > 0
    ensures And(x, 2 * m + 1) == 2 * And(x / 2, m) + x % 2
  {}

  lemma MaskPow2(x: nat, n: nat)
    requires IsPow2(n)
    ensures n >= 1 && And(x, n - 1) == x % n
  {
    var k: nat :| k <= n && n == Pow2(k);
    MaskIsMod(x, k);
  }

  /** Reducing first modulo d*m and then modulo d is reducing modulo d. */
  lemma ModMod(x: int, d: int, m: int)
    requires d > 0 && m > 0
    ensures d * m > 0 && (x % (d * m)) % d == x % d
  {
    assert d * m > 0;
    var q, r := x / (d * m), x % (d * m);
    assert x == (d * m) * q + r;
    var q2, r2 := r / d, r % d;
    assert r == d * q2 + r2;
    assert (d * m) * q == d * (m * q);
    assert x == d * (m * q + q2) + r2 by {
      assert d * (m * q + q2) == d * (m * q) + d * q2;
    }
    DivModUnique(x, d, m * q + q2, r2);
  }

  /** Wrapping a counter at 2^64 does not change where it points in a power-of-two buffer. */
  lemma WrapThenMask(x: int, n: nat)
    requires IsPow2(n) && n <= U64
    ensures n >= 1 && And(x % U64, n - 1) == x % n
  {
    MaskPow2(x % U64, n);
    var k: nat :| k <= n && n == Pow2(k);
    Pow2Is64();
    assert Pow2(65) == 2 * U64;
    if k > 64 {
      Pow2Monotone(65, k);
    }
    Pow2Sum(k, 64 - k);
    ModMod(x, n, Pow2(64 - k));
  }

  // ---- Computing with numerals ----

  function Differ(a: nat, b: nat): nat { if a == b then 0 else 1 }

  lemma XorBit(p: nat, a: nat, q: nat, b: nat)
    requires a < 2 && b < 2
    ensures Xor(2 * p + a, 2 * q + b) == 2 * Xor(p, q) + Differ(a, b)
  {
    Halves(p, a);
    Halves(q, b);
  }

  /** An exclusive or, extended by the four bits of one hexadecimal digit. */
  lemma XorDigit(p: nat, a3: nat, a2: nat, a1: nat, a0: nat, q: nat, b3: nat, b2: nat, b1: nat, b0: nat, xor: nat)
    requires a3 < 2 && a2 < 2 && a1 < 2 && a0 < 2 && b3 < 2 && b2 < 2 && b1 < 2 && b0 < 2
    requires Xor(p, q) == xor
    ensures Xor(16 * p + 8 * a3 + 4 * a2 + 2 * a1 + a0, 16 * q + 8 * b3 + 4 * b2 + 2 * b1 + b0)
            == 16 * xor + 8 * Differ(a3, b3) + 4 * Differ(a2, b2) + 2 * Differ(a1, b1) + Differ(a0, b0)
  {
    hide Xor;
    hide Differ;
    var p3, q3 := 2 * p + a3, 2 * q + b3;
    var p2, q2 := 2 * p3 + a2, 2 * q3 + b2;
    var p1, q1 := 2 * p2 + a1, 2 * q2 + b1;
    XorBit(p, a3, q, b3);
    XorBit(p3, a2, q3, b2);
    XorBit(p2, a1, q2, b1);
    XorBit(p1, a0, q1, b0);
  }

  /** Shifting to the right divides by a power of two. */
  lemma {:induction false} ShrIsDiv(x: nat, s: nat, q: nat, r: nat)
    requires x == q * Pow2(s) + r && r < Pow2(s)
    ensures Shr(x, s) == q
  {
    if s > 0 {
      var p := Pow2(s - 1);
      assert q * (2 * p) == 2 * (q * p);
      ShrIsDiv(x / 2, s - 1, q, r / 2);
    }
  }

  lemma Pow2Is32()
    ensures Pow2(32) == 0x1_0000_0000 && Pow2(33) == 0x2_0000_0000
  {
    Pow2Is16();
    Pow2Sum(16, 16);
  }
}
