/**
 The search for the next non-zero word of an array: one word at a time, and a block of 8-lane
 vectors at a time through a bit mask that is assembled 8 bits per vector. The vector instructions
 are specified by what they compute: one mask bit per lane, set when the lane is zero.
 */
module SimdScan {
  import opened Types
  import opened Bits

  const LANES := 8

  /** The first index from start on that holds a non-zero word. */
  function NextNonzero(s: seq<u32>, start: nat): Option<nat>
    decreases |s| - start
  {
    if start >= |s| then None
    else if s[start] != 0 then Some(start)
    else NextNonzero(s, start + 1)
  }

  /** It is the one answer before which, from start on, there are only zeros. */
  lemma {:induction false} NextNonzeroIsFirst(s: seq<u32>, start: nat, r: Option<nat>)
    ensures r == NextNonzero(s, start) <==>
      match r
      case None => forall k :: start <= k < |s| ==> s[k] == 0
      case Some(i) => start <= i < |s| && s[i] != 0 && forall k :: start <= k < i ==> s[k] == 0
    decreases |s| - start
  {
    if start < |s| && s[start] == 0 {
      NextNonzeroIsFirst(s, start + 1, r);
    }
  }

  /** Compare with zero, then movemask: bit k is set when lane k is zero. */
  function ZeroMask(lanes: seq<u32>): nat {
    if lanes == [] then 0 else 2 * ZeroMask(lanes[1..]) + (if lanes[0] == 0 then 1 else 0)
  }

  function CountrOne(x: nat): nat {
    if x % 2 == 1 then 1 + CountrOne(x / 2) else 0
  }

  /** `NumBlocks == 8 ? ~uint64_t(0) : (uint64_t(1) << (NumBlocks * lanes)) - 1` */
  function Full(numBlocks: nat): int
    requires 1 <= numBlocks <= 8
  {
    if numBlocks == 8 then U64 - 1 else Shl(1, numBlocks * LANES) - 1
  }

  lemma {:induction false} ZeroMaskBit(lanes: seq<u32>, k: nat)
    ensures Bit(ZeroMask(lanes), k) <==> k < |lanes| && lanes[k] == 0
  {
    if lanes == [] {
      BitZero(k);
    } else {
      Halves(ZeroMask(lanes[1..]), if lanes[0] == 0 then 1 else 0);
      assert ZeroMask(lanes) == 2 * ZeroMask(lanes[1..]) + (if lanes[0] == 0 then 1 else 0);
      hide ZeroMask;
      if k > 0 {
        ZeroMaskBit(lanes[1..], k - 1);
      }
    }
  }

  lemma {:induction false} ZeroMaskBound(lanes: seq<u32>)
    ensures ZeroMask(lanes) < Pow2(|lanes|)
  {
    if lanes != [] { ZeroMaskBound(lanes[1..]); }
  }

  /** Shifting the next vector's mask above the mask so far and or-ing gives the mask of all the lanes. */
  lemma MaskOfBlocks(done: seq<u32>, vec: seq<u32>)
    ensures Or(ZeroMask(done), Shl(ZeroMask(vec), |done|)) == ZeroMask(done + vec)
  {
    forall k: nat
      ensures Bit(Or(ZeroMask(done), Shl(ZeroMask(vec), |done|)), k) == Bit(ZeroMask(done + vec), k)
    {
      BitOr(ZeroMask(done), Shl(ZeroMask(vec), |done|), k);
      BitShl(ZeroMask(vec), |done|, k);
      ZeroMaskBit(done, k);
      ZeroMaskBit(done + vec, k);
      if k >= |done| { ZeroMaskBit(vec, k - |done|); }
    }
    SameBits(Or(ZeroMask(done), Shl(ZeroMask(vec), |done|)), ZeroMask(done + vec));
  }

  lemma {:induction false} ShlBound(x: nat, s: nat, n: nat)
    requires x < Pow2(n)
    ensures Shl(x, s) < Pow2(n + s)
    decreases s
  {
    if s > 0 { ShlBound(x, s - 1, n); }
  }

  /** A vector's mask shifted by less than eight vectors loses no bit of a 64-bit word. */
  lemma ShiftFits(vec: seq<u32>, b: nat)
    requires |vec| == LANES && b < 8
    ensures Shl(ZeroMask(vec), b * LANES) < U64
  {
    ZeroMaskBound(vec);
    ShlBound(ZeroMask(vec), b * LANES, LANES);
    Pow2Monotone(LANES + b * LANES, 64);
    Pow2Is64();
  }

  lemma {:induction false} ShlOne(s: nat)
    ensures Shl(1, s) == Pow2(s)
  {
    if s > 0 { ShlOne(s - 1); }
  }

  lemma FullIsAllOnes(numBlocks: nat)
    requires 1 <= numBlocks <= 8
    ensures Full(numBlocks) == Pow2(numBlocks * LANES) - 1 && Full(1) == 0xFF == Pow2(LANES) - 1
  {
    Pow2Is64();
    ShlOne(numBlocks * LANES);
    ShlOne(LANES);
  }

  /** A full mask skips the block; otherwise the trailing ones count the lanes before the first non-zero. */
  lemma {:induction false} BlockScan(s: seq<u32>, i: nat, len: nat)
    requires i + len <= |s|
    ensures var mask := ZeroMask(s[i..i + len]);
            NextNonzero(s, i) == if mask == Pow2(len) - 1 then NextNonzero(s, i + len) else Some(i + CountrOne(mask))
    decreases len
  {
    if len > 0 {
      BlockScan(s, i + 1, len - 1);
      assert s[i + 1..i + 1 + (len - 1)] == s[i + 1..i + len];
      OneMoreLane(s[i..i + len]);
      assert s[i..i + len][1..] == s[i + 1..i + len];
      hide ZeroMask;
      hide CountrOne;
      hide Pow2;
    }
  }

  /** A leading zero word is one more trailing one in the mask; any other word leaves none. */
  lemma OneMoreLane(lanes: seq<u32>)
    requires lanes != []
    ensures var mask, rest, n := ZeroMask(lanes), ZeroMask(lanes[1..]), |lanes|;
            if lanes[0] == 0 then
              CountrOne(mask) == 1 + CountrOne(rest) && (mask == Pow2(n) - 1 <==> rest == Pow2(n - 1) - 1)
            else
              CountrOne(mask) == 0 && mask != Pow2(n) - 1
  {
    var rest, half := ZeroMask(lanes[1..]), Pow2(|lanes| - 1);
    TrailingOnes(rest);
    assert ZeroMask(lanes) == 2 * rest + (if lanes[0] == 0 then 1 else 0);
    assert Pow2(|lanes|) == 2 * half;
    hide ZeroMask;
    hide CountrOne;
    hide Pow2;
    assert 2 * rest != 2 * half - 1;
  }

  lemma TrailingOnes(x: nat)
    ensures CountrOne(2 * x + 1) == 1 + CountrOne(x) && CountrOne(2 * x) == 0
  {}

  lemma SliceOfPrefix(a: array<u32>, n: nat, i: nat, j: nat)
    requires i <= j <= n <= a.Length
    ensures a[i..j] == a[..n][i..j]
  {}

  method ScalarFindNextNonzero(a: array<u32>, n: nat, start: nat) returns (r: Option<nat>)
    requires n <= a.Length
    ensures r == NextNonzero(a[..n], start)
  {
    var i := start;
    while i < n
      invariant NextNonzero(a[..n], start) == NextNonzero(a[..n], i)
    {
      if a[i] != 0 {
        return Some(i);
      }
      i := i + 1;
    }
    return None;
  }

  /** One more vector's mask, shifted into place in a 64-bit word, makes the mask of one more vector. */
  lemma NextVector(s: seq<u32>, b: nat)
    requires |s| == (b + 1) * LANES && b < 8
    ensures var done, vec := s[..b * LANES], s[b * LANES..];
            Or(ZeroMask(done), Shl(ZeroMask(vec), b * LANES) % U64) == ZeroMask(s)
  {
    hide ZeroMask;
    hide Or;
    hide Shl;
    var done, vec := s[..b * LANES], s[b * LANES..];
    ShiftFits(vec, b);
    MaskOfBlocks(done, vec);
    assert done + vec == s;
  }

  /** The mask of numBlocks vectors from index i on: one bit per lane, in order. */
  method BlockMask(a: array<u32>, i: nat, numBlocks: nat) returns (mask: nat)
    requires 1 <= numBlocks <= 8 && i + numBlocks * LANES <= a.Length
    ensures mask == ZeroMask(a[i..i + numBlocks * LANES])
  {
    assert ZeroMask([]) == 0;
    hide *;
    mask := 0;
    for b := 0 to numBlocks
      invariant mask == ZeroMask(a[i..i + b * LANES])
    {
      ghost var s := a[i..i + (b + 1) * LANES];
      assert s[..b * LANES] == a[i..i + b * LANES];
      assert s[b * LANES..] == a[i + b * LANES..i + (b + 1) * LANES];
      NextVector(s, b);
      mask := Or(mask, Shl(ZeroMask(a[i + b * LANES..i + (b + 1) * LANES]), b * LANES) % U64);
    }
  }

  method Avx2FindNextNonzero(numBlocks: nat, a: array<u32>, n: nat, start: nat) returns (r: Option<nat>)
    requires 1 <= numBlocks <= 8 && n <= a.Length
    ensures r == NextNonzero(a[..n], start)
  {
    hide ZeroMask;
    hide CountrOne;
    hide Pow2;
    hide Full;
    if start >= n {
      return None;
    }
    var step := numBlocks * LANES;
    FullIsAllOnes(numBlocks);
    var i := start;
    while i + step <= n
      invariant i <= n && NextNonzero(a[..n], start) == NextNonzero(a[..n], i)
    {
      var mask := BlockMask(a, i, numBlocks);
      SliceOfPrefix(a, n, i, i + step);
      BlockScan(a[..n], i, step);
      if mask != Full(numBlocks) {
        return Some(i + CountrOne(mask));
      }
      i := i + step;
    }
    while i + LANES <= n
      invariant i <= n && NextNonzero(a[..n], start) == NextNonzero(a[..n], i)
    {
      var mask := ZeroMask(a[i..i + LANES]);
      SliceOfPrefix(a, n, i, i + LANES);
      BlockScan(a[..n], i, LANES);
      if mask != 0xFF {
        return Some(i + CountrOne(mask));
      }
      i := i + LANES;
    }
    while i < n
      invariant i <= n && NextNonzero(a[..n], start) == NextNonzero(a[..n], i)
    {
      if a[i] != 0 {
        return Some(i);
      }
      i := i + 1;
    }
    return None;
  }
}
