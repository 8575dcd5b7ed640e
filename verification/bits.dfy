/**
 * Bit-level pieces of the miner: the difficulty mask built by `get_difficulty`,
 * the acceptance test the worker applies to the leading 32 bits of a digest, and
 * the big-endian packing of the first four digest bytes into those 32 bits.
 *
 * `uint32_t` values are `bv32`. Bit positions 0 .. 31 are `bv8` values, so that
 * every fact about a shift stays inside bit-vector arithmetic.
 */
module Bits {

  /** 2^k as an unbounded natural number. */
  function Pow2(k: nat): (r: nat)
    ensures r >= 1
  {
    if k == 0 then 1 else 2 * Pow2(k - 1)
  }

  /** The source's bit test `(x & (1 << i)) == (1 << i)`: bit `i` of `x` is set. */
  predicate BitSet(x: bv32, i: bv8)
    requires i < 32
  {
    x & ((1 as bv32) << i) == (1 as bv32) << i
  }

  /** 2^32, the number of `uint32_t` values. */
  lemma Pow2Of32()
    ensures Pow2(32) == 0x1_0000_0000
  {
    assert Pow2(8) == 0x100;
    assert Pow2(16) == 0x1_0000;
    assert Pow2(24) == 0x100_0000;
  }

  /** The word with the low `n` bits set and the others clear. */
  function LowOnes(n: bv8): bv32
    requires n <= 32
  {
    ((1 as bv32) << n) - 1
  }

  /** Bit `i` of the low `n` ones is set exactly when `i < n`. */
  lemma LowOnesBit(n: bv8, i: bv8)
    requires n <= 32 && i < 32
    ensures BitSet(LowOnes(n), i) <==> i < n
  {
  }

  /** Adding bit `n` to the low `n` ones gives the low `n + 1` ones. */
  lemma LowOnesStep(n: bv8)
    requires n < 32
    ensures LowOnes(n) | ((1 as bv32) << n) == LowOnes(n + 1)
  {
  }

  /** Doubling a word below 2^31 doubles its value. */
  lemma DoubleValue(x: bv32)
    requires x < 0x8000_0000
    ensures (x << 1) as int == 2 * x as int
  {
  }

  /** (1 << k) is 2^k, read as a natural number. */
  lemma {:induction false} ShiftIsPow2(k: bv8)
    requires k < 32
    ensures ((1 as bv32) << k) as int == Pow2(k as int)
    decreases k
  {
    if k > 0 {
      ShiftIsPow2(k - 1);
      var x := (1 as bv32) << (k - 1);
      assert (1 as bv32) << k == x << 1;
      assert (k - 1) as int == k as int - 1;
      DoubleValue(x);
    }
  }

  /** The low `n` ones are 2^n - 1, read as a natural number. */
  lemma LowOnesValue(n: bv8)
    requires n <= 32
    ensures LowOnes(n) as int == Pow2(n as int) - 1
  {
    if n < 32 {
      ShiftIsPow2(n);
      assert ((1 as bv32) << n) >= 1;
    } else {
      Pow2Of32();
    }
  }

  /** A count up to 32 as a `bv8`, built by counting up from zero. */
  function Count(k: nat): (n: bv8)
    requires k <= 32
    ensures n <= 32 && n as int == k
  {
    if k == 0 then 0 else Count(k - 1) + 1
  }

  /** The number `32 - diff` of one bits in the mask for level `diff`. */
  function OneBits(diff: nat): (n: bv8)
    requires diff <= 32
    ensures n <= 32 && n as int == 32 - diff
  {
    Count(32 - diff)
  }

  /**
   * Closed form of the difficulty mask: `32 - diff` low one-bits. A level
   * above 32 leaves the mask empty, because the source loop does not run.
   */
  function Mask(diff: nat): bv32
  {
    if diff >= 32 then 0 else LowOnes(OneBits(diff))
  }

  /**
   * get_difficulty (mine.c lines 190-200): starting from an empty mask, sets
   * bit `i` for every `i` below `32 - diff`, one bit per iteration.
   */
  method GetDifficulty(diff: nat) returns (mask: bv32)
    ensures mask == Mask(diff)
    ensures diff <= 32 ==> mask as int == Pow2(32 - diff) - 1
  {
    mask := 0;
    if diff >= 32 {
      // the loop bound 32 - diff is not positive: no iteration
      if diff == 32 {
        LowOnesValue(0);
      }
      return;
    }
    var n := OneBits(diff);
    var i: bv8 := 0;
    while i < n
      invariant i <= n
      invariant mask == LowOnes(i)
      decreases n - i
    {
      var position := (1 as bv32) << i;
      LowOnesStep(i);
      mask := mask | position;
      i := i + 1;
    }
    LowOnesValue(n);
  }

  /** The mask has exactly `diff` leading zero bits, then `32 - diff` one bits. */
  lemma MaskBits(diff: nat)
    requires diff <= 32
    ensures forall i: bv8 :: i < 32 ==> (BitSet(Mask(diff), i) <==> i as int < 32 - diff)
  {
    forall i: bv8 | i < 32
      ensures BitSet(Mask(diff), i) <==> i as int < 32 - diff
    {
      if diff < 32 {
        LowOnesBit(OneBits(diff), i);
      }
    }
  }

  /**
   * The worker's acceptance test (mine.c line 274): every set bit of the
   * leading word lies inside the mask.
   */
  predicate Matches(front: bv32, mask: bv32)
  {
    front & mask == front
  }

  lemma BelowLowOnes(front: bv32, n: bv8)
    requires n <= 32
    ensures Matches(front, LowOnes(n)) <==> front <= LowOnes(n)
  {
    if n < 32 {
      KeptIffBelow(front, n);
      BelowIffAtMost(front, n);
    } else {
      assert LowOnes(n) == 0xFFFF_FFFF;
    }
  }

  lemma KeptIffBelow(front: bv32, n: bv8)
    requires n < 32
    ensures Matches(front, LowOnes(n)) <==> front < (1 as bv32) << n
  {
  }

  lemma BelowIffAtMost(front: bv32, n: bv8)
    requires n < 32
    ensures front < (1 as bv32) << n <==> front <= LowOnes(n)
  {
  }

  /**
   * Against the difficulty mask a word matches iff it is at most the mask,
   * that is (the mask being 2^(32 - diff) - 1) iff it is below 2^(32 - diff).
   */
  lemma MatchesIffAtMost(front: bv32, diff: nat)
    requires diff <= 32
    ensures Matches(front, Mask(diff)) <==> front <= Mask(diff)
  {
    if diff < 32 {
      MatchesIffAtMostPartial(front, diff);
    } else {
      assert Mask(diff) == 0;
    }
  }

  /** The same on natural numbers: a word matches at level `diff` iff its value is below 2^(32 - diff). */
  lemma MatchesIffBelow(front: bv32, diff: nat)
    requires diff <= 32
    ensures Matches(front, Mask(diff)) <==> front as int < Pow2(32 - diff)
  {
    var n := OneBits(diff);
    assert Mask(diff) == LowOnes(n);
    MatchesIffAtMost(front, diff);
    AtMostLowOnes(front, n);
    LowOnesValue(n);
  }

  /** Against the low `n` ones, unsigned 32-bit order is the order of the values. */
  lemma AtMostLowOnes(front: bv32, n: bv8)
    requires n <= 32
    ensures front <= LowOnes(n) <==> front as int <= LowOnes(n) as int
  {
  }

  lemma MatchesIffAtMostPartial(front: bv32, diff: nat)
    requires diff < 32
    ensures Matches(front, Mask(diff)) <==> front <= Mask(diff)
  {
    var n := OneBits(diff);
    assert Mask(diff) == LowOnes(n);
    BelowLowOnes(front, n);
  }

  /** Clearing bit `m` of a word kept whole by the low `m + 1` ones. */
  lemma ClearStep(front: bv32, m: bv8)
    requires m < 32
    requires Matches(front, LowOnes(m + 1))
    requires !BitSet(front, m)
    ensures Matches(front, LowOnes(m))
  {
  }

  /** A word whose bits from `k` upward are clear is kept whole by the low `n` ones, for `n >= k`. */
  lemma {:induction false} ClearDown(front: bv32, k: bv8, n: bv8)
    requires k <= n <= 32
    requires forall i: bv8 :: k <= i < 32 ==> !BitSet(front, i)
    ensures Matches(front, LowOnes(n))
    decreases 32 - n
  {
    if n < 32 {
      ClearDown(front, k, n + 1);
      assert !BitSet(front, n);
      ClearStep(front, n);
    } else {
      assert LowOnes(n) == 0xFFFF_FFFF;
    }
  }

  /** A word kept whole by the low `n` ones has every bit from `n` upward clear. */
  lemma HighClear(front: bv32, n: bv8, i: bv8)
    requires n <= i < 32
    requires Matches(front, LowOnes(n))
    ensures !BitSet(front, i)
  {
  }

  /** A word matches iff its top `diff` bits are all clear. */
  lemma MatchesIffTopClear(front: bv32, diff: nat)
    requires diff <= 32
    ensures Matches(front, Mask(diff)) <==> forall i: bv8 :: 32 - diff <= i as int < 32 ==> !BitSet(front, i)
  {
    if Matches(front, Mask(diff)) {
      MatchedTopClear(front, diff);
    } else if forall i: bv8 :: 32 - diff <= i as int < 32 ==> !BitSet(front, i) {
      TopClearMatches(front, diff);
    }
  }

  lemma MatchedTopClear(front: bv32, diff: nat)
    requires diff <= 32
    requires Matches(front, Mask(diff))
    ensures forall i: bv8 :: 32 - diff <= i as int < 32 ==> !BitSet(front, i)
  {
    if diff == 32 {
      assert front == 0;
    } else {
      var n := OneBits(diff);
      forall i: bv8 | 32 - diff <= i as int < 32
        ensures !BitSet(front, i)
      {
        HighClear(front, n, i);
      }
    }
  }

  lemma TopClearMatches(front: bv32, diff: nat)
    requires diff <= 32
    requires forall i: bv8 :: 32 - diff <= i as int < 32 ==> !BitSet(front, i)
    ensures Matches(front, Mask(diff))
  {
    var n := OneBits(diff);
    assert forall i: bv8 :: n <= i < 32 ==> !BitSet(front, i);
    ClearDown(front, n, n);
    assert diff == 32 ==> LowOnes(n) == 0;
  }

  /** Difficulty 0 accepts every leading word. */
  lemma MatchesAtZero(front: bv32)
    ensures Matches(front, Mask(0))
  {
    assert Mask(0) == 0xFFFF_FFFF;
  }

  /** Difficulty 32 accepts only the all-zero leading word. */
  lemma MatchesAtThirtyTwo(front: bv32)
    ensures Matches(front, Mask(32)) <==> front == 0
  {
  }

  /**
   * hash_front (mine.c lines 265-269): the first four digest bytes packed
   * big-endian into one 32-bit word. Each product is below 2^32, so the sum
   * in the contract never wraps.
   */
  function HashFront(digest: seq<bv8>): (front: bv32)
    requires |digest| >= 4
    ensures front == (digest[0] as bv32) * 0x100_0000 + (digest[1] as bv32) * 0x1_0000
                   + (digest[2] as bv32) * 0x100 + (digest[3] as bv32)
  {
    (digest[0] as bv32 << 24) | (digest[1] as bv32 << 16) | (digest[2] as bv32 << 8) | (digest[3] as bv32)
  }

  /** The four bytes of a word, most significant first: the inverse of packing. */
  function FrontBytes(front: bv32): (bytes: seq<bv8>)
    ensures |bytes| == 4
  {
    [(front >> 24) as bv8, ((front >> 16) & 0xFF) as bv8, ((front >> 8) & 0xFF) as bv8, (front & 0xFF) as bv8]
  }

  /** Each digest byte is recovered from the packed word by shifting and masking. */
  lemma UnpackPack(digest: seq<bv8>)
    requires |digest| >= 4
    ensures FrontBytes(HashFront(digest)) == digest[..4]
  {
  }

  /** Every word is the packing of its own four bytes. */
  lemma PackUnpack(front: bv32)
    ensures HashFront(FrontBytes(front)) == front
  {
  }
}
