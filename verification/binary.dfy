/**
 * `print_binary32` as a pure function: the 32 characters it prints for a
 * word, most significant bit first, and the base-2 reading that undoes it.
 */
module Binary {
  import opened Bits

  /** The character the print loop emits for bit `i` of `x`. */
  function BitChar(x: bv32, i: bv8): char
    requires i < 32
  {
    if BitSet(x, i) then '1' else '0'
  }

  /** Every character is a binary digit. */
  predicate BinaryDigits(s: string)
  {
    forall k :: 0 <= k < |s| ==> s[k] == '0' || s[k] == '1'
  }

  /**
   * Bits `n - 1` down to `0` of `x`, one character each: the iterations
   * `i = n - 1, ..., 0` of the print loop (mine.c lines 174-180).
   */
  function RenderBits(x: bv32, n: bv8): (s: string)
    requires n <= 32
    ensures |s| == n as int
    ensures BinaryDigits(s)
    ensures forall p: bv8 :: p < n ==> s[n as int - 1 - p as int] == BitChar(x, p)
    decreases n
  {
    if n == 0 then [] else
      var rest := RenderBits(x, n - 1);
      assert (n - 1) as int == n as int - 1;
      [BitChar(x, n - 1)] + rest
  }

  /** print_binary32: exactly 32 binary digits; the character at index `31 - p` shows bit `p`. */
  function Binary32(x: bv32): (s: string)
    ensures |s| == 32
    ensures BinaryDigits(s)
    ensures forall p: bv8 :: p < 32 ==> s[31 - p as int] == BitChar(x, p)
  {
    var s := RenderBits(x, 32);
    assert (32 as bv8) as int == 32;
    s
  }

  /** The value of one binary digit. */
  function Digit(c: char): bv32
  {
    if c == '1' then 1 else 0
  }

  /** One Horner step in base 2: shift the word left and append a digit. */
  function Push(y: bv32, c: char): bv32
  {
    (y << 1) | Digit(c)
  }

  /** Reads a string of binary digits, most significant first, by Horner's rule modulo 2^32. */
  function ParseBinary(s: string): bv32
  {
    if s == [] then 0 else Push(ParseBinary(s[..|s| - 1]), s[|s| - 1])
  }

  /** Bit 0 after a step is the appended digit; bit `p + 1` is the old bit `p`. */
  lemma PushBits(y: bv32, c: char, p: bv8)
    requires p < 32
    ensures p == 0 ==> (BitSet(Push(y, c), p) <==> c == '1')
    ensures p > 0 ==> (BitSet(Push(y, c), p) <==> BitSet(y, p - 1))
  {
  }

  /** The digit `p` places from the right end of `s` is a one. */
  predicate OneAt(s: string, p: bv8)
  {
    p as int < |s| && s[|s| - 1 - p as int] == '1'
  }

  /** Dropping the last digit moves every other digit one place to the right. */
  lemma OneAtStep(s: string, p: bv8)
    requires |s| > 0 && 0 < p
    ensures OneAt(s, p) <==> OneAt(s[..|s| - 1], p - 1)
  {
    assert (p - 1) as int == p as int - 1;
  }

  lemma DigitsPrefix(s: string)
    requires |s| > 0 && BinaryDigits(s)
    ensures BinaryDigits(s[..|s| - 1])
  {
    var t := s[..|s| - 1];
    forall k | 0 <= k < |t|
      ensures t[k] == '0' || t[k] == '1'
    {
      assert t[k] == s[k];
    }
  }

  /** Bit `p` of the parsed word is the digit `p` places from the right end of `s`. */
  lemma {:induction false} ParseBit(s: string, p: bv8)
    requires |s| <= 32 && BinaryDigits(s) && p < 32
    ensures BitSet(ParseBinary(s), p) <==> OneAt(s, p)
    decreases |s|
  {
    if s != [] && p > 0 {
      var t := s[..|s| - 1];
      DigitsPrefix(s);
      ParseBit(t, p - 1);
      ParseHigh(s, p);
    } else if s != [] {
      ParseLow(s);
    }
  }

  /** Bit `p > 0` of the parsed word comes from the digits before the last one. */
  lemma ParseHigh(s: string, p: bv8)
    requires |s| > 0 && 0 < p < 32
    requires BitSet(ParseBinary(s[..|s| - 1]), p - 1) <==> OneAt(s[..|s| - 1], p - 1)
    ensures BitSet(ParseBinary(s), p) <==> OneAt(s, p)
  {
    PushBits(ParseBinary(s[..|s| - 1]), s[|s| - 1], p);
    OneAtStep(s, p);
  }

  /** Bit 0 of the parsed word is the last digit. */
  lemma ParseLow(s: string)
    requires |s| > 0
    ensures BitSet(ParseBinary(s), 0) <==> OneAt(s, 0)
  {
    PushBits(ParseBinary(s[..|s| - 1]), s[|s| - 1], 0);
  }

  /** Words agreeing on bits below `n`. */
  predicate AgreeBelow(a: bv32, b: bv32, n: bv8)
    requires n <= 32
  {
    a & LowOnes(n) == b & LowOnes(n)
  }

  lemma AgreeStep(a: bv32, b: bv32, n: bv8)
    requires n < 32
    requires AgreeBelow(a, b, n)
    requires BitSet(a, n) <==> BitSet(b, n)
    ensures AgreeBelow(a, b, n + 1)
  {
  }

  lemma {:induction false} AgreeUpTo(a: bv32, b: bv32, n: bv8)
    requires n <= 32
    requires forall p: bv8 :: p < 32 ==> (BitSet(a, p) <==> BitSet(b, p))
    ensures AgreeBelow(a, b, n)
    decreases n
  {
    if n > 0 {
      AgreeUpTo(a, b, n - 1);
      assert BitSet(a, n - 1) <==> BitSet(b, n - 1);
      AgreeStep(a, b, n - 1);
    }
  }

  /** Two words with the same 32 bits are equal. */
  lemma BitsDetermine(a: bv32, b: bv32)
    requires forall p: bv8 :: p < 32 ==> (BitSet(a, p) <==> BitSet(b, p))
    ensures a == b
  {
    AgreeUpTo(a, b, 32);
    assert LowOnes(32) == 0xFFFF_FFFF;
  }

  /** Reading the printed digits back as base 2 gives the word that was printed. */
  lemma ParseOfBinary(x: bv32)
    ensures ParseBinary(Binary32(x)) == x
  {
    forall p: bv8 | p < 32
      ensures BitSet(ParseBinary(Binary32(x)), p) <==> BitSet(x, p)
    {
      ParseOfBinaryBit(x, p);
    }
    BitsDetermine(ParseBinary(Binary32(x)), x);
  }

  lemma ParseOfBinaryBit(x: bv32, p: bv8)
    requires p < 32
    ensures BitSet(ParseBinary(Binary32(x)), p) <==> BitSet(x, p)
  {
    PrintedDigit(x, p);
    ParseDigit(Binary32(x), p);
  }

  /** The printed character for bit `p` is a one exactly when the bit is set. */
  lemma PrintedDigit(x: bv32, p: bv8)
    requires p < 32
    ensures Binary32(x)[31 - p as int] == '1' <==> BitSet(x, p)
  {
    assert Binary32(x)[31 - p as int] == BitChar(x, p);
  }

  /** For 32 digits, bit `p` of the parsed word is the digit at index `31 - p`. */
  lemma ParseDigit(s: string, p: bv8)
    requires |s| == 32 && BinaryDigits(s) && p < 32
    ensures BitSet(ParseBinary(s), p) <==> s[31 - p as int] == '1'
  {
    ParseBit(s, p);
  }

  /** Every 32-digit binary string is what print_binary32 prints for its base-2 value. */
  lemma BinaryOfParse(s: string)
    requires |s| == 32 && BinaryDigits(s)
    ensures Binary32(ParseBinary(s)) == s
  {
    var r := Binary32(ParseBinary(s));
    forall k | 0 <= k < 32
      ensures r[k] == s[k]
    {
      BinaryOfParseAt(s, k);
    }
  }

  lemma BinaryOfParseAt(s: string, k: nat)
    requires |s| == 32 && BinaryDigits(s) && k < 32
    ensures Binary32(ParseBinary(s))[k] == s[k]
  {
    var p := Count(31 - k);
    PrintedDigit(ParseBinary(s), p);
    ParseDigit(s, p);
    assert s[k] == '0' || s[k] == '1';
  }

  /** `n` copies of `c`. */
  function Repeat(c: char, n: nat): (s: string)
    ensures |s| == n
    ensures forall k :: 0 <= k < n ==> s[k] == c
  {
    if n == 0 then [] else [c] + Repeat(c, n - 1)
  }

  /**
   * The "Difficulty Mask:" line shows `diff` zeros followed by `32 - diff`
   * ones (for level 24: eight ones at the right end).
   */
  lemma MaskRendering(diff: nat)
    requires diff <= 32
    ensures Binary32(Mask(diff)) == Repeat('0', diff) + Repeat('1', 32 - diff)
  {
    var r := Binary32(Mask(diff));
    var e := Repeat('0', diff) + Repeat('1', 32 - diff);
    forall k | 0 <= k < 32
      ensures r[k] == e[k]
    {
      MaskDigit(diff, k);
    }
  }

  lemma MaskDigit(diff: nat, k: nat)
    requires diff <= 32 && k < 32
    ensures Binary32(Mask(diff))[k] == (if k < diff then '0' else '1')
  {
    var p := Count(31 - k);
    MaskBits(diff);
    assert BitSet(Mask(diff), p) <==> p as int < 32 - diff;
    PrintedDigit(Mask(diff), p);
  }
}
