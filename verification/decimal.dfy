/**
 * The `%llu` conversion the worker uses to turn a nonce into text
 * (mine.c line 246): unsigned decimal, most significant digit first, no sign,
 * no padding and no leading zeros. `ParseDecimal` reads such text back.
 */
module Decimal {

  /** The character for a digit value 0 .. 9. */
  function DigitChar(d: nat): char
    requires d < 10
  {
    ['0', '1', '2', '3', '4', '5', '6', '7', '8', '9'][d]
  }

  /** The value of a decimal digit character. */
  function DigitValue(c: char): (d: nat)
    requires IsDigit(c)
    ensures d < 10
  {
    (c as int) - ('0' as int)
  }

  predicate IsDigit(c: char)
  {
    '0' <= c <= '9'
  }

  /** Every character is a decimal digit. */
  predicate AllDigits(s: string)
  {
    forall k :: 0 <= k < |s| ==> IsDigit(s[k])
  }

  /** What `%llu` may print: at least one digit, and no leading zero unless the value is 0. */
  predicate Canonical(s: string)
  {
    |s| > 0 && AllDigits(s) && (s[0] == '0' ==> |s| == 1)
  }

  lemma DigitRoundTrip(d: nat)
    requires d < 10
    ensures IsDigit(DigitChar(d)) && DigitValue(DigitChar(d)) == d
  {
  }

  lemma CharRoundTrip(c: char)
    requires IsDigit(c)
    ensures DigitChar(DigitValue(c)) == c
  {
  }

  /** 10^k. */
  function Pow10(k: nat): (r: nat)
    ensures r >= 1
  {
    if k == 0 then 1 else 10 * Pow10(k - 1)
  }

  /** The decimal rendering of `n`, as `%llu` prints it. */
  function Render(n: nat): (s: string)
    ensures Canonical(s)
    ensures n < Pow10(|s|)
    ensures |s| > 1 ==> Pow10(|s| - 1) <= n
  {
    if n < 10 then [DigitChar(n)]
    else
      var front := Render(n / 10);
      assert Pow10(|front| + 1) == 10 * Pow10(|front|);
      assert |front| > 1 ==> Pow10(|front|) == 10 * Pow10(|front| - 1);
      assert |front| > 1 ==> Pow10(|front| - 1) * 10 <= (n / 10) * 10;
      front + [DigitChar(n % 10)]
  }

  /** Reads a string of decimal digits, most significant first. */
  function ParseDecimal(s: string): nat
    requires AllDigits(s)
  {
    if s == [] then 0
    else ParseDecimal(s[..|s| - 1]) * 10 + DigitValue(s[|s| - 1])
  }

  /** Reading the rendering back gives the value that was rendered. */
  lemma {:induction false} ParseRender(n: nat)
    ensures ParseDecimal(Render(n)) == n
  {
    if n >= 10 {
      var front := Render(n / 10);
      var s := Render(n);
      assert s == front + [DigitChar(n % 10)];
      assert s[..|s| - 1] == front;
      ParseRender(n / 10);
      DigitRoundTrip(n % 10);
    } else {
      DigitRoundTrip(n);
    }
  }

  /** A value's rendering determines it: distinct nonces are printed differently. */
  lemma RenderInjective(a: nat, b: nat)
    requires Render(a) == Render(b)
    ensures a == b
  {
    ParseRender(a);
    ParseRender(b);
  }

  /** Every canonical digit string is the rendering of its own value. */
  lemma {:induction false} RenderParse(s: string)
    requires Canonical(s)
    ensures Render(ParseDecimal(s)) == s
    decreases |s|
  {
    if |s| == 1 {
      CharRoundTrip(s[0]);
      assert s == [s[0]];
    } else {
      var t := s[..|s| - 1];
      var c := s[|s| - 1];
      assert t[0] == s[0];
      assert Canonical(t);
      RenderParse(t);
      var m := ParseDecimal(s);
      assert m == ParseDecimal(t) * 10 + DigitValue(c);
      assert m / 10 == ParseDecimal(t) && m % 10 == DigitValue(c);
      CharRoundTrip(c);
      assert Render(m) == t + [c];
      assert s == t + [c];
    }
  }

  /** 10^k grows with k. */
  lemma {:induction false} Pow10Grows(j: nat, k: nat)
    requires j <= k
    ensures Pow10(j) <= Pow10(k)
    decreases k
  {
    if j < k {
      Pow10Grows(j, k - 1);
    }
  }

  lemma Pow10Of19And20()
    ensures Pow10(19) == 10_000_000_000_000_000_000
    ensures Pow10(20) == 100_000_000_000_000_000_000
  {
    assert Pow10(5) == 100_000;
    assert Pow10(10) == 10_000_000_000;
    assert Pow10(15) == 1_000_000_000_000_000;
  }

  /**
   * A 64-bit value renders to at most 20 digits, so with its terminating NUL
   * it fits the 21-byte buffer (mine.c line 245).
   */
  lemma RenderFitsBuffer(n: nat)
    requires n < 0x1_0000_0000_0000_0000
    ensures |Render(n)| <= 20
    ensures |Render(n)| + 1 <= 21
  {
    var s := Render(n);
    if |s| > 20 {
      Pow10Grows(20, |s| - 1);
      Pow10Of19And20();
      assert false;
    }
  }

  /** The bound is tight: the largest 64-bit value needs all 20 digits. */
  lemma LargestNeedsTwenty()
    ensures |Render(0xFFFF_FFFF_FFFF_FFFF)| == 20
  {
    var n := 0xFFFF_FFFF_FFFF_FFFF;
    var s := Render(n);
    RenderFitsBuffer(n);
    Pow10Of19And20();
    if |s| < 20 {
      Pow10Grows(|s|, 19);
      assert false;
    }
  }
}
