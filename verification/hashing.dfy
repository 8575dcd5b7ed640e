/**
 * The text the worker hashes for one nonce (mine.c lines 244-254): the block
 * data followed directly by the nonce in decimal, with no separator.
 */
module Hashing {
  import opened Decimal
  import opened Nonces

  /** `strcpy(tmp_str, data); strcat(tmp_str, buf)` with `buf` holding `%llu` of the nonce. */
  function HashInput(data: string, nonce: Nonce): string
  {
    data + Render(nonce)
  }

  /**
   * The combined string is `str_size = strlen(buf) + strlen(data)` long, at
   * most 20 characters longer than the data, starts with the data, and ends
   * with a canonical decimal numeral.
   */
  lemma HashInputShape(data: string, nonce: Nonce)
    ensures |HashInput(data, nonce)| == |data| + |Render(nonce)|
    ensures |HashInput(data, nonce)| <= |data| + 20
    ensures HashInput(data, nonce)[..|data|] == data
    ensures Canonical(HashInput(data, nonce)[|data|..])
  {
    RenderFitsBuffer(nonce);
    assert HashInput(data, nonce)[|data|..] == Render(nonce);
  }

  /** The nonce is read back from what follows the data. */
  lemma RecoverNonce(data: string, nonce: Nonce)
    ensures AllDigits(HashInput(data, nonce)[|data|..])
    ensures ParseDecimal(HashInput(data, nonce)[|data|..]) == nonce
  {
    assert HashInput(data, nonce)[|data|..] == Render(nonce);
    ParseRender(nonce);
  }

  /** For fixed block data, distinct nonces give distinct hash inputs. */
  lemma HashInputInjective(data: string, a: Nonce, b: Nonce)
    requires HashInput(data, a) == HashInput(data, b)
    ensures a == b
  {
    RecoverNonce(data, a);
    RecoverNonce(data, b);
  }

  /** The example from the source comment: 'Hello World!' and 10 give 'Hello World!10'. */
  lemma HelloWorldTen()
    ensures HashInput("Hello World!", 10) == "Hello World!10"
  {
    assert Render(10) == Render(1) + ['0'];
  }

  /**
   * With no separator the pair (data, nonce) is not recoverable from the
   * input alone: "a1" with 2 and "a" with 12 are hashed identically. Within
   * one run the data is fixed, so this costs nothing.
   */
  lemma NoSeparator()
    ensures HashInput("a1", 2) == HashInput("a", 12)
  {
    assert Render(12) == Render(1) + ['2'];
  }
}
