/** A stand-in for `Utilities.bytesAsHexString`: the canonical lowercase
    hexadecimal encoding of a byte string, two digits per byte. The model
    relies on this encoding only through equality of encodings, and the
    property that makes equality meaningful is injectivity. */
module Hex {

  newtype byte = x: int | 0 <= x < 256

  const DIGITS: string := "0123456789abcdef"

  function Digit(n: int): (c: char)
    requires 0 <= n < 16
  {
    DIGITS[n]
  }

  /** Different nibbles give different digits. */
  lemma DigitInjective(m: int, n: int)
    requires 0 <= m < 16 && 0 <= n < 16
    requires Digit(m) == Digit(n)
    ensures m == n
  {
  }

  function BytesAsHexString(bytes: seq<byte>): (s: string)
    ensures |s| == 2 * |bytes|
    ensures forall i :: 0 <= i < |s| ==> s[i] in DIGITS
  {
    if bytes == [] then ""
    else
      var b := bytes[0] as int;
      [Digit(b / 16), Digit(b % 16)] + BytesAsHexString(bytes[1..])
  }

  /** The digit pair at position 2i encodes byte i. */
  lemma {:induction false} DigitsAt(bytes: seq<byte>, i: nat)
    requires i < |bytes|
    ensures BytesAsHexString(bytes)[2 * i] == Digit(bytes[i] as int / 16)
    ensures BytesAsHexString(bytes)[2 * i + 1] == Digit(bytes[i] as int % 16)
  {
    if i > 0 {
      DigitsAt(bytes[1..], i - 1);
    }
  }

  /** Equal encodings come only from equal byte strings, so comparing hex
      strings is the same as comparing the keys themselves. */
  lemma HexInjective(a: seq<byte>, b: seq<byte>)
    requires BytesAsHexString(a) == BytesAsHexString(b)
    ensures a == b
  {
    assert |a| == |b|;
    forall i | 0 <= i < |a|
      ensures a[i] == b[i]
    {
      DigitsAt(a, i);
      DigitsAt(b, i);
      DigitInjective(a[i] as int / 16, b[i] as int / 16);
      DigitInjective(a[i] as int % 16, b[i] as int % 16);
    }
  }

  /** A one-byte example: the key bytes 0xaa encode as "aa". */
  lemma EncodesSingleByte()
    ensures BytesAsHexString([0xaa]) == "aa"
  {
  }
}
