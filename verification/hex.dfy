/** Bytes and the upper-case hexadecimal rendering `byte.ToString("X2")`. */
module Hex {

  newtype byte = x: int | 0 <= x < 256

  /** The upper-case hex digit for a nibble. */
  function Digit(n: int): char
    requires 0 <= n < 16
  {
    if n < 10 then ('0' as int + n) as char else ('A' as int + n - 10) as char
  }

  /** Whether `c` is one of `0-9` or `A-F`. */
  predicate IsUpperHexDigit(c: char) {
    '0' <= c <= '9' || 'A' <= c <= 'F'
  }

  /** `HashCache.GetCacheKey`'s loop: each byte, in order, as two upper-case hex digits. */
  function HexUpper(bs: seq<byte>): (r: string)
    ensures |r| == 2 * |bs|
    ensures forall i :: 0 <= i < |bs| ==>
              r[2 * i] == Digit(bs[i] as int / 16) && r[2 * i + 1] == Digit(bs[i] as int % 16)
    ensures forall j :: 0 <= j < |r| ==> IsUpperHexDigit(r[j])
  {
    if bs == [] then ""
    else
      var b := bs[|bs| - 1];
      HexUpper(bs[..|bs| - 1]) + [Digit(b as int / 16), Digit(b as int % 16)]
  }

  /** Distinct byte strings have distinct hex renderings. */
  lemma HexUpperInjective(a: seq<byte>, b: seq<byte>)
    requires HexUpper(a) == HexUpper(b)
    ensures a == b
  {
    var h := HexUpper(a);
    assert |a| == |b|;
    forall i | 0 <= i < |a|
      ensures a[i] == b[i]
    {
      assert h[2 * i] == Digit(a[i] as int / 16) == Digit(b[i] as int / 16);
      assert h[2 * i + 1] == Digit(a[i] as int % 16) == Digit(b[i] as int % 16);
      DigitInjective(a[i] as int / 16, b[i] as int / 16);
      DigitInjective(a[i] as int % 16, b[i] as int % 16);
      NibblesDetermine(a[i], b[i]);
    }
  }

  /** Distinct nibbles have distinct digits. */
  lemma DigitInjective(x: int, y: int)
    requires 0 <= x < 16 && 0 <= y < 16 && Digit(x) == Digit(y)
    ensures x == y
  {
  }

  /** A byte is determined by its two nibbles. */
  lemma NibblesDetermine(x: byte, y: byte)
    requires x as int / 16 == y as int / 16 && x as int % 16 == y as int % 16
    ensures x == y
  {
    assert x as int == 16 * (x as int / 16) + x as int % 16;
    assert y as int == 16 * (y as int / 16) + y as int % 16;
  }
}
