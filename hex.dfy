/** Lowercase base16 rendering of digest bytes, as `sha256Hex` in static/auth.js
    builds it: `b.toString(16).padStart(2, "0")` for each byte, joined. */
module Hex {
  import opened Bytes

  function HexDigit(v: int): char
    requires 0 <= v < 16
  {
    if v < 10 then ('0' as int + v) as char else ('a' as int + v - 10) as char
  }

  predicate IsLowerHexDigit(c: char) {
    ('0' <= c <= '9') || ('a' <= c <= 'f')
  }

  /** `n.toString(16)` for a non-negative integer: no leading zeros. */
  function Radix16(n: nat): (r: string)
    ensures 1 <= |r|
    decreases n
  {
    if n < 16 then [HexDigit(n)] else Radix16(n / 16) + [HexDigit(n % 16)]
  }

  /** `s.padStart(2, "0")`. */
  function PadStart2(s: string): string {
    if |s| >= 2 then s else seq(2 - |s|, _ => '0') + s
  }

  /** One byte's rendering. */
  function ByteHex(b: byte): string {
    PadStart2(Radix16(b))
  }

  /** Every byte becomes exactly two lowercase digits, high nibble first,
      zero-padded below 0x10. */
  lemma ByteHexDigits(b: byte)
    ensures ByteHex(b) == [HexDigit(b / 16), HexDigit(b % 16)]
  {
    if b >= 16 {
      assert Radix16(b / 16) == [HexDigit(b / 16)];
    }
  }

  /** `Array.from(bytes).map(ByteHex).join("")`. */
  function HexOf(d: seq<byte>): string {
    if d == [] then "" else ByteHex(d[0]) + HexOf(d[1..])
  }

  /** The rendering has two chars per byte, and chars 2i and 2i+1 are the two
      nibbles of byte i; so a 32-byte digest gives 64 lowercase hex digits. */
  lemma {:induction false} HexOfAt(d: seq<byte>)
    ensures |HexOf(d)| == 2 * |d|
    ensures forall i :: 0 <= i < |d| ==>
      HexOf(d)[2 * i] == HexDigit(d[i] / 16) && HexOf(d)[2 * i + 1] == HexDigit(d[i] % 16)
    ensures forall j :: 0 <= j < |HexOf(d)| ==> IsLowerHexDigit(HexOf(d)[j])
  {
    if d != [] {
      HexOfAt(d[1..]);
      ByteHexDigits(d[0]);
      var h := HexOf(d);
      assert h == ByteHex(d[0]) + HexOf(d[1..]);
      forall i | 1 <= i < |d|
        ensures h[2 * i] == HexDigit(d[i] / 16) && h[2 * i + 1] == HexDigit(d[i] % 16)
      {
        assert d[1..][i - 1] == d[i];
        assert h[2 * i] == HexOf(d[1..])[2 * (i - 1)];
        assert h[2 * i + 1] == HexOf(d[1..])[2 * (i - 1) + 1];
      }
    }
  }

  lemma HexDigitInjective(v: int, w: int)
    requires 0 <= v < 16 && 0 <= w < 16
    requires HexDigit(v) == HexDigit(w)
    ensures v == w
  {
  }

  /** Distinct byte sequences never render to the same text. */
  lemma HexOfInjective(a: seq<byte>, b: seq<byte>)
    requires HexOf(a) == HexOf(b)
    ensures a == b
  {
    HexOfAt(a);
    HexOfAt(b);
    forall i | 0 <= i < |a| ensures a[i] == b[i] {
      HexDigitInjective(a[i] / 16, b[i] / 16);
      HexDigitInjective(a[i] % 16, b[i] % 16);
    }
  }
}
