/** Bytes, "binary strings" (one char per byte, as atob/btoa and
    String.fromCharCode use them) and the UTF-8 encoding done by TextEncoder. */
module Bytes {

  /** An octet, as stored in a Uint8Array. */
  type byte = b: int | 0 <= b < 256

  /** A binary string: every char code fits in one byte. */
  predicate IsBinary(s: string) {
    forall i :: 0 <= i < |s| ==> s[i] as int < 256
  }

  /** `String.fromCharCode(b)` for each byte b, concatenated. */
  function BinaryOf(b: seq<byte>): (s: string)
    ensures |s| == |b| && IsBinary(s)
    ensures forall i :: 0 <= i < |b| ==> s[i] as int == b[i]
  {
    seq(|b|, i requires 0 <= i < |b| => b[i] as char)
  }

  /** The byte values of a binary string (`charCodeAt` on each index). */
  function BytesOf(s: string): (b: seq<byte>)
    requires IsBinary(s)
    ensures |b| == |s|
    ensures forall i :: 0 <= i < |s| ==> b[i] == s[i] as int
  {
    seq(|s|, i requires 0 <= i < |s| => s[i] as int)
  }

  lemma BytesOfBinaryOf(b: seq<byte>)
    ensures BytesOf(BinaryOf(b)) == b
  {
    var s := BinaryOf(b);
    assert forall i :: 0 <= i < |b| ==> BytesOf(s)[i] == b[i];
  }

  lemma BinaryOfBytesOf(s: string)
    requires IsBinary(s)
    ensures BinaryOf(BytesOf(s)) == s
  {
    var b := BytesOf(s);
    assert forall i :: 0 <= i < |s| ==> BinaryOf(b)[i] == s[i];
  }

  /** Bitwise exclusive or of two naturals, bit by bit from the lowest. */
  function BitXor(a: nat, b: nat): nat
    decreases a + b
  {
    if a == 0 && b == 0 then 0
    else 2 * BitXor(a / 2, b / 2) + (if a % 2 == b % 2 then 0 else 1)
  }

  function Pow2(n: nat): (p: nat)
    ensures p >= 1
  {
    if n == 0 then 1 else 2 * Pow2(n - 1)
  }

  lemma {:induction false} BitXorBound(a: nat, b: nat, n: nat)
    requires a < Pow2(n) && b < Pow2(n)
    ensures BitXor(a, b) < Pow2(n)
    decreases n
  {
    if !(a == 0 && b == 0) {
      assert n > 0;
      BitXorBound(a / 2, b / 2, n - 1);
    }
  }

  lemma {:induction false} BitXorInvolution(a: nat, k: nat)
    ensures BitXor(BitXor(a, k), k) == a
    decreases a + k
  {
    if a == 0 && k == 0 {
    } else {
      var x := BitXor(a, k);
      BitXorInvolution(a / 2, k / 2);
      assert x / 2 == BitXor(a / 2, k / 2);
      assert x % 2 == (if a % 2 == k % 2 then 0 else 1);
    }
  }

  /** Bitwise and of two naturals, bit by bit from the lowest. */
  function BitAnd(a: nat, b: nat): nat
    decreases a + b
  {
    if a == 0 || b == 0 then 0
    else 2 * BitAnd(a / 2, b / 2) + (if a % 2 == 1 && b % 2 == 1 then 1 else 0)
  }

  /** The n low bits of i, as a number. */
  function LowBits(i: nat, n: nat): (r: nat)
    ensures r < Pow2(n)
  {
    if n == 0 then 0 else 2 * LowBits(i / 2, n - 1) + i % 2
  }

  /** i shifted right by n bits. */
  function HighBits(i: nat, n: nat): nat {
    if n == 0 then i else HighBits(i / 2, n - 1)
  }

  /** `h << n`. */
  function Shl(h: nat, n: nat): nat {
    if n == 0 then h else 2 * Shl(h, n - 1)
  }

  /** i is its n low bits plus its high bits shifted back into place. */
  lemma {:induction false} LowHighBits(i: nat, n: nat)
    ensures i == LowBits(i, n) + Shl(HighBits(i, n), n)
    decreases n
  {
    if n > 0 {
      LowHighBits(i / 2, n - 1);
    }
  }

  lemma {:induction false} ShlMul(h: nat, n: nat)
    ensures Shl(h, n) == Pow2(n) * h
    decreases n
  {
    if n > 0 {
      ShlMul(h, n - 1);
      MulTwice(Pow2(n - 1), h);
    }
  }

  lemma MulTwice(p: int, h: int)
    ensures (2 * p) * h == 2 * (p * h)
  {
  }

  lemma DivModUnique(i: int, d: int, t: int, x: int)
    requires d > 0 && 0 <= x < d && i == d * t + x
    ensures i % d == x
  {
    var q, r := i / d, i % d;
    assert d * (t - q) == r - x;
    if t > q {
      MulAtLeast(d, t - q);
    } else if t < q {
      MulAtLeast(d, q - t);
    }
  }

  lemma MulAtLeast(d: int, k: int)
    requires d > 0 && k >= 1
    ensures d * k >= d
  {
  }

  /** `i & m` for an odd m: the low bit of i, and `(i >> 1) & (m >> 1)` above it. */
  lemma BitAndOdd(i: nat, m: nat)
    requires m % 2 == 1
    ensures BitAnd(i, m) == 2 * BitAnd(i / 2, m / 2) + i % 2
  {
    if i == 0 {
      assert BitAnd(i / 2, m / 2) == 0;
    }
  }

  /** Masking with 2^n - 1 keeps the n low bits. */
  lemma {:induction false} BitAndLowMask(i: nat, n: nat)
    ensures BitAnd(i, Pow2(n) - 1) == LowBits(i, n)
    decreases n
  {
    if n > 0 {
      var p := Pow2(n - 1);
      assert Pow2(n) - 1 == 2 * (p - 1) + 1;
      BitAndOdd(i, Pow2(n) - 1);
      BitAndLowMask(i / 2, n - 1);
    } else {
      assert Pow2(n) - 1 == 0;
    }
  }

  /** `i & (2^n - 1) == i % 2^n`, shown for a fixed n by the split into low
      and high bits. */
  lemma BitAndLowMaskMod(i: nat, n: nat)
    ensures BitAnd(i, Pow2(n) - 1) == i % Pow2(n)
  {
    BitAndLowMask(i, n);
    LowHighBits(i, n);
    ShlMul(HighBits(i, n), n);
    DivModUnique(i, Pow2(n), HighBits(i, n), LowBits(i, n));
  }

  /** Only the zero key leaves a value unchanged. */
  lemma {:induction false} BitXorFixed(a: nat, k: nat)
    requires BitXor(a, k) == a
    ensures k == 0
    decreases a + k
  {
    if !(a == 0 && k == 0) {
      assert k % 2 == 0;
      BitXorFixed(a / 2, k / 2);
    }
  }

  /** `x ^ key` on two bytes. */
  function XorByte(x: byte, key: byte): byte
  {
    BitXorBound(x, key, 8);
    BitXor(x, key)
  }

  lemma XorByteTwice(x: byte, key: byte)
    ensures XorByte(XorByte(x, key), key) == x
  {
    BitXorInvolution(x, key);
  }

  /** Each byte XOR'd with one fixed key byte. */
  function Xor(b: seq<byte>, key: byte): (r: seq<byte>)
    ensures |r| == |b|
    ensures forall i :: 0 <= i < |b| ==> r[i] == XorByte(b[i], key)
  {
    seq(|b|, i requires 0 <= i < |b| => XorByte(b[i], key))
  }

  /** A non-zero key leaves no non-empty byte sequence unchanged (each
      byte differs, by BitXorFixed). */
  lemma XorChanges(b: seq<byte>, key: byte)
    requires key != 0 && b != []
    ensures Xor(b, key) != b
  {
    if Xor(b, key) == b {
      assert XorByte(b[0], key) == b[0];
      BitXorFixed(b[0], key);
    }
  }

  /** XOR with a fixed key is an involution, so masking twice is the identity. */
  lemma XorXor(b: seq<byte>, key: byte)
    ensures Xor(Xor(b, key), key) == b
  {
    var r := Xor(Xor(b, key), key);
    forall i | 0 <= i < |b| ensures r[i] == b[i] {
      XorByteTwice(b[i], key);
    }
  }

  /** The UTF-8 encoding of one Unicode scalar value. */
  function Utf8Char(c: char): (r: seq<byte>)
    ensures 1 <= |r| <= 4
    ensures c as int < 0x80 <==> |r| == 1
    ensures 0x80 <= c as int < 0x800 <==> |r| == 2
  {
    var n := c as int;
    if n < 0x80 then [n]
    else if n < 0x800 then [0xC0 + n / 0x40, 0x80 + n % 0x40]
    else if n < 0x10000 then [0xE0 + n / 0x1000, 0x80 + (n / 0x40) % 0x40, 0x80 + n % 0x40]
    else [0xF0 + n / 0x40000, 0x80 + (n / 0x1000) % 0x40, 0x80 + (n / 0x40) % 0x40, 0x80 + n % 0x40]
  }

  /** `new TextEncoder().encode(s)`. */
  function Utf8(s: string): seq<byte>
  {
    if s == [] then [] else Utf8Char(s[0]) + Utf8(s[1..])
  }

  /** Encoding distributes over concatenation, so the encoding of
      `ts + challenge + token` is the three encodings one after another. */
  lemma {:induction false} Utf8Append(a: string, b: string)
    ensures Utf8(a + b) == Utf8(a) + Utf8(b)
  {
    if a == [] {
      assert a + b == b;
    } else {
      assert (a + b)[1..] == a[1..] + b;
      Utf8Append(a[1..], b);
    }
  }

  /** Number of chars of s whose code is at least 0x80. */
  function CountHigh(s: string): nat
  {
    if s == [] then 0 else (if s[0] as int >= 0x80 then 1 else 0) + CountHigh(s[1..])
  }

  /** A binary string (such as a decoded token) encodes to one byte per char
      below 0x80 and two bytes per char from 0x80 to 0xFF. */
  lemma {:induction false} Utf8BinaryLength(s: string)
    requires IsBinary(s)
    ensures |Utf8(s)| == |s| + CountHigh(s)
  {
    if s != [] {
      assert IsBinary(s[1..]) by {
        forall i | 0 <= i < |s[1..]| ensures s[1..][i] as int < 256 { assert s[1..][i] == s[i + 1]; }
      }
      Utf8BinaryLength(s[1..]);
    }
  }

  /** An ASCII-only string encodes to exactly its own char codes. */
  lemma {:induction false} Utf8Ascii(s: string)
    requires forall i :: 0 <= i < |s| ==> s[i] as int < 0x80
    ensures Utf8(s) == BytesOf(s)
  {
    if s != [] {
      Utf8Ascii(s[1..]);
      var b := BytesOf(s);
      assert BytesOf(s[1..]) == b[1..];
      assert Utf8Char(s[0]) == [b[0]];
    }
  }
}
