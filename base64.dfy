/** Base64 as the browser's `btoa` and `atob` implement it: the alphabet and
    padding of section 4 of RFC 4648 for encoding, and the WHATWG
    "forgiving-base64 decode" (whitespace skipped, padding optional) for
    decoding. */
module Base64 {
  import opened Wrappers
  import opened Bytes

  /** A 6-bit value. */
  type sextet = v: int | 0 <= v < 64

  /** The value's char in the alphabet of RFC 4648 section 4 (table 1). */
  function CharOf(v: sextet): (c: char)
    ensures IsAlphabet(c)
  {
    if v < 26 then ('A' as int + v) as char
    else if v < 52 then ('a' as int + v - 26) as char
    else if v < 62 then ('0' as int + v - 52) as char
    else if v == 62 then '+'
    else '/'
  }

  predicate IsAlphabet(c: char) {
    ('A' <= c <= 'Z') || ('a' <= c <= 'z') || ('0' <= c <= '9') || c == '+' || c == '/'
  }

  /** Inverse of CharOf. */
  function ValueOf(c: char): (v: sextet)
    requires IsAlphabet(c)
    ensures CharOf(v) == c
  {
    if 'A' <= c <= 'Z' then c as int - 'A' as int
    else if 'a' <= c <= 'z' then c as int - 'a' as int + 26
    else if '0' <= c <= '9' then c as int - '0' as int + 52
    else if c == '+' then 62
    else 63
  }

  lemma ValueOfCharOf(v: sextet)
    ensures IsAlphabet(CharOf(v)) && ValueOf(CharOf(v)) == v
  {
  }

  /** Three bytes split into four sextets, most significant bits first. */
  function Split(a: byte, b: byte, c: byte): (r: seq<sextet>)
    ensures |r| == 4
  {
    [a / 4, (a % 4) * 16 + b / 16, (b % 16) * 4 + c / 64, c % 64]
  }

  /** The sextets of b, three bytes at a time; a final group of one or two
      bytes is completed with zero bits and gives two or three sextets. */
  function Sextets(b: seq<byte>): (r: seq<sextet>)
    ensures |r| == 4 * (|b| / 3) + (if |b| % 3 == 0 then 0 else |b| % 3 + 1)
    decreases |b|
  {
    if |b| == 0 then []
    else if |b| == 1 then Split(b[0], 0, 0)[..2]
    else if |b| == 2 then Split(b[0], b[1], 0)[..3]
    else
      assert |b[3..]| / 3 == |b| / 3 - 1 && |b[3..]| % 3 == |b| % 3;
      Split(b[0], b[1], b[2]) + Sextets(b[3..])
  }

  /** Each sextet's char. */
  function Chars(vs: seq<sextet>): (r: string)
    ensures |r| == |vs|
    ensures forall i :: 0 <= i < |r| ==> r[i] == CharOf(vs[i]) && IsAlphabet(r[i])
  {
    seq(|vs|, i requires 0 <= i < |vs| => CharOf(vs[i]))
  }

  /** The encoding without its '=' padding. */
  function EncodeRaw(b: seq<byte>): (r: string)
    ensures |r| == 4 * (|b| / 3) + (if |b| % 3 == 0 then 0 else |b| % 3 + 1)
    ensures forall i :: 0 <= i < |r| ==> IsAlphabet(r[i])
  {
    Chars(Sextets(b))
  }

  function Padding(n: nat): string {
    if n % 3 == 1 then "==" else if n % 3 == 2 then "=" else ""
  }

  /** Standard base64 with padding: what `btoa` returns for the binary string of b. */
  function Encode(b: seq<byte>): (r: string)
    ensures |r| % 4 == 0 && |r| == 4 * ((|b| + 2) / 3)
  {
    var n := |b|;
    assert (n + 2) / 3 == n / 3 + (if n % 3 == 0 then 0 else 1);
    EncodeRaw(b) + Padding(n)
  }

  /** ASCII whitespace as the WHATWG infra standard defines it. */
  predicate IsAsciiWhitespace(c: char) {
    c == '\t' || c == '\n' || c as int == 0x0C || c == '\r' || c == ' '
  }

  function StripWhitespace(s: string): (r: string)
    ensures |r| <= |s|
    ensures forall i :: 0 <= i < |r| ==> !IsAsciiWhitespace(r[i])
  {
    if s == [] then ""
    else if IsAsciiWhitespace(s[0]) then StripWhitespace(s[1..])
    else [s[0]] + StripWhitespace(s[1..])
  }

  /** Removes one or two trailing '=' when the length is a multiple of four. */
  function StripPadding(t: string): string {
    if |t| % 4 == 0 && |t| >= 2 && t[|t| - 2] == '=' && t[|t| - 1] == '=' then t[..|t| - 2]
    else if |t| % 4 == 0 && |t| >= 1 && t[|t| - 1] == '=' then t[..|t| - 1]
    else t
  }

  /** Four sextets become three bytes. */
  function Group(v0: sextet, v1: sextet, v2: sextet, v3: sextet): (r: seq<byte>)
    ensures |r| == 3
  {
    [v0 * 4 + v1 / 16, (v1 % 16) * 16 + v2 / 4, (v2 % 4) * 64 + v3]
  }

  /** Each char's sextet. */
  function Values(u: string): (r: seq<sextet>)
    requires forall i :: 0 <= i < |u| ==> IsAlphabet(u[i])
    ensures |r| == |u|
    ensures forall i :: 0 <= i < |r| ==> r[i] == ValueOf(u[i])
  {
    seq(|u|, i requires 0 <= i < |u| => ValueOf(u[i]))
  }

  /** Four sextets become three bytes; two or three trailing sextets become
      one or two bytes, and their leftover low bits are discarded. */
  function Join(vs: seq<sextet>): seq<byte>
    requires |vs| % 4 != 1
    decreases |vs|
  {
    if |vs| == 0 then []
    else if |vs| == 2 then Group(vs[0], vs[1], 0, 0)[..1]
    else if |vs| == 3 then Group(vs[0], vs[1], vs[2], 0)[..2]
    else Group(vs[0], vs[1], vs[2], vs[3]) + Join(vs[4..])
  }

  function DecodeRaw(u: string): seq<byte>
    requires |u| % 4 != 1
    requires forall i :: 0 <= i < |u| ==> IsAlphabet(u[i])
  {
    Join(Values(u))
  }

  /** The forgiving-base64 decode behind `atob`; None where atob throws. */
  function Decode(s: string): Option<seq<byte>>
  {
    var u := StripPadding(StripWhitespace(s));
    if |u| % 4 == 1 || exists i :: 0 <= i < |u| && !IsAlphabet(u[i]) then None
    else Some(DecodeRaw(u))
  }

  /** `atob(s)`: a binary string, or None where atob throws InvalidCharacterError. */
  function Atob(s: string): (r: Option<string>)
    ensures r.Some? ==> IsBinary(r.value)
    ensures r.Some? <==> Decode(s).Some?
  {
    match Decode(s)
    case None => None
    case Some(b) => Some(BinaryOf(b))
  }

  /** `btoa(s)`: None where btoa throws (some char code above 0xFF). */
  function Btoa(s: string): (r: Option<string>)
    ensures r.Some? <==> IsBinary(s)
  {
    if IsBinary(s) then Some(Encode(BytesOf(s))) else None
  }

  /** The four sextets of three bytes give those bytes back. */
  lemma GroupSplit(a: byte, b: byte, c: byte)
    ensures var v := Split(a, b, c); Group(v[0], v[1], v[2], v[3]) == [a, b, c]
  {
  }

  lemma JoinStep(v: seq<sextet>, rest: seq<sextet>)
    requires |v| == 4 && |rest| % 4 != 1
    ensures Join(v + rest) == Group(v[0], v[1], v[2], v[3]) + Join(rest)
  {
    assert (v + rest)[4..] == rest;
  }

  lemma JoinOne(a: byte)
    ensures Join(Sextets([a])) == [a]
  {
    GroupSplit(a, 0, 0);
  }

  lemma JoinTwo(a: byte, b: byte)
    ensures Join(Sextets([a, b])) == [a, b]
  {
    GroupSplit(a, b, 0);
  }

  /** The unpadded length of n bytes is never 1 modulo 4. */
  lemma RawLength(n: nat)
    ensures (4 * (n / 3) + (if n % 3 == 0 then 0 else n % 3 + 1)) % 4 != 1
  {
    var t := if n % 3 == 0 then 0 else n % 3 + 1;
    assert (4 * (n / 3) + t) % 4 == t;
  }

  lemma {:induction false} JoinSextets(b: seq<byte>)
    ensures |Sextets(b)| % 4 != 1
    ensures Join(Sextets(b)) == b
    decreases |b|
  {
    RawLength(|b|);
    if |b| == 1 {
      JoinOne(b[0]);
      assert b == [b[0]];
    } else if |b| == 2 {
      JoinTwo(b[0], b[1]);
      assert b == [b[0], b[1]];
    } else if |b| >= 3 {
      var v := Split(b[0], b[1], b[2]);
      JoinSextets(b[3..]);
      JoinStep(v, Sextets(b[3..]));
      GroupSplit(b[0], b[1], b[2]);
      assert b == [b[0], b[1], b[2]] + b[3..];
    }
  }

  lemma ValuesChars(vs: seq<sextet>)
    ensures Values(Chars(vs)) == vs
  {
    forall i | 0 <= i < |vs| ensures Values(Chars(vs))[i] == vs[i] {
      ValueOfCharOf(vs[i]);
    }
  }

  lemma DecodeRawEncodeRaw(b: seq<byte>)
    ensures |EncodeRaw(b)| % 4 != 1
    ensures DecodeRaw(EncodeRaw(b)) == b
  {
    ValuesChars(Sextets(b));
    JoinSextets(b);
  }

  lemma StripWhitespaceAlphabet(s: string)
    requires forall i :: 0 <= i < |s| ==> !IsAsciiWhitespace(s[i])
    ensures StripWhitespace(s) == s
  {
    if s != [] {
      StripWhitespaceAlphabet(s[1..]);
    }
  }

  /** The padded encoding holds no whitespace, and dropping its padding
      gives the raw encoding back. */
  lemma StripEncode(b: seq<byte>)
    ensures StripPadding(StripWhitespace(Encode(b))) == EncodeRaw(b)
  {
    var raw := EncodeRaw(b);
    var e := Encode(b);
    var pad := Padding(|b|);
    assert e == raw + pad;
    assert forall i :: 0 <= i < |e| ==> !IsAsciiWhitespace(e[i]) by {
      forall i | 0 <= i < |e| ensures !IsAsciiWhitespace(e[i]) {
        if i < |raw| { assert e[i] == raw[i]; } else { assert e[i] == pad[i - |raw|]; }
      }
    }
    StripWhitespaceAlphabet(e);
    StripPaddingRaw(raw, pad, |b|);
  }

  lemma StripPaddingRaw(raw: string, pad: string, n: nat)
    requires |raw| == 4 * (n / 3) + (if n % 3 == 0 then 0 else n % 3 + 1)
    requires forall i :: 0 <= i < |raw| ==> IsAlphabet(raw[i])
    requires pad == Padding(n)
    ensures StripPadding(raw + pad) == raw
  {
    var k := n / 3;
    if n % 3 == 0 {
      assert raw + pad == raw;
      StripNoPadding(raw);
    } else if n % 3 == 1 {
      assert |raw| == 4 * k + 2;
      StripTwoPads(raw);
    } else {
      assert |raw| == 4 * k + 3;
      StripOnePad(raw);
    }
  }

  lemma StripNoPadding(raw: string)
    requires |raw| % 4 == 0
    requires forall i :: 0 <= i < |raw| ==> IsAlphabet(raw[i])
    ensures StripPadding(raw) == raw
  {
    if |raw| > 0 {
      assert IsAlphabet(raw[|raw| - 1]);
    }
  }

  lemma StripTwoPads(raw: string)
    requires |raw| % 4 == 2
    ensures StripPadding(raw + "==") == raw
  {
    var e := raw + "==";
    assert |e| == 4 * (|raw| / 4) + 4;
    assert |e| % 4 == 0;
    assert e[|e| - 2] == '=' && e[|e| - 1] == '=';
    assert e[..|e| - 2] == raw;
  }

  lemma StripOnePad(raw: string)
    requires |raw| % 4 == 3
    requires forall i :: 0 <= i < |raw| ==> IsAlphabet(raw[i])
    ensures StripPadding(raw + "=") == raw
  {
    var e := raw + "=";
    assert |e| == 4 * (|raw| / 4) + 4;
    assert |e| % 4 == 0;
    assert e[|e| - 1] == '=' && e[|e| - 2] == raw[|raw| - 1];
    assert IsAlphabet(raw[|raw| - 1]);
    assert e[..|e| - 1] == raw;
  }

  /** Round trip: decoding the standard encoding of any byte sequence gives it back. */
  lemma DecodeEncode(b: seq<byte>)
    ensures Decode(Encode(b)) == Some(b)
  {
    StripEncode(b);
    DecodeRawEncodeRaw(b);
  }

  /** `atob(btoa(s)) == s` for every binary string s. */
  lemma AtobBtoa(s: string)
    requires IsBinary(s)
    ensures Btoa(s).Some? && Atob(Btoa(s).value) == Some(s)
  {
    DecodeEncode(BytesOf(s));
    BinaryOfBytesOf(s);
  }
}
