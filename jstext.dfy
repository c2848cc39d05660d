/** String helpers of the JavaScript runtime that the front end relies on:
    `String.prototype.trim`, `includes`, and the decimal rendering of a
    non-negative integer (as in the template `Erreur HTTP ${res.status}`). */
module JsText {

  /** ECMAScript WhiteSpace and LineTerminator code points: what `trim` removes. */
  predicate IsJsWhitespace(c: char) {
    var n := c as int;
    n == 0x09 || n == 0x0A || n == 0x0B || n == 0x0C || n == 0x0D || n == 0x20 ||
    n == 0xA0 || n == 0x1680 || (0x2000 <= n <= 0x200A) || n == 0x2028 || n == 0x2029 ||
    n == 0x202F || n == 0x205F || n == 0x3000 || n == 0xFEFF
  }

  /** Every char of s is in the class ws. */
  predicate AllIn(s: string, ws: char -> bool) {
    forall i :: 0 <= i < |s| ==> ws(s[i])
  }

  predicate AllWhitespace(s: string) {
    AllIn(s, IsJsWhitespace)
  }

  /** Drops the leading chars of class ws: the result is the suffix of s
      after its longest prefix of such chars. */
  function TrimStartOf(s: string, ws: char -> bool): (r: string)
    ensures |r| <= |s| && r == s[|s| - |r|..]
    ensures AllIn(s[..|s| - |r|], ws)
    ensures r == [] || !ws(r[0])
  {
    if s != [] && ws(s[0]) then
      var r := TrimStartOf(s[1..], ws);
      assert s[..|s| - |r|] == [s[0]] + s[1..][..|s[1..]| - |r|];
      r
    else s
  }

  /** Drops the trailing chars of class ws: the result is the prefix of s
      before its longest suffix of such chars. */
  function TrimEndOf(s: string, ws: char -> bool): (r: string)
    ensures |r| <= |s| && r == s[..|r|]
    ensures AllIn(s[|r|..], ws)
    ensures r == [] || !ws(r[|r| - 1])
  {
    if s != [] && ws(s[|s| - 1]) then
      var r := TrimEndOf(s[..|s| - 1], ws);
      assert s[|r|..] == s[..|s| - 1][|r|..] + [s[|s| - 1]];
      r
    else s
  }

  /** Both ends trimmed. */
  function TrimOf(s: string, ws: char -> bool): string {
    TrimEndOf(TrimStartOf(s, ws), ws)
  }

  /** `s.trim()`. */
  function Trim(s: string): string {
    TrimOf(s, IsJsWhitespace)
  }

  /** Trimming the start leaves nothing exactly when every char is of class ws. */
  lemma TrimStartOfEmpty(s: string, ws: char -> bool)
    ensures TrimStartOf(s, ws) == [] <==> AllIn(s, ws)
  {
    var r := TrimStartOf(s, ws);
    if r == [] {
      assert s[..|s|] == s;
    } else {
      assert r[0] == s[|s| - |r|];
    }
  }

  /** Trimming the end leaves nothing exactly when every char is of class ws. */
  lemma TrimEndOfEmpty(s: string, ws: char -> bool)
    ensures TrimEndOf(s, ws) == [] <==> AllIn(s, ws)
  {
    var r := TrimEndOf(s, ws);
    if r == [] {
      assert s[0..] == s;
    } else {
      assert r[|r| - 1] == s[|r| - 1];
    }
  }

  /** Both ends trimmed leave nothing exactly when every char is of class ws. */
  lemma TrimOfEmpty(s: string, ws: char -> bool)
    ensures TrimOf(s, ws) == [] <==> AllIn(s, ws)
  {
    var t := TrimStartOf(s, ws);
    TrimStartOfEmpty(s, ws);
    TrimEndOfEmpty(t, ws);
    if t != [] {
      assert !ws(t[0]);
    }
  }

  /** `s.trim()` is empty exactly when every char of s is whitespace. */
  lemma TrimEmpty(s: string)
    ensures Trim(s) == [] <==> AllWhitespace(s)
  {
    TrimOfEmpty(s, IsJsWhitespace);
  }

  /** `s.includes(sub)`. */
  predicate Includes(s: string, sub: string) {
    (|sub| <= |s| && s[..|sub|] == sub) || (s != [] && Includes(s[1..], sub))
  }

  function DigitChar(d: int): char
    requires 0 <= d < 10
  {
    ('0' as int + d) as char
  }

  /** Decimal rendering without leading zeros. */
  function Decimal(n: nat): (r: string)
    ensures 1 <= |r|
    ensures forall i :: 0 <= i < |r| ==> '0' <= r[i] <= '9'
  {
    if n < 10 then [DigitChar(n)] else Decimal(n / 10) + [DigitChar(n % 10)]
  }

  /** Reads a string of decimal digits back. */
  function DecimalValue(s: string): nat
    requires forall i :: 0 <= i < |s| ==> '0' <= s[i] <= '9'
  {
    if s == [] then 0 else 10 * DecimalValue(s[..|s| - 1]) + (s[|s| - 1] as int - '0' as int)
  }

  /** The rendering is read back as the same number, so distinct statuses
      give distinct messages. */
  lemma {:induction false} DecimalRoundTrip(n: nat)
    ensures DecimalValue(Decimal(n)) == n
  {
    if n >= 10 {
      DecimalRoundTrip(n / 10);
      var r := Decimal(n);
      assert r[..|r| - 1] == Decimal(n / 10);
    }
  }
}
