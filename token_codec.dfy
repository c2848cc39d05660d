/** The token codec of static/panel.js: the recharge token travels as
    base64 of its bytes XOR'd with a one-byte key, and the proof travels as
    base64 of digest bytes. */
module TokenCodec {
  import opened Wrappers
  import opened Bytes
  import opened Base64

  /** The obfuscation key shared with the server. */
  const XOR_KEY: byte := 0x3A

  /** The message of the DOMException `atob` throws on malformed input (its
      exact wording is the browser's). */
  const ATOB_ERROR := "The string to be decoded is not correctly encoded."

  /** `arrayBufferToBase64(buffer)`: one char per byte, code equal to the
      byte, then `btoa`. The result is the standard encoding of the bytes
      and decodes back to them. */
  method ArrayBufferToBase64(bytes: seq<byte>) returns (r: string)
    ensures r == Encode(bytes)
    ensures Decode(r) == Some(bytes)
  {
    var binary := "";
    for i := 0 to |bytes|
      invariant binary == BinaryOf(bytes[..i])
    {
      assert bytes[..i + 1] == bytes[..i] + [bytes[i]];
      binary := binary + [bytes[i] as char];
    }
    assert bytes[..|bytes|] == bytes;
    BytesOfBinaryOf(bytes);
    r := Btoa(binary).value;
    DecodeEncode(bytes);
  }

  /** The raw token bytes behind a wire form: base64-decode (as `atob`
      does), then XOR every byte with the key. None where `atob` throws. */
  function Unmask(encoded: string): Option<seq<byte>> {
    match Decode(encoded)
    case None => None
    case Some(b) => Some(Xor(b, XOR_KEY))
  }

  /** The wire form the server builds: base64 of the masked bytes. */
  function Mask(raw: seq<byte>): string {
    Encode(Xor(raw, XOR_KEY))
  }

  /** Round trip: unmasking the server's wire form of any byte sequence
      gives back exactly those bytes. */
  lemma UnmaskMask(raw: seq<byte>)
    ensures Unmask(Mask(raw)) == Some(raw)
  {
    DecodeEncode(Xor(raw, XOR_KEY));
    XorXor(raw, XOR_KEY);
  }

  /** `decodeXorBase64(encoded)`: fills a Uint8Array with each decoded char
      code XOR the key, then builds a string of one char per array byte.
      The token has as many chars as atob's output, char i is decoded byte i
      XOR 0x3A, every char code is below 256, and it throws exactly when
      atob does. */
  method DecodeXorBase64(encoded: string) returns (r: Result<string>)
    ensures r.Ok? <==> Decode(encoded).Some?
    ensures r.Ok? ==> IsBinary(r.value) && |r.value| == |Decode(encoded).value|
    ensures r.Ok? ==> forall i :: 0 <= i < |r.value| ==>
      r.value[i] as int == XorByte(Decode(encoded).value[i], XOR_KEY)
    ensures r.Ok? ==> r.value == BinaryOf(Unmask(encoded).value)
    ensures r.Err? ==> r.message == ATOB_ERROR
  {
    var decoded := Atob(encoded);
    if decoded.None? {
      return Err(ATOB_ERROR);
    }
    var bin := decoded.value;
    var arr := new byte[|bin|];
    for i := 0 to |bin|
      invariant forall k :: 0 <= k < i ==> arr[k] == XorByte(bin[k] as int, XOR_KEY)
    {
      arr[i] := XorByte(bin[i] as int, XOR_KEY);
    }
    var token := "";
    for i := 0 to arr.Length
      invariant token == BinaryOf(arr[..i])
    {
      assert arr[..i + 1] == arr[..i] + [arr[i]];
      token := token + [arr[i] as char];
    }
    assert arr[..arr.Length] == arr[..];
    assert arr[..] == Xor(Decode(encoded).value, XOR_KEY);
    return Ok(token);
  }

  /** `btoa(tokenStr)` on a decoded token never throws, and it is the plain
      (unmasked) base64 of the raw token bytes. */
  lemma BtoaToken(raw: seq<byte>)
    ensures Btoa(BinaryOf(raw)) == Some(Encode(raw))
  {
    BytesOfBinaryOf(raw);
  }
}
