/**
 * UTF-8 (RFC 3629), the encoding `Buffer.from(message, 'utf8')` applies to
 * the message before it is hex-encoded. A Dafny `char` is a Unicode scalar
 * value, so every string here has a well-formed encoding.
 */
module Utf8 {
  import opened Wrappers

  /** A byte of the form 10xxxxxx, which continues a multi-byte sequence. */
  predicate IsContinuation(b: Byte) {
    0x80 <= b < 0xC0
  }

  /** True when n is a Unicode scalar value (a code point that is not a surrogate). */
  predicate IsScalar(n: int) {
    0 <= n < 0xD800 || 0xE000 <= n < 0x11_0000
  }

  /** The one to four bytes of a single scalar value, shortest form. */
  function EncodeChar(c: char): (bytes: seq<Byte>)
    ensures 1 <= |bytes| <= 4
    ensures |bytes| == 1 <==> c as int < 0x80
  {
    var n := c as int;
    var n1 := n / 64;
    var n2 := n1 / 64;
    if n < 0x80 then [n]
    else if n < 0x800 then [0xC0 + n1, 0x80 + n % 64]
    else if n < 0x1_0000 then [0xE0 + n2, 0x80 + n1 % 64, 0x80 + n % 64]
    else [0xF0 + n2 / 64, 0x80 + n2 % 64, 0x80 + n1 % 64, 0x80 + n % 64]
  }

  /** Encodes a string, one scalar value after another. */
  function Encode(s: string): (bytes: seq<Byte>)
    ensures |s| <= |bytes| <= 4 * |s|
  {
    if s == [] then [] else EncodeChar(s[0]) + Encode(s[1..])
  }

  /**
   * Decodes the scalar value at the head of `bytes`, returning it with the
   * number of bytes it took. Overlong forms, surrogates, values above
   * U+10FFFF and missing continuation bytes are rejected.
   */
  function DecodeChar(bytes: seq<Byte>): (r: Option<(char, nat)>)
    ensures r.Some? ==> 1 <= r.value.1 <= |bytes| && r.value.1 <= 4
  {
    if bytes == [] then None
    else
      var b0: int := bytes[0];
      if b0 < 0x80 then Some((b0 as char, 1))
      else if 0xC0 <= b0 < 0xE0 then
        if |bytes| < 2 || !IsContinuation(bytes[1]) then None
        else
          var n: int := (b0 - 0xC0) * 64 + (bytes[1] as int - 0x80);
          if n < 0x80 then None else Some((n as char, 2))
      else if 0xE0 <= b0 < 0xF0 then
        if |bytes| < 3 || !IsContinuation(bytes[1]) || !IsContinuation(bytes[2]) then None
        else
          var n: int := ((b0 - 0xE0) * 64 + (bytes[1] as int - 0x80)) * 64 + (bytes[2] as int - 0x80);
          if n < 0x800 || !IsScalar(n) then None else Some((n as char, 3))
      else if 0xF0 <= b0 < 0xF8 then
        if |bytes| < 4 || !IsContinuation(bytes[1]) || !IsContinuation(bytes[2]) || !IsContinuation(bytes[3]) then None
        else
          var n: int := (((b0 - 0xF0) * 64 + (bytes[1] as int - 0x80)) * 64 + (bytes[2] as int - 0x80)) * 64 + (bytes[3] as int - 0x80);
          if n < 0x1_0000 || !IsScalar(n) then None else Some((n as char, 4))
      else None
  }

  /** Decodes a whole byte sequence; any ill-formed sequence fails. */
  function Decode(bytes: seq<Byte>): (r: Option<string>)
    ensures r.Some? ==> |r.value| <= |bytes|
    decreases |bytes|
  {
    if bytes == [] then Some([])
    else
      match DecodeChar(bytes)
      case None => None
      case Some((c, k)) =>
        match Decode(bytes[k..])
        case None => None
        case Some(rest) => Some([c] + rest)
  }

  /** The head of an encoding decodes to the character it came from, whatever follows. */
  lemma DecodeEncodeChar(c: char, rest: seq<Byte>)
    ensures DecodeChar(EncodeChar(c) + rest) == Some((c, |EncodeChar(c)|))
  {
  }

  /** Decoding the encoding of a string gives back the string. */
  lemma {:induction false} DecodeEncode(s: string)
    ensures Decode(Encode(s)) == Some(s)
  {
    if s != [] {
      var head := EncodeChar(s[0]);
      var tail := Encode(s[1..]);
      DecodeEncodeChar(s[0], tail);
      assert (head + tail)[|head|..] == tail;
      DecodeEncode(s[1..]);
      assert [s[0]] + s[1..] == s;
    }
  }

  /** ASCII text is encoded one byte per character, unchanged. */
  lemma {:induction false} EncodeAscii(s: string)
    requires forall i :: 0 <= i < |s| ==> s[i] as int < 0x80
    ensures |Encode(s)| == |s|
    ensures forall i :: 0 <= i < |s| ==> Encode(s)[i] == s[i] as int
  {
    if s != [] {
      EncodeAscii(s[1..]);
    }
  }
}
