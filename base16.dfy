/**
 * Lowercase Base16 (section 8 of RFC 4648), the text that Node.js'
 * `Buffer.prototype.toString('hex')` produces: every octet becomes two
 * digits, high nibble first, drawn from "0123456789abcdef".
 */
module Base16 {
  import opened Wrappers

  /** The lowercase digits of the alphabet. */
  predicate IsLowerHexDigit(c: char) {
    '0' <= c <= '9' || 'a' <= c <= 'f'
  }

  /** The digit for a nibble value. */
  function Digit(n: nat): (c: char)
    requires n < 16
    ensures IsLowerHexDigit(c)
  {
    if n < 10 then ('0' as int + n) as char else ('a' as int + n - 10) as char
  }

  /** The nibble value of a digit; upper- and lowercase letters are both accepted. */
  function DigitValue(c: char): (r: Option<nat>)
    ensures r.Some? ==> r.value < 16
    ensures r.Some? <==> IsLowerHexDigit(c) || 'A' <= c <= 'F'
  {
    if '0' <= c <= '9' then Some(c as int - '0' as int)
    else if 'a' <= c <= 'f' then Some(c as int - 'a' as int + 10)
    else if 'A' <= c <= 'F' then Some(c as int - 'A' as int + 10)
    else None
  }

  lemma DigitValueOfDigit(n: nat)
    requires n < 16
    ensures DigitValue(Digit(n)) == Some(n)
  {
  }

  lemma DigitOfDigitValue(c: char)
    requires IsLowerHexDigit(c)
    ensures DigitValue(c).Some? && Digit(DigitValue(c).value) == c
  {
  }

  /** Hex-encodes a byte sequence, two digits per byte. */
  function Encode(bytes: seq<Byte>): (hex: string)
    ensures |hex| == 2 * |bytes|
    ensures forall i :: 0 <= i < |hex| ==> IsLowerHexDigit(hex[i])
  {
    if bytes == [] then ""
    else [Digit(bytes[0] / 16), Digit(bytes[0] % 16)] + Encode(bytes[1..])
  }

  /** Decodes a hex string; an odd length or a character outside 0-9, a-f, A-F fails. */
  function Decode(hex: string): (r: Option<seq<Byte>>)
    ensures r.Some? ==> 2 * |r.value| == |hex|
    ensures r.Some? <==> |hex| % 2 == 0 && forall i :: 0 <= i < |hex| ==> DigitValue(hex[i]).Some?
  {
    if hex == [] then Some([])
    else if |hex| == 1 then None
    else
      match (DigitValue(hex[0]), DigitValue(hex[1]), Decode(hex[2..]))
      case (Some(high), Some(low), Some(rest)) => Some([high * 16 + low] + rest)
      case _ => None
  }

  /** Byte i of the input is digits 2i and 2i+1 of the output, high nibble first. */
  lemma {:induction false} EncodeAt(bytes: seq<Byte>, i: nat)
    requires i < |bytes|
    ensures Encode(bytes)[2 * i] == Digit(bytes[i] / 16)
    ensures Encode(bytes)[2 * i + 1] == Digit(bytes[i] % 16)
  {
    if i > 0 {
      EncodeAt(bytes[1..], i - 1);
    }
  }

  /** Decoding the encoding gives back the bytes. */
  lemma {:induction false} DecodeEncode(bytes: seq<Byte>)
    ensures Decode(Encode(bytes)) == Some(bytes)
  {
    if bytes != [] {
      var hex := Encode(bytes);
      DigitValueOfDigit(bytes[0] / 16);
      DigitValueOfDigit(bytes[0] % 16);
      assert hex[2..] == Encode(bytes[1..]);
      DecodeEncode(bytes[1..]);
      assert [bytes[0]] + bytes[1..] == bytes;
    }
  }

  /** A lowercase hex string of even length is the encoding of what it decodes to. */
  lemma {:induction false} EncodeDecode(hex: string)
    requires |hex| % 2 == 0
    requires forall i :: 0 <= i < |hex| ==> IsLowerHexDigit(hex[i])
    ensures Decode(hex).Some? && Encode(Decode(hex).value) == hex
  {
    if hex != [] {
      DigitOfDigitValue(hex[0]);
      DigitOfDigitValue(hex[1]);
      EncodeDecode(hex[2..]);
      var high, low := DigitValue(hex[0]).value, DigitValue(hex[1]).value;
      var bytes := Decode(hex).value;
      assert bytes[0] == high * 16 + low && bytes[1..] == Decode(hex[2..]).value;
      assert bytes[0] / 16 == high && bytes[0] % 16 == low;
      assert hex == [hex[0], hex[1]] + hex[2..];
    }
  }

  /** Distinct byte sequences have distinct encodings. */
  lemma EncodeInjective(a: seq<Byte>, b: seq<Byte>)
    requires Encode(a) == Encode(b)
    ensures a == b
  {
    DecodeEncode(a);
    DecodeEncode(b);
  }
}
