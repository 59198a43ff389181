/**
 * `Buffer.prototype.toString('hex')`: two lower-case hexadecimal digits per
 * byte, high nibble first, and a decoder that inverts it.
 */
module Hex {
  import opened Wrappers
  import opened Crypto

  const HexDigits: string := "0123456789abcdef"

  predicate IsHexDigit(c: char)
  {
    ('0' <= c <= '9') || ('a' <= c <= 'f')
  }

  /** The digit for a nibble. */
  function Digit(n: nat): (c: char)
    requires n < 16
    ensures IsHexDigit(c)
  {
    HexDigits[n]
  }

  /** The value of one lower-case hex digit; the inverse of Digit. */
  function DigitValue(c: char): (r: Option<nat>)
    ensures r.Some? <==> IsHexDigit(c)
    ensures r.Some? ==> r.value < 16 && Digit(r.value) == c
  {
    if '0' <= c <= '9' then Some(c as int - '0' as int)
    else if 'a' <= c <= 'f' then Some(c as int - 'a' as int + 10)
    else None
  }

  function ByteHex(b: byte): string
  {
    [Digit(b as int / 16), Digit(b as int % 16)]
  }

  /** The hex text of a byte string. */
  function HexEncode(bytes: seq<byte>): (s: string)
    ensures |s| == 2 * |bytes|
    ensures forall i :: 0 <= i < |s| ==> IsHexDigit(s[i])
  {
    if bytes == [] then [] else ByteHex(bytes[0]) + HexEncode(bytes[1..])
  }

  /** The bytes a hex text stands for, if it is one. */
  function HexDecode(s: string): Option<seq<byte>>
    decreases |s|
  {
    if s == [] then Some([])
    else if |s| == 1 then None
    else
      var hi, lo, rest := DigitValue(s[0]), DigitValue(s[1]), HexDecode(s[2..]);
      if hi.Some? && lo.Some? && rest.Some? then Some([(hi.value * 16 + lo.value) as byte] + rest.value)
      else None
  }

  lemma DigitDecodes(n: nat)
    requires n < 16
    ensures DigitValue(Digit(n)) == Some(n)
  {
    var r := DigitValue(Digit(n));
    assert r.Some?;
    assert HexDigits[r.value] == HexDigits[n];
  }

  /** The two digits of a byte decode to its high and low nibble. */
  lemma ByteHexDecodes(b: byte)
    ensures DigitValue(ByteHex(b)[0]) == Some(b as int / 16)
    ensures DigitValue(ByteHex(b)[1]) == Some(b as int % 16)
  {
    DigitDecodes(b as int / 16);
    DigitDecodes(b as int % 16);
  }

  /** Decoding a byte's two digits in front of a text puts that byte in front of the text's bytes. */
  lemma DecodeAfterByte(b: byte, t: string)
    ensures HexDecode(t).None? ==> HexDecode(ByteHex(b) + t).None?
    ensures HexDecode(t).Some? ==> HexDecode(ByteHex(b) + t) == Some([b] + HexDecode(t).value)
  {
    var s := ByteHex(b) + t;
    ByteHexDecodes(b);
    assert s[0] == ByteHex(b)[0] && s[1] == ByteHex(b)[1] && s[2..] == t;
    assert (b as int / 16 * 16 + b as int % 16) as byte == b;
  }

  /** Decoding the hex text of a byte string gives the bytes back. */
  lemma {:induction false} HexRoundTrip(bytes: seq<byte>)
    ensures HexDecode(HexEncode(bytes)) == Some(bytes)
  {
    if bytes != [] {
      DecodeAfterByte(bytes[0], HexEncode(bytes[1..]));
      HexRoundTrip(bytes[1..]);
      assert [bytes[0]] + bytes[1..] == bytes;
    }
  }

  /** Distinct byte strings have distinct hex texts. */
  lemma HexEncodeInjective(a: seq<byte>, b: seq<byte>)
    requires HexEncode(a) == HexEncode(b)
    ensures a == b
  {
    HexRoundTrip(a);
    HexRoundTrip(b);
  }
}
