/** Hexadecimal text for binary column values.

    A RAW column arrives as a byte buffer and is shown as
    `buffer.toString('hex').toUpperCase()`: Node's hex encoding (two lower-case
    digits per byte, high nibble first) followed by JavaScript upper-casing.
    The result is the base16 alphabet of section 8 of RFC 4648. The decoder
    below is not part of the program; it is the partner that shows the
    encoding loses nothing. */
module Hex {
  import opened Wrappers

  /** The digits of section 8 of RFC 4648: 0-9 then A-F. */
  predicate IsUpperHexDigit(c: char) {
    '0' <= c <= '9' || 'A' <= c <= 'F'
  }

  /** The digits Node's 'hex' encoding produces: 0-9 then a-f. */
  predicate IsLowerHexDigit(c: char) {
    '0' <= c <= '9' || 'a' <= c <= 'f'
  }

  function LowerDigit(n: nat): (c: char)
    requires n < 16
    ensures IsLowerHexDigit(c)
  {
    if n < 10 then ('0' as int + n) as char else ('a' as int + n - 10) as char
  }

  function UpperDigit(n: nat): (c: char)
    requires n < 16
    ensures IsUpperHexDigit(c)
    ensures DigitValue(c) == Some(n)
  {
    if n < 10 then ('0' as int + n) as char else ('A' as int + n - 10) as char
  }

  /** The value of one upper-case base16 digit; anything else is rejected. */
  function DigitValue(c: char): (r: Option<nat>)
    ensures r.Some? <==> IsUpperHexDigit(c)
    ensures r.Some? ==> r.value < 16
  {
    if '0' <= c <= '9' then Some(c as int - '0' as int)
    else if 'A' <= c <= 'F' then Some(c as int - 'A' as int + 10)
    else None
  }

  /** `buffer.toString('hex')`: each byte as two lower-case digits, high nibble first. */
  function EncodeLower(bytes: seq<bv8>): (s: string)
    ensures |s| == 2 * |bytes|
    ensures forall i :: 0 <= i < |s| ==> IsLowerHexDigit(s[i])
  {
    if bytes == [] then ""
    else [LowerDigit(bytes[0] as int / 16), LowerDigit(bytes[0] as int % 16)] + EncodeLower(bytes[1..])
  }

  /** JavaScript's upper-casing of one character, on the ASCII letters this
      model meets; every other character is left as it is. */
  function UpperChar(c: char): (u: char)
    ensures 'a' <= c <= 'z' ==> 'A' <= u <= 'Z' && u as int - 'A' as int == c as int - 'a' as int
    ensures IsLowerHexDigit(c) ==> IsUpperHexDigit(u)
    ensures !('a' <= c <= 'z') ==> u == c
  {
    if 'a' <= c <= 'z' then (c as int - 32) as char else c
  }

  /** `String.prototype.toUpperCase`, character by character. */
  function ToUpperCase(s: string): (t: string)
    ensures |t| == |s|
    ensures forall i :: 0 <= i < |s| && IsLowerHexDigit(s[i]) ==> IsUpperHexDigit(t[i])
    ensures forall i :: 0 <= i < |s| && !('a' <= s[i] <= 'z') ==> t[i] == s[i]
    ensures forall i :: 0 <= i < |t| ==> !('a' <= t[i] <= 'z')
  {
    seq(|s|, i requires 0 <= i < |s| => UpperChar(s[i]))
  }

  /** Base16 encoding of section 8 of RFC 4648: upper-case digits, high nibble first. */
  function EncodeUpper(bytes: seq<bv8>): (s: string)
    ensures |s| == 2 * |bytes|
    ensures forall i :: 0 <= i < |s| ==> IsUpperHexDigit(s[i])
  {
    if bytes == [] then ""
    else [UpperDigit(bytes[0] as int / 16), UpperDigit(bytes[0] as int % 16)] + EncodeUpper(bytes[1..])
  }

  /** Base16 decoding that accepts only upper-case digits and an even length. */
  function Decode(s: string): (r: Option<seq<bv8>>)
    ensures r.Some? ==> 2 * |r.value| == |s|
    decreases |s|
  {
    if |s| == 0 then Some([])
    else if |s| == 1 then None
    else
      match (DigitValue(s[0]), DigitValue(s[1]), Decode(s[2..]))
      case (Some(hi), Some(lo), Some(rest)) => Some([(hi * 16 + lo) as bv8] + rest)
      case _ => None
  }

  lemma UpperOfLowerDigit(n: nat)
    requires n < 16
    ensures UpperChar(LowerDigit(n)) == UpperDigit(n)
  {
  }

  /** Upper-casing Node's lower-case hex text gives exactly the RFC 4648 base16 text. */
  lemma {:induction false} UpperOfLowerIsBase16(bytes: seq<bv8>)
    ensures ToUpperCase(EncodeLower(bytes)) == EncodeUpper(bytes)
  {
    if bytes != [] {
      UpperOfLowerIsBase16(bytes[1..]);
      var lower, upper := EncodeLower(bytes), EncodeUpper(bytes);
      var lowerRest, upperRest := EncodeLower(bytes[1..]), EncodeUpper(bytes[1..]);
      var hi, lo := bytes[0] as int / 16, bytes[0] as int % 16;
      assert lower == [LowerDigit(hi), LowerDigit(lo)] + lowerRest;
      assert upper == [UpperDigit(hi), UpperDigit(lo)] + upperRest;
      UpperOfLowerDigit(hi);
      UpperOfLowerDigit(lo);
      var t := ToUpperCase(lower);
      forall i | 0 <= i < |lower|
        ensures t[i] == upper[i]
      {
        if i >= 2 {
          assert lower[i] == lowerRest[i - 2];
          assert ToUpperCase(lowerRest)[i - 2] == UpperChar(lowerRest[i - 2]);
        }
      }
    }
  }

  /** The text a binary column value becomes: `buffer.toString('hex').toUpperCase()`.
      It is the base16 text of the bytes, two upper-case digits per byte, and
      decoding it gives the bytes back. */
  function BufferToUpperHex(bytes: seq<bv8>): (s: string)
    ensures s == EncodeUpper(bytes)
    ensures |s| == 2 * |bytes| && |s| % 2 == 0
    ensures forall i :: 0 <= i < |s| ==> IsUpperHexDigit(s[i]) && !('a' <= s[i] <= 'z')
    ensures Decode(s) == Some(bytes)
  {
    UpperOfLowerIsBase16(bytes);
    DecodeEncode(bytes);
    ToUpperCase(EncodeLower(bytes))
  }

  lemma ByteSplit(x: bv8)
    ensures ((x as int / 16) * 16 + x as int % 16) as bv8 == x
  {
  }

  lemma ByteJoin(hi: nat, lo: nat)
    requires hi < 16 && lo < 16
    ensures ((hi * 16 + lo) as bv8) as int / 16 == hi
    ensures ((hi * 16 + lo) as bv8) as int % 16 == lo
  {
    assert ((hi * 16 + lo) as bv8) as int == hi * 16 + lo;
  }

  /** One step of the decoder: two digits in front of a decodable rest. */
  lemma DecodeStep(hi: nat, lo: nat, rest: string, tail: seq<bv8>)
    requires hi < 16 && lo < 16 && Decode(rest) == Some(tail)
    ensures Decode([UpperDigit(hi), UpperDigit(lo)] + rest) == Some([(hi * 16 + lo) as bv8] + tail)
  {
    var s := [UpperDigit(hi), UpperDigit(lo)] + rest;
    assert s[2..] == rest;
  }

  /** Round trip: decoding the base16 text of any bytes gives those bytes. */
  lemma {:induction false} DecodeEncode(bytes: seq<bv8>)
    ensures Decode(EncodeUpper(bytes)) == Some(bytes)
  {
    if bytes != [] {
      var hi, lo := bytes[0] as int / 16, bytes[0] as int % 16;
      DecodeEncode(bytes[1..]);
      DecodeStep(hi, lo, EncodeUpper(bytes[1..]), bytes[1..]);
      ByteSplit(bytes[0]);
      assert [bytes[0]] + bytes[1..] == bytes;
    }
  }

  /** The decoder accepts every even-length text of upper-case base16 digits. */
  lemma {:induction false} DecodeAcceptsBase16(s: string)
    requires |s| % 2 == 0
    requires forall i :: 0 <= i < |s| ==> IsUpperHexDigit(s[i])
    ensures Decode(s).Some?
  {
    if |s| >= 2 {
      assert forall i :: 0 <= i < |s[2..]| ==> s[2..][i] == s[i + 2];
      DecodeAcceptsBase16(s[2..]);
      assert IsUpperHexDigit(s[0]) && IsUpperHexDigit(s[1]);
    }
  }

  /** The converse: a text the decoder accepts is the base16 text of what it
      decodes to. With `DecodeAcceptsBase16`, the encoding is onto the
      upper-case even-length digit strings. */
  lemma {:induction false} EncodeDecode(s: string, bytes: seq<bv8>)
    requires Decode(s) == Some(bytes)
    ensures EncodeUpper(bytes) == s
  {
    if |s| >= 2 {
      var hi := DigitValue(s[0]).value;
      var lo := DigitValue(s[1]).value;
      var rest := Decode(s[2..]).value;
      assert bytes == [(hi * 16 + lo) as bv8] + rest;
      EncodeDecode(s[2..], rest);
      ByteJoin(hi, lo);
      assert UpperDigit(hi) == s[0];
      assert UpperDigit(lo) == s[1];
      assert bytes[1..] == rest;
      assert s == [s[0], s[1]] + s[2..];
    }
  }
}
