/** Go's `encoding/hex`: `EncodeToString` and `DecodeString`. */
module Hex {
  import opened Errors

  newtype byte = x: int | 0 <= x < 256

  predicate IsLowerHexDigit(c: char) {
    '0' <= c <= '9' || 'a' <= c <= 'f'
  }

  /** Every character is one of `[0-9a-f]`. */
  predicate IsLowerHex(s: string) {
    forall i :: 0 <= i < |s| ==> IsLowerHexDigit(s[i])
  }

  /** The value of a hex digit; the decoder accepts both letter cases. */
  function DigitValue(c: char): (v: Option<nat>)
    ensures v.Some? ==> v.value < 16
    ensures IsLowerHexDigit(c) ==> v.Some?
  {
    if '0' <= c <= '9' then Some(c as int - '0' as int)
    else if 'a' <= c <= 'f' then Some(c as int - 'a' as int + 10)
    else if 'A' <= c <= 'F' then Some(c as int - 'A' as int + 10)
    else None
  }

  /** The lower-case digit the encoder writes for `v`. */
  function DigitChar(v: nat): (c: char)
    requires v < 16
    ensures IsLowerHexDigit(c)
    ensures DigitValue(c) == Some(v)
  {
    if v < 10 then ('0' as int + v) as char else ('a' as int + v - 10) as char
  }

  /** `hex.EncodeToString`: two lower-case digits per byte, high nibble first. */
  function Encode(b: seq<byte>): (s: string)
    ensures |s| == 2 * |b|
    ensures IsLowerHex(s)
  {
    if |b| == 0 then ""
    else [DigitChar(b[0] as int / 16), DigitChar(b[0] as int % 16)] + Encode(b[1..])
  }

  /** `hex.DecodeString`: fails on an odd length or on a non-hex character. */
  function Decode(s: string): (r: Option<seq<byte>>)
    ensures r.Some? ==> 2 * |r.value| == |s|
    ensures IsLowerHex(s) ==> (r.Some? <==> |s| % 2 == 0)
    decreases |s|
  {
    if |s| == 0 then Some([])
    else if |s| == 1 then None
    else
      match (DigitValue(s[0]), DigitValue(s[1]), Decode(s[2..]))
      case (Some(hi), Some(lo), Some(rest)) => Some([(hi * 16 + lo) as byte] + rest)
      case _ => None
  }

  /** Decoding inverts encoding. */
  lemma {:induction false} DecodeEncode(b: seq<byte>)
    ensures Decode(Encode(b)) == Some(b)
    decreases |b|
  {
    if |b| > 0 {
      var s := Encode(b);
      DecodeEncode(b[1..]);
      assert s[2..] == Encode(b[1..]);
      assert [b[0]] + b[1..] == b;
    }
  }

  /** A lower-case digit is written back as itself. */
  lemma DigitCharValue(c: char)
    requires IsLowerHexDigit(c)
    ensures DigitChar(DigitValue(c).value) == c
  {
  }

  /** The two digits of a byte are its high and low nibble. */
  lemma Nibbles(hi: nat, lo: nat)
    requires hi < 16 && lo < 16
    ensures 0 <= hi * 16 + lo < 256
    ensures (hi * 16 + lo) / 16 == hi && (hi * 16 + lo) % 16 == lo
  {
  }

  /** Encoding inverts decoding on the lower-case, even-length strings. */
  lemma {:induction false} EncodeDecode(s: string)
    requires IsLowerHex(s) && |s| % 2 == 0
    ensures Decode(s).Some? && Encode(Decode(s).value) == s
    decreases |s|
  {
    if |s| > 0 {
      EncodeDecode(s[2..]);
      var hi := DigitValue(s[0]).value;
      var lo := DigitValue(s[1]).value;
      DigitCharValue(s[0]);
      DigitCharValue(s[1]);
      Nibbles(hi, lo);
      var b := Decode(s).value;
      assert b == [(hi * 16 + lo) as byte] + Decode(s[2..]).value;
      assert b[1..] == Decode(s[2..]).value;
      assert Encode(b) == [s[0], s[1]] + s[2..];
      assert s == [s[0], s[1]] + s[2..];
    }
  }
}
