/**
 * The device identity: `binascii.hexlify(machine.unique_id()).decode("utf-8")`,
 * that is Base16 (section 8 of RFC 4648) written with lowercase letters, two
 * characters per byte, high nibble first.
 */
module Hex {
  import opened Wrappers

  newtype byte = x: int | 0 <= x < 256

  predicate IsLowerHexDigit(c: char) { '0' <= c <= '9' || 'a' <= c <= 'f' }

  predicate IsLowerHex(s: string) { forall i :: 0 <= i < |s| ==> IsLowerHexDigit(s[i]) }

  /** The lowercase character for the nibble d. */
  function HexDigit(d: nat): (c: char)
    requires d < 16
    ensures IsLowerHexDigit(c)
  {
    if d < 10 then ('0' as int + d) as char else ('a' as int + d - 10) as char
  }

  /** The value of a hexadecimal digit; `binascii.unhexlify` accepts both cases. */
  function NibbleValue(c: char): (v: Option<nat>)
    ensures v.Some? ==> v.value < 16
    ensures v.Some? <==> ('0' <= c <= '9' || 'a' <= c <= 'f' || 'A' <= c <= 'F')
  {
    if '0' <= c <= '9' then Some(c as int - '0' as int)
    else if 'a' <= c <= 'f' then Some(c as int - 'a' as int + 10)
    else if 'A' <= c <= 'F' then Some(c as int - 'A' as int + 10)
    else None
  }

  /** binascii.hexlify, decoded as text. */
  function Hexlify(b: seq<byte>): (s: string)
    ensures |s| == 2 * |b|
    ensures IsLowerHex(s)
  {
    if |b| == 0 then []
    else [HexDigit(b[0] as int / 16), HexDigit(b[0] as int % 16)] + Hexlify(b[1..])
  }

  /** binascii.unhexlify: None for an odd length or a non-hexadecimal character. */
  function Unhexlify(s: string): (r: Option<seq<byte>>)
    ensures r.Some? ==> 2 * |r.value| == |s|
  {
    if |s| == 0 then Some([])
    else if |s| == 1 then None
    else
      match (NibbleValue(s[0]), NibbleValue(s[1]), Unhexlify(s[2..]))
      case (Some(hi), Some(lo), Some(rest)) => Some([(hi * 16 + lo) as byte] + rest)
      case _ => None
  }

  lemma NibbleOfDigit(d: nat)
    requires d < 16
    ensures NibbleValue(HexDigit(d)) == Some(d)
  {
  }

  /** Decoding the device identity gives back the unique-id bytes. */
  lemma {:induction false} UnhexlifyHexlify(b: seq<byte>)
    ensures Unhexlify(Hexlify(b)) == Some(b)
  {
    if |b| > 0 {
      var s := Hexlify(b);
      var hi, lo := b[0] as int / 16, b[0] as int % 16;
      NibbleOfDigit(hi);
      NibbleOfDigit(lo);
      assert s[2..] == Hexlify(b[1..]);
      UnhexlifyHexlify(b[1..]);
      assert (hi * 16 + lo) as byte == b[0];
      assert [b[0]] + b[1..] == b;
    }
  }

  lemma DigitOfNibble(c: char)
    requires IsLowerHexDigit(c)
    ensures NibbleValue(c).Some? && HexDigit(NibbleValue(c).value) == c
  {
  }

  lemma NibblesOfByte(hi: nat, lo: nat)
    requires hi < 16 && lo < 16
    ensures 0 <= hi * 16 + lo < 256
    ensures (hi * 16 + lo) / 16 == hi && (hi * 16 + lo) % 16 == lo
  {
  }

  /** Every even-length lowercase hexadecimal string is the identity of exactly one byte string. */
  lemma {:induction false} HexlifyUnhexlify(s: string)
    requires IsLowerHex(s) && |s| % 2 == 0
    ensures Unhexlify(s).Some? && Hexlify(Unhexlify(s).value) == s
  {
    if |s| > 0 {
      DigitOfNibble(s[0]);
      DigitOfNibble(s[1]);
      assert IsLowerHex(s[2..]) by {
        forall i | 0 <= i < |s[2..]| ensures IsLowerHexDigit(s[2..][i]) {
          assert s[2..][i] == s[i + 2];
        }
      }
      HexlifyUnhexlify(s[2..]);
      var hi, lo := NibbleValue(s[0]).value, NibbleValue(s[1]).value;
      NibblesOfByte(hi, lo);
      var b := (hi * 16 + lo) as byte;
      var rest := Unhexlify(s[2..]).value;
      assert Unhexlify(s).value == [b] + rest;
      assert ([b] + rest)[1..] == rest;
      assert s == [s[0], s[1]] + s[2..];
    }
  }
}
