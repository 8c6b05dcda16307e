/**
 * Lowercase hexadecimal rendering of digests: two digits per byte, zero-padded.
 * This is what `Integer.toHexString(0xff & b)` plus the '0' padding in
 * ChunkingService.calculateHash produces, and also what Guava's
 * `HashCode.toString()` and commons-codec's `Hex.encodeHexString` produce.
 */
module Hex {
  import opened Wrappers
  import opened Bytes

  /** The lowercase digit for a nibble value. */
  function HexDigit(n: int): (c: char)
    requires 0 <= n < 16
    ensures '0' <= c <= '9' || 'a' <= c <= 'f'
  {
    if n < 10 then ('0' as int + n) as char else ('a' as int + n - 10) as char
  }

  /** The nibble value of a lowercase hex digit, or None for any other character. */
  function DigitValue(c: char): (r: Option<int>)
    ensures r.Some? ==> 0 <= r.value < 16 && HexDigit(r.value) == c
  {
    if '0' <= c <= '9' then Some(c as int - '0' as int)
    else if 'a' <= c <= 'f' then Some(c as int - 'a' as int + 10)
    else None
  }

  /** `Integer.toHexString(v)` for 0 <= v < 256: no leading zero. */
  function ToHexString(v: int): (s: string)
    requires 0 <= v < 256
  {
    if v < 16 then [HexDigit(v)] else [HexDigit(v / 16), HexDigit(v % 16)]
  }

  /** The two zero-padded digits of one byte. */
  function ByteHex(b: byte): string
  {
    [HexDigit(b as int / 16), HexDigit(b as int % 16)]
  }

  /** Hex encoding of a byte string, built left to right as a StringBuilder would. */
  function HexEncode(bs: seq<byte>): (s: string)
    ensures |s| == 2 * |bs|
  {
    if bs == [] then [] else HexEncode(bs[..|bs| - 1]) + ByteHex(bs[|bs| - 1])
  }

  /** Byte k becomes characters 2k and 2k + 1: its high nibble's digit, then its low nibble's. */
  lemma {:induction false} HexEncodeDigits(bs: seq<byte>)
    ensures forall k :: 0 <= k < |bs| ==>
      HexEncode(bs)[2 * k] == HexDigit(bs[k] as int / 16) && HexEncode(bs)[2 * k + 1] == HexDigit(bs[k] as int % 16)
  {
    if bs != [] {
      var n := |bs| - 1;
      HexEncodeDigits(bs[..n]);
      assert HexEncode(bs) == HexEncode(bs[..n]) + ByteHex(bs[n]);
      forall k | 0 <= k < n
        ensures HexEncode(bs)[2 * k] == HexDigit(bs[k] as int / 16)
        ensures HexEncode(bs)[2 * k + 1] == HexDigit(bs[k] as int % 16)
      {
        assert bs[..n][k] == bs[k];
      }
    }
  }

  /** Inverse of HexEncode: None for odd length or a non-hex (or upper-case) digit. */
  function HexDecode(s: string): (r: Option<seq<byte>>)
    ensures r.Some? ==> 2 * |r.value| == |s|
  {
    if s == [] then Some([])
    else if |s| < 2 then None
    else
      match (DigitValue(s[|s| - 2]), DigitValue(s[|s| - 1]), HexDecode(s[..|s| - 2]))
      case (Some(hi), Some(lo), Some(prefix)) => Some(prefix + [(hi * 16 + lo) as byte])
      case _ => None
  }

  /** Padding the unpadded `Integer.toHexString` output to two digits gives ByteHex. */
  lemma PaddedToHexString(b: byte)
    ensures var h := ToHexString(b as int);
      (if |h| == 1 then "0" + h else h) == ByteHex(b)
  {
  }

  /** The two digits of one byte decode back to that byte. */
  lemma ByteHexDecodes(b: byte)
    ensures var hi, lo := DigitValue(ByteHex(b)[0]), DigitValue(ByteHex(b)[1]);
      hi == Some(b as int / 16) && lo == Some(b as int % 16) && (hi.value * 16 + lo.value) as byte == b
  {
  }

  /** Two more digits decode to one more byte. */
  lemma HexDecodeSnoc(p: string, prefix: seq<byte>, b: byte)
    requires HexDecode(p) == Some(prefix)
    ensures HexDecode(p + ByteHex(b)) == Some(prefix + [b])
  {
    var s := p + ByteHex(b);
    assert s[..|s| - 2] == p;
    ByteHexDecodes(b);
  }

  /** Decoding an encoding gives the bytes back. */
  lemma {:induction false} HexRoundTrip(bs: seq<byte>)
    ensures HexDecode(HexEncode(bs)) == Some(bs)
  {
    if bs != [] {
      var prefix, last := bs[..|bs| - 1], bs[|bs| - 1];
      assert bs == prefix + [last];
      assert HexEncode(bs) == HexEncode(prefix) + ByteHex(last);
      HexRoundTrip(prefix);
      HexDecodeSnoc(HexEncode(prefix), prefix, last);
    }
  }

  /** Two byte strings with the same hex encoding are equal. */
  lemma HexEncodeInjective(a: seq<byte>, b: seq<byte>)
    requires HexEncode(a) == HexEncode(b)
    ensures a == b
  {
    HexRoundTrip(a);
    HexRoundTrip(b);
  }
}
