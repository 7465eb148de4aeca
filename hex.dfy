/** Base16 as Go's `encoding/hex` implements it (section 8 of RFC 4648):
    `EncodeToString` writes lowercase digits, `DecodeString` accepts either case
    and fails on an odd length or a non-hex character. */
module Hex {
  import opened Basics

  predicate IsLowerHexDigit(c: char) {
    '0' <= c <= '9' || 'a' <= c <= 'f'
  }

  /** The lowercase digit for a nibble. */
  function DigitChar(n: int): (c: char)
    requires 0 <= n < 16
    ensures IsLowerHexDigit(c)
  {
    if n < 10 then ('0' as int + n) as char else ('a' as int + n - 10) as char
  }

  /** An uppercase letter A-F as its lowercase digit; any other character unchanged. */
  function LowerChar(c: char): char {
    if 'A' <= c <= 'F' then (c as int + 32) as char else c
  }

  /** The value of a hex digit of either case; `None` for any other character. */
  function DigitValue(c: char): (r: Option<int>)
    ensures r.Some? ==> 0 <= r.value < 16
    ensures r.Some? <==> IsLowerHexDigit(c) || 'A' <= c <= 'F'
    ensures r.Some? ==> DigitChar(r.value) == LowerChar(c)
  {
    if '0' <= c <= '9' then Some(c as int - '0' as int)
    else if 'a' <= c <= 'f' then Some(c as int - 'a' as int + 10)
    else if 'A' <= c <= 'F' then Some(c as int - 'A' as int + 10)
    else None
  }

  /** `hex.EncodeToString`: two lowercase digits per byte, high nibble first. */
  function Encode(bs: seq<byte>): (s: string)
    ensures |s| == 2 * |bs|
    ensures forall i :: 0 <= i < |s| ==> IsLowerHexDigit(s[i])
    decreases |bs|
  {
    if bs == [] then ""
    else [DigitChar(bs[0] as int / 16), DigitChar(bs[0] as int % 16)] + Encode(bs[1..])
  }

  /** `hex.DecodeString`: `None` stands for its error. */
  function Decode(s: string): (r: Option<seq<byte>>)
    ensures r.Some? ==> 2 * |r.value| == |s|
    decreases |s|
  {
    if s == [] then Some([])
    else if |s| == 1 then None
    else
      match (DigitValue(s[0]), DigitValue(s[1]), Decode(s[2..]))
      case (Some(hi), Some(lo), Some(rest)) => Some([(hi * 16 + lo) as byte] + rest)
      case _ => None
  }

  lemma DigitRoundTrip(n: int)
    requires 0 <= n < 16
    ensures DigitValue(DigitChar(n)) == Some(n)
  {
  }

  /** Decoding inverts encoding. */
  lemma {:induction false} DecodeEncode(bs: seq<byte>)
    ensures Decode(Encode(bs)) == Some(bs)
    decreases |bs|
  {
    if bs != [] {
      var s := Encode(bs);
      var b := bs[0] as int;
      assert s[2..] == Encode(bs[1..]);
      DigitRoundTrip(b / 16);
      DigitRoundTrip(b % 16);
      DecodeEncode(bs[1..]);
      assert [(b / 16 * 16 + b % 16) as byte] + bs[1..] == bs;
    }
  }

  /** `DecodeString` fails exactly on an odd length or a character outside 0-9, a-f, A-F. */
  lemma {:induction false} DecodeAccepts(s: string)
    ensures Decode(s).Some? <==>
      |s| % 2 == 0 && forall i :: 0 <= i < |s| ==> DigitValue(s[i]).Some?
    decreases |s|
  {
    if |s| >= 2 {
      DecodeAccepts(s[2..]);
      assert forall i :: 2 <= i < |s| ==> s[i] == s[2..][i - 2];
    }
  }

  /** Every character of `s` passed through `LowerChar`. */
  function Lowered(s: string): (t: string)
    ensures |t| == |s|
    ensures forall i :: 0 <= i < |s| ==> t[i] == LowerChar(s[i])
  {
    seq(|s|, i requires 0 <= i < |s| => LowerChar(s[i]))
  }

  /** Decoding ignores the case of the letters A-F: a string decodes exactly as its
      lowercase form does, so with `DecodeEncode` the uppercase hex of a byte
      string decodes to that byte string too. */
  lemma {:induction false} DecodeIgnoresCase(s: string)
    ensures Decode(s) == Decode(Lowered(s))
    decreases |s|
  {
    var t := Lowered(s);
    if |s| >= 2 {
      DecodeIgnoresCase(s[2..]);
      assert t[2..] == Lowered(s[2..]);
      assert DigitValue(t[0]) == DigitValue(s[0]);
      assert DigitValue(t[1]) == DigitValue(s[1]);
    }
  }
}
