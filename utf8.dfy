/**
 * UTF-8 (RFC 3629) over Unicode scalar values. In the frontend the pair
 * `unescape(encodeURIComponent(text))` turns a string into the string of its
 * UTF-8 bytes, and `decodeURIComponent(escape(bytes))` turns it back, raising
 * URIError when the bytes are not well-formed UTF-8; these two functions are
 * those compositions.
 */
module Utf8 {
  import opened Wrappers

  type Byte = b: int | 0 <= b < 256

  predicate IsContinuation(b: Byte) {
    0x80 <= b <= 0xBF
  }

  /** The one to four bytes that encode one scalar value. */
  function EncodeScalar(c: char): (bs: seq<Byte>)
    ensures 1 <= |bs| <= 4
    ensures (|bs| == 1) <==> c as int < 0x80
    ensures forall i :: 1 <= i < |bs| ==> IsContinuation(bs[i])
  {
    var n := c as int;
    if n < 0x80 then [n]
    else if n < 0x800 then [0xC0 + n / 64, 0x80 + n % 64]
    else if n < 0x10000 then [0xE0 + n / 4096, 0x80 + (n / 64) % 64, 0x80 + n % 64]
    else [0xF0 + n / 0x40000, 0x80 + (n / 4096) % 64, 0x80 + (n / 64) % 64, 0x80 + n % 64]
  }

  function Encode(s: string): (bs: seq<Byte>)
    ensures |s| <= |bs| <= 4 * |s|
    decreases |s|
  {
    if s == [] then [] else EncodeScalar(s[0]) + Encode(s[1..])
  }

  /** Decodes the scalar value at the front of `bs` and says how many bytes it
      took; overlong forms, surrogates and values past U+10FFFF are refused. */
  function DecodeFirst(bs: seq<Byte>): (r: Option<(char, nat)>)
    requires |bs| > 0
    ensures r.Some? ==> 1 <= r.value.1 <= |bs| && r.value.1 <= 4
  {
    var b0: int := bs[0];
    if b0 < 0x80 then Some((b0 as char, 1))
    else if 0xC2 <= b0 <= 0xDF then
      if |bs| >= 2 && IsContinuation(bs[1]) then
        Some((((b0 - 0xC0) * 64 + (bs[1] as int - 0x80)) as char, 2))
      else None
    else if 0xE0 <= b0 <= 0xEF then
      if |bs| >= 3 && IsContinuation(bs[1]) && IsContinuation(bs[2]) then
        var n := (b0 - 0xE0) * 4096 + (bs[1] as int - 0x80) * 64 + (bs[2] as int - 0x80);
        if n < 0x800 || (0xD800 <= n <= 0xDFFF) then None else Some((n as char, 3))
      else None
    else if 0xF0 <= b0 <= 0xF4 then
      if |bs| >= 4 && IsContinuation(bs[1]) && IsContinuation(bs[2]) && IsContinuation(bs[3]) then
        var n := (b0 - 0xF0) * 0x40000 + (bs[1] as int - 0x80) * 4096 + (bs[2] as int - 0x80) * 64 + (bs[3] as int - 0x80);
        if n < 0x10000 || n > 0x10FFFF then None else Some((n as char, 4))
      else None
    else None
  }

  function Decode(bs: seq<Byte>): (r: Option<string>)
    ensures r.Some? ==> |r.value| <= |bs| <= 4 * |r.value|
    decreases |bs|
  {
    if bs == [] then Some([])
    else match DecodeFirst(bs)
      case None => None
      case Some((c, k)) =>
        match Decode(bs[k..])
        case None => None
        case Some(rest) => Some([c] + rest)
  }

  lemma DecodeFirstTwoBytes(n: int, tail: seq<Byte>)
    requires 0x80 <= n < 0x800
    ensures DecodeFirst([0xC0 + n / 64, 0x80 + n % 64] + tail) == Some((n as char, 2))
  {
    var bs: seq<Byte> := [0xC0 + n / 64, 0x80 + n % 64] + tail;
    assert bs[0] as int - 0xC0 == n / 64 && bs[1] as int - 0x80 == n % 64;
  }

  lemma DecodeFirstThreeBytes(n: int, tail: seq<Byte>)
    requires 0x800 <= n < 0x10000 && !(0xD800 <= n <= 0xDFFF)
    ensures DecodeFirst([0xE0 + n / 4096, 0x80 + (n / 64) % 64, 0x80 + n % 64] + tail)
            == Some((n as char, 3))
  {
    var bs: seq<Byte> := [0xE0 + n / 4096, 0x80 + (n / 64) % 64, 0x80 + n % 64] + tail;
    assert bs[0] as int - 0xE0 == n / 4096;
    assert bs[1] as int - 0x80 == (n / 64) % 64 && bs[2] as int - 0x80 == n % 64;
    assert (n / 4096) * 64 + (n / 64) % 64 == n / 64;
    assert (n / 64) * 64 + n % 64 == n;
  }

  lemma DecodeFirstFourBytes(n: int, tail: seq<Byte>)
    requires 0x10000 <= n <= 0x10FFFF
    ensures DecodeFirst([0xF0 + n / 0x40000, 0x80 + (n / 4096) % 64, 0x80 + (n / 64) % 64,
                         0x80 + n % 64] + tail)
            == Some((n as char, 4))
  {
    var bs: seq<Byte> := [0xF0 + n / 0x40000, 0x80 + (n / 4096) % 64, 0x80 + (n / 64) % 64,
                          0x80 + n % 64] + tail;
    assert bs[0] as int - 0xF0 == n / 0x40000 && bs[1] as int - 0x80 == (n / 4096) % 64;
    assert bs[2] as int - 0x80 == (n / 64) % 64 && bs[3] as int - 0x80 == n % 64;
    assert (n / 0x40000) * 64 + (n / 4096) % 64 == n / 4096;
    assert (n / 4096) * 64 + (n / 64) % 64 == n / 64;
    assert (n / 64) * 64 + n % 64 == n;
  }

  /** The encoding of one scalar value is decoded back to it, whatever follows. */
  lemma DecodeFirstOfEncodeScalar(c: char, tail: seq<Byte>)
    ensures DecodeFirst(EncodeScalar(c) + tail) == Some((c, |EncodeScalar(c)|))
  {
    var n := c as int;
    if n < 0x80 {
    } else if n < 0x800 {
      DecodeFirstTwoBytes(n, tail);
    } else if n < 0x10000 {
      DecodeFirstThreeBytes(n, tail);
    } else {
      DecodeFirstFourBytes(n, tail);
    }
  }

  /** Decoding the UTF-8 encoding of a string gives the string back. */
  lemma {:induction false} DecodeEncode(s: string)
    ensures Decode(Encode(s)) == Some(s)
    decreases |s|
  {
    if s != [] {
      var head := EncodeScalar(s[0]);
      var bs := Encode(s);
      DecodeFirstOfEncodeScalar(s[0], Encode(s[1..]));
      assert bs[|head|..] == Encode(s[1..]);
      DecodeEncode(s[1..]);
      assert [s[0]] + s[1..] == s;
    }
  }
}
