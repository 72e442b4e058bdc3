/**
 * Base64 with the standard alphabet and `=` padding (section 4 of RFC 4648):
 * `Encode` is the browser's `btoa` on a string of byte-valued characters, and
 * `Atob` is the browser's `atob`, the "forgiving-base64 decode" of the WHATWG
 * Infra standard (ASCII whitespace dropped, padding optional, stray bits
 * after the last whole byte ignored).
 */
module Base64 {
  import opened Wrappers
  import opened Utf8

  /** The alphabet character for a 6-bit value. */
  function Symbol(i: int): (c: char)
    requires 0 <= i < 64
  {
    if i < 26 then ('A' as int + i) as char
    else if i < 52 then ('a' as int + i - 26) as char
    else if i < 62 then ('0' as int + i - 52) as char
    else if i == 62 then '+'
    else '/'
  }

  /** The 6-bit value of an alphabet character; nothing for any other character. */
  function SymbolValue(c: char): (r: Option<int>)
    ensures r.Some? ==> 0 <= r.value < 64 && Symbol(r.value) == c
  {
    if 'A' <= c <= 'Z' then Some(c as int - 'A' as int)
    else if 'a' <= c <= 'z' then Some(c as int - 'a' as int + 26)
    else if '0' <= c <= '9' then Some(c as int - '0' as int + 52)
    else if c == '+' then Some(62)
    else if c == '/' then Some(63)
    else None
  }

  lemma SymbolValueOfSymbol(i: int)
    requires 0 <= i < 64
    ensures SymbolValue(Symbol(i)) == Some(i)
  {
  }

  predicate IsSymbol(c: char) {
    SymbolValue(c).Some?
  }

  /** The four characters of a whole group of three bytes. */
  function Group3(b0: Byte, b1: Byte, b2: Byte): (s: string)
    ensures |s| == 4 && forall i :: 0 <= i < 4 ==> IsSymbol(s[i])
  {
    [Symbol(b0 / 4), Symbol((b0 % 4) * 16 + b1 / 16), Symbol((b1 % 16) * 4 + b2 / 64), Symbol(b2 % 64)]
  }

  /** The three characters of a last group of two bytes. */
  function Group2(b0: Byte, b1: Byte): (s: string)
    ensures |s| == 3 && forall i :: 0 <= i < 3 ==> IsSymbol(s[i])
  {
    [Symbol(b0 / 4), Symbol((b0 % 4) * 16 + b1 / 16), Symbol((b1 % 16) * 4)]
  }

  /** The two characters of a last group of one byte. */
  function Group1(b0: Byte): (s: string)
    ensures |s| == 2 && forall i :: 0 <= i < 2 ==> IsSymbol(s[i])
  {
    [Symbol(b0 / 4), Symbol((b0 % 4) * 16)]
  }

  /** The alphabet characters for `bs`, three bytes to four characters; a last
      group of one or two bytes gives two or three characters. */
  function Unpadded(bs: seq<Byte>): (s: string)
    ensures forall i :: 0 <= i < |s| ==> IsSymbol(s[i])
    decreases |bs|
  {
    if |bs| == 0 then []
    else if |bs| == 1 then Group1(bs[0])
    else if |bs| == 2 then Group2(bs[0], bs[1])
    else
      var s := Group3(bs[0], bs[1], bs[2]) + Unpadded(bs[3..]);
      assert forall i :: 4 <= i < |s| ==> s[i] == Unpadded(bs[3..])[i - 4];
      s
  }

  /** Four characters for each whole group of three bytes, two or three for
      a last partial group. */
  lemma UnpaddedLength(bs: seq<Byte>)
    ensures |Unpadded(bs)| == (|bs| / 3) * 4 + TailLength(|bs| % 3)
    ensures |Unpadded(bs)| % 4 == TailLength(|bs| % 3)
    ensures |Unpadded(bs)| + |Padding(|bs| % 3)| == 4 * ((|bs| + 2) / 3)
  {
    UnpaddedCount(bs);
    LengthArithmetic(|bs|);
  }

  /** The characters of a last partial group of `r` bytes. */
  function TailLength(r: nat): nat {
    if r == 0 then 0 else r + 1
  }

  lemma {:induction false} UnpaddedCount(bs: seq<Byte>)
    ensures |Unpadded(bs)| == (|bs| / 3) * 4 + TailLength(|bs| % 3)
    decreases |bs|
  {
    if |bs| >= 3 {
      UnpaddedCount(bs[3..]);
      var n := |bs|;
      assert (n - 3) / 3 == n / 3 - 1 && (n - 3) % 3 == n % 3;
    }
  }

  lemma LengthArithmetic(n: nat)
    ensures ((n / 3) * 4 + TailLength(n % 3)) % 4 == TailLength(n % 3)
    ensures (n / 3) * 4 + TailLength(n % 3) + |Padding(n % 3)| == 4 * ((n + 2) / 3)
    ensures (4 * ((n + 2) / 3)) % 4 == 0
  {
    var q, r := n / 3, n % 3;
    assert n == 3 * q + r;
    assert (n + 2) / 3 == q + (r + 2) / 3;
  }

  function Padding(rest: nat): string {
    if rest == 1 then "==" else if rest == 2 then "=" else ""
  }

  /** `btoa`: the padded encoding, always a multiple of four characters. */
  function Encode(bs: seq<Byte>): (s: string)
    ensures |s| % 4 == 0 && |s| == 4 * ((|bs| + 2) / 3)
  {
    LengthArithmetic(|bs|);
    UnpaddedLength(bs);
    Unpadded(bs) + Padding(|bs| % 3)
  }

  /** ASCII whitespace in the sense of the WHATWG Infra standard. */
  predicate IsAsciiWhitespace(c: char) {
    c == '\t' || c == '\n' || c == '\U{000C}' || c == '\r' || c == ' '
  }

  function StripAsciiWhitespace(s: string): (r: string)
    ensures forall i :: 0 <= i < |r| ==> !IsAsciiWhitespace(r[i])
    ensures (forall i :: 0 <= i < |s| ==> !IsAsciiWhitespace(s[i])) ==> r == s
    decreases |s|
  {
    if s == [] then []
    else if IsAsciiWhitespace(s[0]) then StripAsciiWhitespace(s[1..])
    else [s[0]] + StripAsciiWhitespace(s[1..])
  }

  /** Groups of four symbols to three bytes; a last group of two or three
      symbols gives one or two bytes, dropping the leftover bits. */
  function DecodeSymbols(u: string): (r: Option<seq<Byte>>)
    ensures r.Some? ==> |u| % 4 != 1 && |r.value| == (3 * |u|) / 4
    decreases |u|
  {
    if |u| == 0 then Some([])
    else if |u| == 1 then None
    else
      var c0 := SymbolValue(u[0]);
      var c1 := SymbolValue(u[1]);
      if c0.None? || c1.None? then None
      else if |u| == 2 then
        Some([c0.value * 4 + c1.value / 16])
      else
        var c2 := SymbolValue(u[2]);
        if c2.None? then None
        else if |u| == 3 then
          Some([c0.value * 4 + c1.value / 16, (c1.value % 16) * 16 + c2.value / 4])
        else
          var c3 := SymbolValue(u[3]);
          if c3.None? then None
          else match DecodeSymbols(u[4..])
            case None => None
            case Some(rest) =>
              Some([c0.value * 4 + c1.value / 16, (c1.value % 16) * 16 + c2.value / 4,
                    (c2.value % 4) * 64 + c3.value] + rest)
  }

  /** `atob`: the forgiving-base64 decode; `None` is the exception it raises. */
  function Atob(s: string): (r: Option<seq<Byte>>)
    ensures var u := StripPadding(StripAsciiWhitespace(s));
            r.Some? ==> |u| % 4 != 1 && |r.value| == (3 * |u|) / 4
  {
    var u := StripPadding(StripAsciiWhitespace(s));
    if |u| % 4 == 1 then None else DecodeSymbols(u)
  }

  /** One or two trailing `=` are dropped when the length is a multiple of four. */
  function StripPadding(t: string): string {
    if |t| % 4 == 0 && |t| >= 2 && t[|t| - 2..] == "==" then t[..|t| - 2]
    else if |t| % 4 == 0 && |t| >= 1 && t[|t| - 1] == '=' then t[..|t| - 1]
    else t
  }

  lemma DecodeOneGroup(b0: Byte, b1: Byte, b2: Byte)
    ensures SymbolValue(Symbol(b0 / 4)) == Some(b0 / 4)
    ensures SymbolValue(Symbol((b0 % 4) * 16 + b1 / 16)) == Some((b0 % 4) * 16 + b1 / 16)
    ensures SymbolValue(Symbol((b1 % 16) * 4 + b2 / 64)) == Some((b1 % 16) * 4 + b2 / 64)
    ensures SymbolValue(Symbol(b2 % 64)) == Some(b2 % 64)
    ensures (b0 / 4) * 4 + ((b0 % 4) * 16 + b1 / 16) / 16 == b0
    ensures (((b0 % 4) * 16 + b1 / 16) % 16) * 16 + ((b1 % 16) * 4 + b2 / 64) / 4 == b1
    ensures (((b1 % 16) * 4 + b2 / 64) % 4) * 64 + b2 % 64 == b2
  {
    SymbolValueOfSymbol(b0 / 4);
    SymbolValueOfSymbol((b0 % 4) * 16 + b1 / 16);
    SymbolValueOfSymbol((b1 % 16) * 4 + b2 / 64);
    SymbolValueOfSymbol(b2 % 64);
  }

  lemma DecodeLastOne(b0: Byte)
    ensures DecodeSymbols(Group1(b0)) == Some([b0])
  {
    DecodeOneGroup(b0, 0, 0);
  }

  lemma DecodeLastTwo(b0: Byte, b1: Byte)
    ensures DecodeSymbols(Group2(b0, b1)) == Some([b0, b1])
  {
    DecodeOneGroup(b0, b1, 0);
  }

  lemma DecodeFullGroup(b0: Byte, b1: Byte, b2: Byte, rest: string, tail: seq<Byte>)
    requires DecodeSymbols(rest) == Some(tail)
    ensures DecodeSymbols(Group3(b0, b1, b2) + rest) == Some([b0, b1, b2] + tail)
  {
    var x0, x1, x2, x3 := b0 / 4, (b0 % 4) * 16 + b1 / 16, (b1 % 16) * 4 + b2 / 64, b2 % 64;
    var u := Group3(b0, b1, b2) + rest;
    DecodeOneGroup(b0, b1, b2);
    assert SymbolValue(u[0]) == Some(x0) && SymbolValue(u[1]) == Some(x1);
    assert SymbolValue(u[2]) == Some(x2) && SymbolValue(u[3]) == Some(x3);
    assert |u| >= 4 && u[4..] == rest;
    var y0: Byte, y1: Byte, y2: Byte := x0 * 4 + x1 / 16, (x1 % 16) * 16 + x2 / 4, (x2 % 4) * 64 + x3;
    assert DecodeSymbols(u) == Some([y0, y1, y2] + tail);
    assert y0 == b0 && y1 == b1 && y2 == b2;
  }

  /** The symbols of `bs` decode back to `bs`. */
  lemma {:induction false} DecodeUnpadded(bs: seq<Byte>)
    ensures DecodeSymbols(Unpadded(bs)) == Some(bs)
    decreases |bs|
  {
    if |bs| >= 3 {
      DecodeUnpadded(bs[3..]);
      DecodeUnpaddedStep(bs);
    } else if |bs| > 0 {
      DecodeUnpaddedShort(bs);
    }
  }

  /** A last group of one or two bytes. */
  lemma DecodeUnpaddedShort(bs: seq<Byte>)
    requires 1 <= |bs| <= 2
    ensures DecodeSymbols(Unpadded(bs)) == Some(bs)
  {
    if |bs| == 1 {
      DecodeLastOne(bs[0]);
      assert bs == [bs[0]];
    } else {
      DecodeLastTwo(bs[0], bs[1]);
      assert bs == [bs[0], bs[1]];
    }
  }

  /** A whole group of three bytes in front of a tail that decodes back. */
  lemma DecodeUnpaddedStep(bs: seq<Byte>)
    requires |bs| >= 3
    requires DecodeSymbols(Unpadded(bs[3..])) == Some(bs[3..])
    ensures DecodeSymbols(Unpadded(bs)) == Some(bs)
  {
    UnpaddedCons(bs);
    SplitThree(bs);
    DecodeFullGroup(bs[0], bs[1], bs[2], Unpadded(bs[3..]), bs[3..]);
  }

  lemma UnpaddedCons(bs: seq<Byte>)
    requires |bs| >= 3
    ensures Unpadded(bs) == Group3(bs[0], bs[1], bs[2]) + Unpadded(bs[3..])
  {
  }

  lemma SplitThree(bs: seq<Byte>)
    requires |bs| >= 3
    ensures [bs[0], bs[1], bs[2]] + bs[3..] == bs
  {
  }

  lemma EncodeHasNoWhitespace(bs: seq<Byte>)
    ensures StripAsciiWhitespace(Encode(bs)) == Encode(bs)
  {
    var u := Unpadded(bs);
    var t := Encode(bs);
    forall i | 0 <= i < |t| ensures !IsAsciiWhitespace(t[i]) {
      if i < |u| {
        assert t[i] == u[i] && IsSymbol(u[i]);
      }
    }
  }

  /** Padding removal in `Atob` recovers exactly the symbols `Encode` wrote. */
  lemma PaddingRemoved(bs: seq<Byte>)
    ensures StripPadding(Encode(bs)) == Unpadded(bs)
  {
    var u := Unpadded(bs);
    var t := Encode(bs);
    UnpaddedLength(bs);
    if |bs| % 3 == 1 {
      assert t[|t| - 2..] == "==" && t[..|t| - 2] == u;
    } else if |bs| % 3 == 2 {
      assert IsSymbol(u[|u| - 1]);
      assert t[|t| - 2] == u[|u| - 1];
      assert t[|t| - 2..] != "==";
      assert t[|t| - 1] == '=' && t[..|t| - 1] == u;
    } else if |bs| > 0 {
      assert t == u && IsSymbol(u[|u| - 1]);
    }
  }

  /** `atob(btoa(bs)) == bs`. */
  lemma AtobEncode(bs: seq<Byte>)
    ensures Atob(Encode(bs)) == Some(bs)
  {
    var u := Unpadded(bs);
    EncodeHasNoWhitespace(bs);
    PaddingRemoved(bs);
    UnpaddedLength(bs);
    assert |u| % 4 != 1;
    DecodeUnpadded(bs);
  }
}
