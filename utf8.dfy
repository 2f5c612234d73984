/**
 * UTF-8, as `String.getBytes(StandardCharsets.UTF_8)` produces it, over strings of
 * Unicode scalar values (a Dafny `char` is one scalar value). The decoder is the
 * partner that shows the encoding loses nothing.
 */
module Utf8 {
  import opened Wrappers
  import opened Bytes

  /** A continuation byte `10xxxxxx` carrying the six bits `bits`. */
  function Cont(bits: int): byte
    requires 0 <= bits < 0x40
  {
    0x80 + bits
  }

  predicate IsCont(b: byte)
  {
    0x80 <= b < 0xC0
  }

  /** The one to four bytes of a single scalar value. */
  function EncodeChar(c: char): (bs: seq<byte>)
    ensures 1 <= |bs| <= 4
    ensures |bs| == 1 <==> (c as int) < 0x80
    ensures |bs| == 1 ==> bs[0] == c as int
    ensures forall k :: 1 <= k < |bs| ==> IsCont(bs[k])
  {
    var cp := c as int;
    if cp < 0x80 then [cp]
    else if cp < 0x800 then [0xC0 + cp / 0x40, Cont(cp % 0x40)]
    else if cp < 0x1_0000 then [0xE0 + cp / 0x40 / 0x40, Cont(cp / 0x40 % 0x40), Cont(cp % 0x40)]
    else [0xF0 + cp / 0x40 / 0x40 / 0x40, Cont(cp / 0x40 / 0x40 % 0x40), Cont(cp / 0x40 % 0x40), Cont(cp % 0x40)]
  }

  /** The UTF-8 bytes of `s`, character by character. */
  function Encode(s: string): (bs: seq<byte>)
    ensures |s| <= |bs| <= 4 * |s|
    ensures s == [] <==> bs == []
  {
    if s == [] then [] else EncodeChar(s[0]) + Encode(s[1..])
  }

  predicate IsScalar(cp: int)
  {
    0 <= cp < 0xD800 || 0xE000 <= cp < 0x11_0000
  }

  /** Decodes the scalar value at the head of `bs` together with the number of bytes it
      occupies; rejects stray continuation bytes, overlong forms, surrogates and values
      beyond U+10FFFF. */
  function DecodeFirst(bs: seq<byte>): (r: Option<(char, nat)>)
    ensures r.Some? ==> 1 <= r.value.1 <= |bs|
  {
    if |bs| == 0 then None
    else if bs[0] < 0x80 then Some((bs[0] as char, 1))
    else if bs[0] < 0xC0 then None
    else if bs[0] < 0xE0 then
      if |bs| < 2 || !IsCont(bs[1]) then None
      else
        var cp := (bs[0] as int - 0xC0) * 0x40 + (bs[1] as int - 0x80);
        if cp < 0x80 then None else Some((cp as char, 2))
    else if bs[0] < 0xF0 then
      if |bs| < 3 || !IsCont(bs[1]) || !IsCont(bs[2]) then None
      else
        var cp := (bs[0] as int - 0xE0) * 0x1000 + (bs[1] as int - 0x80) * 0x40 + (bs[2] as int - 0x80);
        if cp < 0x800 || !IsScalar(cp) then None else Some((cp as char, 3))
    else
      if |bs| < 4 || !IsCont(bs[1]) || !IsCont(bs[2]) || !IsCont(bs[3]) then None
      else
        var cp := (bs[0] as int - 0xF0) * 0x4_0000 + (bs[1] as int - 0x80) * 0x1000 + (bs[2] as int - 0x80) * 0x40 + (bs[3] as int - 0x80);
        if cp < 0x1_0000 || !IsScalar(cp) then None else Some((cp as char, 4))
  }

  /** The string whose UTF-8 encoding is `bs`, if there is one. */
  function Decode(bs: seq<byte>): Option<string>
    decreases |bs|
  {
    if bs == [] then Some([])
    else match DecodeFirst(bs)
      case None => None
      case Some((c, n)) =>
        match Decode(bs[n..])
        case None => None
        case Some(rest) => Some([c] + rest)
  }

  /** Each character's bytes decode back to that character, whatever follows them. */
  lemma DecodeFirstEncodeChar(c: char, rest: seq<byte>)
    ensures DecodeFirst(EncodeChar(c) + rest) == Some((c, |EncodeChar(c)|))
  {
    var cp := c as int;
    if cp < 0x80 {
    } else if cp < 0x800 {
      DecodeTwo(c, rest);
    } else if cp < 0x1_0000 {
      DecodeThree(c, rest);
    } else {
      DecodeFour(c, rest);
    }
  }

  lemma DecodeTwo(c: char, rest: seq<byte>)
    requires 0x80 <= c as int < 0x800
    ensures DecodeFirst(EncodeChar(c) + rest) == Some((c, 2))
  {
    var cp := c as int;
    var bs := EncodeChar(c) + rest;
    var hi, lo := cp / 0x40, cp % 0x40;
    assert bs[0] == 0xC0 + hi && bs[1] == 0x80 + lo;
    assert hi * 0x40 + lo == cp;
  }

  lemma DecodeThree(c: char, rest: seq<byte>)
    requires 0x800 <= c as int < 0x1_0000
    ensures DecodeFirst(EncodeChar(c) + rest) == Some((c, 3))
  {
    var cp := c as int;
    var bs := EncodeChar(c) + rest;
    var q := cp / 0x40;
    var hi, mid, lo := q / 0x40, q % 0x40, cp % 0x40;
    assert bs[0] == 0xE0 + hi && bs[1] == 0x80 + mid && bs[2] == 0x80 + lo;
    assert cp == q * 0x40 + lo && q == hi * 0x40 + mid;
  }

  lemma DecodeFour(c: char, rest: seq<byte>)
    requires 0x1_0000 <= c as int
    ensures DecodeFirst(EncodeChar(c) + rest) == Some((c, 4))
  {
    var cp := c as int;
    var bs := EncodeChar(c) + rest;
    var q1 := cp / 0x40;
    var q2 := q1 / 0x40;
    var top, hi, mid, lo := q2 / 0x40, q2 % 0x40, q1 % 0x40, cp % 0x40;
    assert bs[0] == 0xF0 + top && bs[1] == 0x80 + hi && bs[2] == 0x80 + mid && bs[3] == 0x80 + lo;
    assert cp == q1 * 0x40 + lo && q1 == q2 * 0x40 + mid && q2 == top * 0x40 + hi;
  }

  /** Decoding the UTF-8 encoding of any string gives that string back. */
  lemma {:induction false} DecodeEncode(s: string)
    ensures Decode(Encode(s)) == Some(s)
  {
    if s != [] {
      var head := EncodeChar(s[0]);
      var bs := Encode(s);
      assert bs == head + Encode(s[1..]);
      DecodeFirstEncodeChar(s[0], Encode(s[1..]));
      assert bs[|head|..] == Encode(s[1..]);
      DecodeEncode(s[1..]);
      assert [s[0]] + s[1..] == s;
    }
  }

  /** The encoding is injective: two strings with the same bytes are the same string. */
  lemma EncodeInjective(s: string, t: string)
    requires Encode(s) == Encode(t)
    ensures s == t
  {
    DecodeEncode(s);
    DecodeEncode(t);
  }
}
