/**
 * The standard Base64 alphabet of section 4 of RFC 4648, written without `=` padding,
 * as `Base64.getEncoder().withoutPadding()` produces it. The decoder is the partner
 * that shows the encoding loses nothing.
 */
module Base64 {
  import opened Wrappers
  import opened Bytes

  /** The character for the six-bit value `k`: `A`-`Z`, `a`-`z`, `0`-`9`, `+`, `/`. */
  function Symbol(k: int): (c: char)
    requires 0 <= k < 0x40
    ensures Value(c) == Some(k)
  {
    if k < 26 then ('A' as int + k) as char
    else if k < 52 then ('a' as int + (k - 26)) as char
    else if k < 62 then ('0' as int + (k - 52)) as char
    else if k == 62 then '+'
    else '/'
  }

  /** The six-bit value of an alphabet character; None for any other character. */
  function Value(c: char): (r: Option<nat>)
    ensures r.Some? ==> r.value < 0x40 && (c as int) < 0x80 && c != '='
  {
    if 'A' <= c <= 'Z' then Some(c as int - 'A' as int)
    else if 'a' <= c <= 'z' then Some(c as int - 'a' as int + 26)
    else if '0' <= c <= '9' then Some(c as int - '0' as int + 52)
    else if c == '+' then Some(62)
    else if c == '/' then Some(63)
    else None
  }

  predicate InAlphabet(s: string)
  {
    forall i :: 0 <= i < |s| ==> Value(s[i]).Some?
  }

  /** Four symbols for three bytes. */
  function EncodeGroup(b0: byte, b1: byte, b2: byte): string
  {
    [Symbol(b0 / 4), Symbol(b0 % 4 * 16 + b1 / 16), Symbol(b1 % 16 * 4 + b2 / 64), Symbol(b2 % 64)]
  }

  /** The unpadded encoding: three bytes become four symbols; a final one or two
      bytes become two or three symbols, with the unused low bits zero. */
  function Encode(bs: seq<byte>): (s: string)
    ensures |s| == (4 * |bs| + 2) / 3
    ensures InAlphabet(s)
    decreases |bs|
  {
    if |bs| == 0 then ""
    else if |bs| == 1 then [Symbol(bs[0] / 4), Symbol(bs[0] % 4 * 16)]
    else if |bs| == 2 then [Symbol(bs[0] / 4), Symbol(bs[0] % 4 * 16 + bs[1] / 16), Symbol(bs[1] % 16 * 4)]
    else EncodeGroup(bs[0], bs[1], bs[2]) + Encode(bs[3..])
  }

  /** The bytes of a block of two to four six-bit values; None when the block has
      the wrong length or its unused low bits are not zero. */
  function DecodeBlock(v: seq<nat>): (r: Option<seq<byte>>)
    requires forall i :: 0 <= i < |v| ==> v[i] < 0x40
  {
    if |v| == 2 then
      if v[1] % 16 != 0 then None else Some([v[0] * 4 + v[1] / 16])
    else if |v| == 3 then
      if v[2] % 4 != 0 then None else Some([v[0] * 4 + v[1] / 16, v[1] % 16 * 16 + v[2] / 4])
    else if |v| == 4 then
      Some([v[0] * 4 + v[1] / 16, v[1] % 16 * 16 + v[2] / 4, v[2] % 4 * 64 + v[3]])
    else None
  }

  /** The six-bit values of the symbols of `s`, if all of them are in the alphabet. */
  function Values(s: string): (r: Option<seq<nat>>)
    ensures r.Some? ==> |r.value| == |s| && forall i :: 0 <= i < |s| ==> r.value[i] < 0x40
  {
    if s == [] then Some([])
    else
      var head, tail := Value(s[0]), Values(s[1..]);
      if head.None? || tail.None? then None else Some([head.value] + tail.value)
  }

  /** The bytes whose unpadded encoding is `s`, if there are any. */
  function Decode(s: string): Option<seq<byte>>
    decreases |s|
  {
    if s == [] then Some([])
    else
      var n := if |s| < 4 then |s| else 4;
      var v, rest := Values(s[..n]), Decode(s[n..]);
      if v.None? || rest.None? then None
      else
        var block := DecodeBlock(v.value);
        if block.None? then None else Some(block.value + rest.value)
  }

  lemma ValuesOfSymbols(a: nat, b: nat)
    requires 0 <= a < 0x40 && 0 <= b < 0x40
    ensures Values([Symbol(a), Symbol(b)]) == Some([a, b])
  {
    assert [Symbol(b)][1..] == [];
    assert Values([Symbol(b)]) == Some([b] + []);
    assert [Symbol(a), Symbol(b)][1..] == [Symbol(b)];
    assert [a] + [b] == [a, b] && [b] + [] == [b];
  }

  lemma ValuesOfThree(a: nat, b: nat, c: nat)
    requires 0 <= a < 0x40 && 0 <= b < 0x40 && 0 <= c < 0x40
    ensures Values([Symbol(a), Symbol(b), Symbol(c)]) == Some([a, b, c])
  {
    assert [Symbol(a), Symbol(b), Symbol(c)][1..] == [Symbol(b), Symbol(c)];
    ValuesOfSymbols(b, c);
    assert [a] + [b, c] == [a, b, c];
  }

  lemma ValuesOfFour(a: nat, b: nat, c: nat, d: nat)
    requires 0 <= a < 0x40 && 0 <= b < 0x40 && 0 <= c < 0x40 && 0 <= d < 0x40
    ensures Values([Symbol(a), Symbol(b), Symbol(c), Symbol(d)]) == Some([a, b, c, d])
  {
    assert [Symbol(a), Symbol(b), Symbol(c), Symbol(d)][1..] == [Symbol(b), Symbol(c), Symbol(d)];
    ValuesOfThree(b, c, d);
    assert [a] + [b, c, d] == [a, b, c, d];
  }

  lemma DecodeBlockOne(b0: byte)
    ensures DecodeBlock([b0 / 4, b0 % 4 * 16]) == Some([b0])
  {
  }

  lemma DecodeBlockTwo(b0: byte, b1: byte)
    ensures DecodeBlock([b0 / 4, b0 % 4 * 16 + b1 / 16, b1 % 16 * 4]) == Some([b0, b1])
  {
  }

  lemma DecodeBlockThree(b0: byte, b1: byte, b2: byte)
    ensures DecodeBlock([b0 / 4, b0 % 4 * 16 + b1 / 16, b1 % 16 * 4 + b2 / 64, b2 % 64]) == Some([b0, b1, b2])
  {
  }

  /** A leading group of four symbols decodes to its three bytes ahead of whatever the
      rest decodes to. */
  lemma DecodeGroup(b0: byte, b1: byte, b2: byte, t: string)
    requires Decode(t).Some?
    ensures Decode(EncodeGroup(b0, b1, b2) + t) == Some([b0, b1, b2] + Decode(t).value)
  {
    var s := EncodeGroup(b0, b1, b2) + t;
    assert s[..4] == EncodeGroup(b0, b1, b2) && s[4..] == t;
    ValuesOfFour(b0 / 4, b0 % 4 * 16 + b1 / 16, b1 % 16 * 4 + b2 / 64, b2 % 64);
    DecodeBlockThree(b0, b1, b2);
  }

  /** A final single byte becomes a block of two symbols. */
  lemma DecodeEncodeOne(b0: byte)
    ensures Decode(Encode([b0])) == Some([b0])
  {
    var s := Encode([b0]);
    ValuesOfSymbols(b0 / 4, b0 % 4 * 16);
    assert s[..2] == s && s[2..] == [];
    DecodeBlockOne(b0);
    assert [b0] + [] == [b0];
  }

  /** A final pair of bytes becomes a block of three symbols. */
  lemma DecodeEncodeTwo(b0: byte, b1: byte)
    ensures Decode(Encode([b0, b1])) == Some([b0, b1])
  {
    var s := Encode([b0, b1]);
    ValuesOfThree(b0 / 4, b0 % 4 * 16 + b1 / 16, b1 % 16 * 4);
    assert s[..3] == s && s[3..] == [];
    DecodeBlockTwo(b0, b1);
    assert [b0, b1] + [] == [b0, b1];
  }

  /** Decoding an unpadded encoding gives the original bytes back. */
  lemma {:induction false} DecodeEncode(bs: seq<byte>)
    ensures Decode(Encode(bs)) == Some(bs)
    decreases |bs|
  {
    if |bs| == 0 {
    } else if |bs| == 1 {
      DecodeEncodeOne(bs[0]);
      assert [bs[0]] == bs;
    } else if |bs| == 2 {
      DecodeEncodeTwo(bs[0], bs[1]);
      assert [bs[0], bs[1]] == bs;
    } else {
      var rest := bs[3..];
      DecodeEncode(rest);
      DecodeGroup(bs[0], bs[1], bs[2], Encode(rest));
      assert Encode(bs) == EncodeGroup(bs[0], bs[1], bs[2]) + Encode(rest);
      assert [bs[0], bs[1], bs[2]] + rest == bs;
    }
  }

  /** Every encoding is plain ASCII and holds no padding character. */
  lemma EncodeIsAsciiWithoutPadding(bs: seq<byte>)
    ensures forall i :: 0 <= i < |Encode(bs)| ==> (Encode(bs)[i] as int) < 0x80 && Encode(bs)[i] != '='
  {
    var s := Encode(bs);
    forall i | 0 <= i < |s| ensures (s[i] as int) < 0x80 && s[i] != '=' {
      assert Value(s[i]).Some?;
    }
  }
}
