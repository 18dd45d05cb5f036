/**
 * `btoa`: the base 64 encoding of section 4 of RFC 4648, applied to a string whose every
 * character is a Latin-1 code unit (one byte). A decoder states what the encoding keeps.
 */
module Base64 {
  import opened Wrappers
  import Hex

  type byte = Hex.byte

  /** The character for a 6-bit value, from the alphabet of Table 1 of RFC 4648. */
  function Sextet(v: nat): (c: char)
    requires v < 64
  {
    if v < 26 then ('A' as int + v) as char
    else if v < 52 then ('a' as int + (v - 26)) as char
    else if v < 62 then ('0' as int + (v - 52)) as char
    else if v == 62 then '+'
    else '/'
  }

  /** The 6-bit value of an alphabet character. */
  function SextetValue(c: char): (r: Option<nat>)
    ensures r.Some? ==> r.value < 64 && Sextet(r.value) == c
  {
    if 'A' <= c <= 'Z' then Some(c as int - 'A' as int)
    else if 'a' <= c <= 'z' then Some(c as int - 'a' as int + 26)
    else if '0' <= c <= '9' then Some(c as int - '0' as int + 52)
    else if c == '+' then Some(62)
    else if c == '/' then Some(63)
    else None
  }

  lemma SextetRoundTrip(v: nat)
    requires v < 64
    ensures SextetValue(Sextet(v)) == Some(v)
  {
  }

  /** Encoding, three bytes to four characters, with `=` padding for a final group of one or
      two bytes. */
  function Encode(bs: seq<byte>): (r: string)
    ensures |r| == 4 * ((|bs| + 2) / 3)
  {
    if |bs| == 0 then ""
    else if |bs| == 1 then
      [Sextet(bs[0] / 4), Sextet((bs[0] % 4) * 16), '=', '=']
    else if |bs| == 2 then
      [Sextet(bs[0] / 4), Sextet((bs[0] % 4) * 16 + bs[1] / 16), Sextet((bs[1] % 16) * 4), '=']
    else
      [Sextet(bs[0] / 4), Sextet((bs[0] % 4) * 16 + bs[1] / 16),
       Sextet((bs[1] % 16) * 4 + bs[2] / 64), Sextet(bs[2] % 64)] + Encode(bs[3..])
  }

  /** Decoding of canonical encoded text: groups of four characters, padding only in the
      last group, and zero bits where the padding leaves some. */
  function Decode(s: string): (r: Option<seq<byte>>)
    decreases |s|
  {
    if s == "" then Some([])
    else if |s| < 4 then None
    else
      var v0 :- SextetValue(s[0]);
      var v1 :- SextetValue(s[1]);
      if |s| == 4 && s[2] == '=' && s[3] == '=' then
        if v1 % 16 == 0 then Some([v0 * 4 + v1 / 16]) else None
      else
        var v2 :- SextetValue(s[2]);
        if |s| == 4 && s[3] == '=' then
          if v2 % 4 == 0 then Some([v0 * 4 + v1 / 16, (v1 % 16) * 16 + v2 / 4]) else None
        else
          var v3 :- SextetValue(s[3]);
          var rest :- Decode(s[4..]);
          Some([v0 * 4 + v1 / 16, (v1 % 16) * 16 + v2 / 4, (v2 % 4) * 64 + v3] + rest)
  }

  /** The first group of four characters of the encoding of three or more bytes. */
  function Group(b0: byte, b1: byte, b2: byte): (r: string)
    ensures |r| == 4 && r[2] != '=' && r[3] != '='
  {
    [Sextet(b0 / 4), Sextet((b0 % 4) * 16 + b1 / 16), Sextet((b1 % 16) * 4 + b2 / 64), Sextet(b2 % 64)]
  }

  lemma GroupArithmetic(b0: byte, b1: byte, b2: byte)
    ensures var v1, v2 := (b0 % 4) * 16 + b1 / 16, (b1 % 16) * 4 + b2 / 64;
      (b0 / 4) * 4 + v1 / 16 == b0 && (v1 % 16) * 16 + v2 / 4 == b1 && (v2 % 4) * 64 + b2 % 64 == b2
  {
    var v1, v2 := (b0 % 4) * 16 + b1 / 16, (b1 % 16) * 4 + b2 / 64;
    assert v1 / 16 == b0 % 4 && v1 % 16 == b1 / 16;
    assert v2 / 4 == b1 % 16 && v2 % 4 == b2 / 64;
  }

  /** How `Decode` reads an unpadded group followed by more text. */
  lemma DecodeStep(t: string, v0: nat, v1: nat, v2: nat, v3: nat, rest: seq<byte>)
    requires |t| >= 4 && t[2] != '=' && t[3] != '='
    requires SextetValue(t[0]) == Some(v0) && SextetValue(t[1]) == Some(v1)
    requires SextetValue(t[2]) == Some(v2) && SextetValue(t[3]) == Some(v3)
    requires Decode(t[4..]) == Some(rest)
    ensures Decode(t) == Some([v0 * 4 + v1 / 16, (v1 % 16) * 16 + v2 / 4, (v2 % 4) * 64 + v3] + rest)
  {
  }

  /** The 6-bit values a group carries. */
  lemma GroupValues(b0: byte, b1: byte, b2: byte)
    ensures var g := Group(b0, b1, b2);
      SextetValue(g[0]) == Some(b0 / 4) && SextetValue(g[1]) == Some((b0 % 4) * 16 + b1 / 16)
      && SextetValue(g[2]) == Some((b1 % 16) * 4 + b2 / 64) && SextetValue(g[3]) == Some(b2 % 64)
  {
    SextetRoundTrip(b0 / 4);
    SextetRoundTrip((b0 % 4) * 16 + b1 / 16);
    SextetRoundTrip((b1 % 16) * 4 + b2 / 64);
    SextetRoundTrip(b2 % 64);
  }

  /** How `Decode` reads a group that carries the bytes `b0`, `b1`, `b2`. */
  lemma DecodeBytes(t: string, b0: byte, b1: byte, b2: byte, rest: seq<byte>)
    requires |t| >= 4 && t[2] != '=' && t[3] != '='
    requires SextetValue(t[0]) == Some(b0 / 4) && SextetValue(t[1]) == Some((b0 % 4) * 16 + b1 / 16)
    requires SextetValue(t[2]) == Some((b1 % 16) * 4 + b2 / 64) && SextetValue(t[3]) == Some(b2 % 64)
    requires Decode(t[4..]) == Some(rest)
    ensures Decode(t) == Some([b0, b1, b2] + rest)
  {
    var v0, v1, v2, v3 := b0 / 4, (b0 % 4) * 16 + b1 / 16, (b1 % 16) * 4 + b2 / 64, b2 % 64;
    DecodeStep(t, v0, v1, v2, v3, rest);
    GroupArithmetic(b0, b1, b2);
    assert [v0 * 4 + v1 / 16, (v1 % 16) * 16 + v2 / 4, (v2 % 4) * 64 + v3] == [b0, b1, b2];
  }

  lemma DecodeGroup(b0: byte, b1: byte, b2: byte, tail: string)
    requires Decode(tail).Some?
    ensures Decode(Group(b0, b1, b2) + tail) == Some([b0, b1, b2] + Decode(tail).value)
  {
    var g := Group(b0, b1, b2);
    var t := g + tail;
    GroupValues(b0, b1, b2);
    assert t[..4] == g && t[4..] == tail;
    DecodeBytes(t, b0, b1, b2, Decode(tail).value);
  }

  lemma DecodeOne(b0: byte)
    ensures Decode(Encode([b0])) == Some([b0])
  {
    SextetRoundTrip(b0 / 4);
    SextetRoundTrip((b0 % 4) * 16);
  }

  lemma DecodeTwo(b0: byte, b1: byte)
    ensures Decode(Encode([b0, b1])) == Some([b0, b1])
  {
    var v1 := (b0 % 4) * 16 + b1 / 16;
    var v2 := (b1 % 16) * 4;
    SextetRoundTrip(b0 / 4);
    SextetRoundTrip(v1);
    SextetRoundTrip(v2);
    GroupArithmetic(b0, b1, 0);
  }

  /** Round trip: decoding the encoding of any byte sequence gives it back. */
  lemma {:induction false} DecodeEncode(bs: seq<byte>)
    ensures Decode(Encode(bs)) == Some(bs)
  {
    if |bs| == 1 {
      DecodeOne(bs[0]);
      assert [bs[0]] == bs;
    } else if |bs| == 2 {
      DecodeTwo(bs[0], bs[1]);
      assert [bs[0], bs[1]] == bs;
    } else if |bs| >= 3 {
      assert Encode(bs) == Group(bs[0], bs[1], bs[2]) + Encode(bs[3..]);
      DecodeEncode(bs[3..]);
      DecodeGroup(bs[0], bs[1], bs[2], Encode(bs[3..]));
      assert [bs[0], bs[1], bs[2]] + bs[3..] == bs;
    }
  }

  /** A string whose every character is one byte (Latin-1), as `btoa` demands. */
  predicate IsLatin1(s: string) {
    forall i :: 0 <= i < |s| ==> s[i] as int < 256
  }

  function Latin1Bytes(s: string): (r: seq<byte>)
    requires IsLatin1(s)
    ensures |r| == |s| && forall i :: 0 <= i < |s| ==> r[i] == s[i] as int
  {
    if s == "" then [] else [s[0] as int as byte] + Latin1Bytes(s[1..])
  }

  function Latin1Text(bs: seq<byte>): (r: string)
    ensures |r| == |bs| && forall i :: 0 <= i < |bs| ==> r[i] as int == bs[i]
  {
    if bs == [] then "" else [bs[0] as char] + Latin1Text(bs[1..])
  }

  /** `btoa`: fails (throws) on a character outside Latin-1. */
  function Btoa(s: string): (r: Option<string>)
    ensures r.Some? <==> IsLatin1(s)
  {
    if IsLatin1(s) then Some(Encode(Latin1Bytes(s))) else None
  }

  /** `atob` of canonical text. */
  function Atob(s: string): Option<string> {
    var bs :- Decode(s);
    Some(Latin1Text(bs))
  }

  /** Round trip of `btoa` and `atob`. */
  lemma AtobBtoa(s: string)
    requires IsLatin1(s)
    ensures Atob(Btoa(s).value) == Some(s)
  {
    DecodeEncode(Latin1Bytes(s));
    assert Latin1Text(Latin1Bytes(s)) == s;
  }
}
