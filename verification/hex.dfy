/**
 * The hex text encoding the credential vault uses for salt, IV and ciphertext bytes:
 * `b.toString(16).padStart(2, '0')` joined with `''` to encode, and
 * `s.match(/.{1,2}/g).map(c => parseInt(c, 16))` to decode.
 */
module Hex {
  import opened Wrappers

  type byte = x: int | 0 <= x < 256

  const Digits: string := "0123456789abcdef"

  predicate IsHexDigit(c: char) {
    ('0' <= c <= '9') || ('a' <= c <= 'f') || ('A' <= c <= 'F')
  }

  /** `parseInt(c, 16)` of one hex digit, upper or lower case. */
  function DigitValue(c: char): (v: nat)
    requires IsHexDigit(c)
    ensures v < 16
  {
    if '0' <= c <= '9' then c as int - '0' as int
    else if 'a' <= c <= 'f' then c as int - 'a' as int + 10
    else c as int - 'A' as int + 10
  }

  lemma DigitValueOfDigits(n: nat)
    requires n < 16
    ensures IsHexDigit(Digits[n]) && DigitValue(Digits[n]) == n
  {
  }

  /** One byte as exactly two lowercase hex digits, high nibble first. */
  function ByteToHex(b: byte): (r: string)
    ensures |r| == 2
  {
    [Digits[b / 16], Digits[b % 16]]
  }

  /** The hex text of a byte sequence. */
  function Encode(bs: seq<byte>): (r: string)
  {
    if bs == [] then [] else ByteToHex(bs[0]) + Encode(bs[1..])
  }

  /** The encoding is two characters per byte, all of them lowercase hex digits. */
  lemma {:induction false} EncodeShape(bs: seq<byte>)
    ensures |Encode(bs)| == 2 * |bs|
    ensures forall i :: 0 <= i < |Encode(bs)| ==> Encode(bs)[i] in Digits
  {
    if bs != [] {
      EncodeShape(bs[1..]);
      var h := ByteToHex(bs[0]);
      assert Encode(bs) == h + Encode(bs[1..]);
      forall i | 0 <= i < |Encode(bs)| ensures Encode(bs)[i] in Digits {
        if i < 2 {
          assert Encode(bs)[i] == h[i];
        } else {
          assert Encode(bs)[i] == Encode(bs[1..])[i - 2];
        }
      }
    }
  }

  predicate AllHex(s: string) {
    forall i :: 0 <= i < |s| ==> IsHexDigit(s[i])
  }

  // ---------------------------------------------------------------- decoding

  /** A UTF-16 code unit: JavaScript strings, and the regular expressions and `parseInt` that
      read them, see a text as a sequence of these. */
  type CodeUnit = u: int | 0 <= u < 0x10000

  /** A high or low surrogate: half of a character outside the Basic Multilingual Plane. */
  predicate Surrogate(u: CodeUnit) {
    0xD800 <= u < 0xE000
  }

  /** The UTF-16 code units of one character: itself below U+10000, else a high and a low
      surrogate that together give back the code point. */
  function UnitsOf(c: char): (r: seq<CodeUnit>)
    ensures |r| == 1 <==> c as int < 0x10000
    ensures |r| == 1 ==> r[0] == c as int
    ensures |r| == 2 ==> 0xD800 <= r[0] < 0xDC00 && 0xDC00 <= r[1] < 0xE000
                         && 0x10000 + (r[0] as int - 0xD800) * 0x400 + (r[1] as int - 0xDC00) == c as int
    ensures 1 <= |r| <= 2
  {
    if c as int < 0x10000 then [c as int]
    else
      var v := c as int - 0x10000;
      assert 0 <= v / 0x400 < 0x400 && v / 0x400 * 0x400 + v % 0x400 == v;
      [0xD800 + v / 0x400, 0xDC00 + v % 0x400]
  }

  /** The text as JavaScript holds it. */
  function Utf16(s: string): (r: seq<CodeUnit>)
    ensures |r| >= |s|
  {
    if s == [] then [] else UnitsOf(s[0]) + Utf16(s[1..])
  }

  lemma {:induction false} Utf16Append(a: string, b: string)
    ensures Utf16(a + b) == Utf16(a) + Utf16(b)
  {
    if a != [] {
      assert (a + b)[0] == a[0] && (a + b)[1..] == a[1..] + b;
      Utf16Append(a[1..], b);
    } else {
      assert a + b == b;
    }
  }

  lemma Utf16Two(a: char, b: char)
    ensures Utf16([a, b]) == UnitsOf(a) + UnitsOf(b)
    ensures a as int < 0x10000 && b as int < 0x10000 ==> Utf16([a, b]) == [a as int, b as int]
  {
    assert [a, b][1..] == [b] && [b][1..] == [];
    assert Utf16([b]) == UnitsOf(b) + Utf16([]);
  }

  /** A hex digit as a code unit. */
  predicate HexUnit(u: CodeUnit) {
    !Surrogate(u) && IsHexDigit(u as char)
  }

  function UnitValue(u: CodeUnit): (v: nat)
    requires HexUnit(u)
    ensures v < 16
  {
    DigitValue(u as char)
  }

  /** The line terminators of ECMAScript, which the regular-expression `.` does not match. */
  predicate LineTerminator(u: CodeUnit) {
    u == 0x000A || u == 0x000D || u == 0x2028 || u == 0x2029
  }

  /** The white space `parseInt` skips before the number (ECMAScript's StrWhiteSpaceChar). */
  predicate JsSpace(u: CodeUnit) {
    LineTerminator(u) || u == 0x0009 || u == 0x000B || u == 0x000C || u == 0x0020 || u == 0x00A0
    || u == 0xFEFF || u == 0x1680 || (0x2000 <= u <= 0x200A) || u == 0x202F || u == 0x205F || u == 0x3000
  }

  /** The matches of `/.{1,2}/g`, which has no `u` flag and so matches code units: each run
      of units between line terminators, cut into pieces of two with a final piece of one
      when the run has odd length. A surrogate pair may be split between two pieces. */
  function Pieces(s: seq<CodeUnit>): (r: seq<seq<CodeUnit>>)
    ensures forall i :: 0 <= i < |r| ==> 1 <= |r[i]| <= 2
    decreases |s|
  {
    if s == [] then []
    else if LineTerminator(s[0]) then Pieces(s[1..])
    else if |s| >= 2 && !LineTerminator(s[1]) then [s[..2]] + Pieces(s[2..])
    else [s[..1]] + Pieces(s[1..])
  }

  /** A reference for the pieces: the units with the line terminators removed. */
  function NoTerminators(s: seq<CodeUnit>): (r: seq<CodeUnit>) {
    if s == [] then []
    else if LineTerminator(s[0]) then NoTerminators(s[1..])
    else [s[0]] + NoTerminators(s[1..])
  }

  function Concat(ps: seq<seq<CodeUnit>>): seq<CodeUnit> {
    if ps == [] then [] else ps[0] + Concat(ps[1..])
  }

  /** Units with no line terminator. */
  predicate OneLine(p: seq<CodeUnit>) {
    forall j :: 0 <= j < |p| ==> !LineTerminator(p[j])
  }

  lemma ConcatCons(p: seq<CodeUnit>, ps: seq<seq<CodeUnit>>)
    ensures Concat([p] + ps) == p + Concat(ps)
  {
    assert ([p] + ps)[1..] == ps;
  }

  /** The pieces hold every unit that is not a line terminator, in order. */
  lemma {:induction false} PiecesCover(s: seq<CodeUnit>)
    ensures Concat(Pieces(s)) == NoTerminators(s)
    decreases |s|
  {
    if s == [] {
    } else if LineTerminator(s[0]) {
      PiecesCover(s[1..]);
    } else if |s| >= 2 && !LineTerminator(s[1]) {
      PiecesCover(s[2..]);
      PiecesPair(s);
      ConcatCons(s[..2], Pieces(s[2..]));
      assert s[1..][1..] == s[2..];
      assert NoTerminators(s) == [s[0]] + ([s[1]] + NoTerminators(s[2..]));
      assert s[..2] == [s[0]] + [s[1]];
    } else {
      PiecesCover(s[1..]);
      ConcatCons(s[..1], Pieces(s[1..]));
      assert s[..1] == [s[0]];
    }
  }

  /** No piece holds a line terminator. */
  lemma {:induction false} PiecesOneLine(s: seq<CodeUnit>)
    ensures forall i :: 0 <= i < |Pieces(s)| ==> OneLine(Pieces(s)[i])
    decreases |s|
  {
    if s == [] {
    } else if LineTerminator(s[0]) {
      PiecesOneLine(s[1..]);
    } else if |s| >= 2 && !LineTerminator(s[1]) {
      PiecesOneLine(s[2..]);
      PiecesPair(s);
      assert OneLine(s[..2]);
    } else {
      PiecesOneLine(s[1..]);
      assert OneLine(s[..1]);
    }
  }

  /** The leading hex digits of `s`: how many there are, and the value they add to `acc`
      when read most significant first. */
  function LeadingHex(s: seq<CodeUnit>, acc: nat): (r: (nat, nat))
    ensures r.0 <= |s|
    ensures r.0 == 0 ==> r.1 == acc
  {
    if s == [] || !HexUnit(s[0]) then (0, acc)
    else
      var rest := LeadingHex(s[1..], 16 * acc + UnitValue(s[0]));
      (rest.0 + 1, rest.1)
  }

  function TrimSpace(s: seq<CodeUnit>): (r: seq<CodeUnit>)
    ensures |r| <= |s|
  {
    if s != [] && JsSpace(s[0]) then TrimSpace(s[1..]) else s
  }

  /**
   * `parseInt(s, 16)` (section 18.2.5 of ECMAScript 2024): leading white space is skipped, a
   * sign is read, a `0x` or `0X` prefix is dropped, and the longest run of hex digits that
   * follows is the number. `None` is NaN, when no digit follows.
   */
  function ParseIntHex(s: seq<CodeUnit>): (r: Option<int>)
  {
    var t := TrimSpace(s);
    var negative := t != [] && t[0] == '-' as int;
    var u := if t != [] && (t[0] == '-' as int || t[0] == '+' as int) then t[1..] else t;
    var v := if |u| >= 2 && u[0] == '0' as int && (u[1] == 'x' as int || u[1] == 'X' as int) then u[2..] else u;
    var (n, value) := LeadingHex(v, 0);
    if n == 0 then None
    else
      var m: int := value;
      Some(if negative then -m else m)
  }

  /** The conversion of a number into a `Uint8Array` element: NaN becomes 0, and other
      integers are taken modulo 256. */
  function ToUint8(x: Option<int>): (b: byte)
    ensures x.None? ==> b == 0
    ensures x.Some? ==> (b - x.value) % 256 == 0
  {
    if x.None? then 0 else x.value % 256
  }

  function PieceBytes(ps: seq<seq<CodeUnit>>): (r: seq<byte>)
    ensures |r| == |ps|
  {
    if ps == [] then [] else [ToUint8(ParseIntHex(ps[0]))] + PieceBytes(ps[1..])
  }

  /**
   * `new Uint8Array(s.match(/.{1,2}/g)!.map(c => parseInt(c, 16)))`. When nothing matches
   * (the empty text, or line terminators only) `match` returns null and `.map` throws:
   * decoding fails. Any other text gives one byte per piece of its UTF-16 code units,
   * whether the piece is hex or not.
   */
  function Decode(s: string): (r: Option<seq<byte>>)
    ensures s == [] ==> r == None
    ensures r.None? <==> Pieces(Utf16(s)) == []
    ensures r.Some? ==> |r.value| == |Pieces(Utf16(s))|
  {
    var ps := Pieces(Utf16(s));
    if ps == [] then None else Some(PieceBytes(ps))
  }

  /** A piece that starts with a digit is parsed from its first unit. */
  lemma ParseFromDigit(s: seq<CodeUnit>)
    requires s != [] && HexUnit(s[0])
    requires !(|s| >= 2 && s[0] == '0' as int && (s[1] == 'x' as int || s[1] == 'X' as int))
    ensures ParseIntHex(s) == Some(LeadingHex(s, 0).1)
  {
    assert !JsSpace(s[0]);
    assert TrimSpace(s) == s;
  }

  lemma ParseOne(d: CodeUnit)
    requires HexUnit(d)
    ensures ParseIntHex([d]) == Some(UnitValue(d))
  {
    var s := [d];
    ParseFromDigit(s);
    assert s[1..] == [];
  }

  lemma ParseTwo(d0: CodeUnit, d1: CodeUnit)
    requires HexUnit(d0) && HexUnit(d1)
    ensures ParseIntHex([d0, d1]) == Some(16 * UnitValue(d0) + UnitValue(d1))
  {
    var s := [d0, d1];
    ParseFromDigit(s);
    assert s[1..] == [d1] && s[1..][1..] == [];
  }

  lemma PiecesPair(s: seq<CodeUnit>)
    requires |s| >= 2 && !LineTerminator(s[0]) && !LineTerminator(s[1])
    ensures Pieces(s) == [s[..2]] + Pieces(s[2..])
  {
  }

  lemma PieceBytesCons(p: seq<CodeUnit>, ps: seq<seq<CodeUnit>>)
    ensures PieceBytes([p] + ps) == [ToUint8(ParseIntHex(p))] + PieceBytes(ps)
  {
    assert ([p] + ps)[1..] == ps;
  }

  lemma ToUint8Byte(v: int)
    requires 0 <= v < 256
    ensures ToUint8(Some(v)) == v
  {
  }

  /** How two leading digits are read. */
  lemma PieceBytesStep(d0: CodeUnit, d1: CodeUnit, rest: seq<CodeUnit>)
    requires HexUnit(d0) && HexUnit(d1)
    ensures PieceBytes(Pieces([d0, d1] + rest)) == [16 * UnitValue(d0) + UnitValue(d1)] + PieceBytes(Pieces(rest))
  {
    var s := [d0, d1] + rest;
    var p := [d0, d1];
    assert s[..2] == p && s[2..] == rest;
    ParseTwo(d0, d1);
    ToUint8Byte(16 * UnitValue(d0) + UnitValue(d1));
    PiecesPair(s);
    PieceBytesCons(p, Pieces(rest));
  }

  /** Two units that are not line terminators make a single piece. */
  lemma OnePiece(u0: CodeUnit, u1: CodeUnit)
    requires !LineTerminator(u0) && !LineTerminator(u1)
    ensures Pieces([u0, u1]) == [[u0, u1]]
  {
    var s := [u0, u1];
    assert s[..2] == s && s[2..] == [];
  }

  /** A piece that starts with a unit no number can start with is NaN. */
  lemma ParseNonDigit(p: seq<CodeUnit>)
    requires p != [] && !HexUnit(p[0]) && !JsSpace(p[0]) && p[0] != '-' as int && p[0] != '+' as int
    ensures ParseIntHex(p) == None
  {
    assert TrimSpace(p) == p;
  }

  /** A digit followed by a unit that is not a digit is stored as the digit's value (and
      "0x", a prefix with no digits after it, is NaN, stored as 0 all the same). */
  lemma ParseDigitThen(e: CodeUnit, u: CodeUnit)
    requires HexUnit(e) && !HexUnit(u)
    ensures ToUint8(ParseIntHex([e, u])) == UnitValue(e)
  {
    var p := [e, u];
    assert TrimSpace(p) == p;
    if e == '0' as int && (u == 'x' as int || u == 'X' as int) {
      assert p[2..] == [];
    } else {
      ParseFromDigit(p);
      assert LeadingHex(p, 0) == (1, UnitValue(e)) by {
        assert p[1..] == [u];
      }
    }
  }

  /** Text that is not hex is not rejected: a piece that starts with a character no number can
      start with is NaN and becomes the byte 0, and a piece that starts with a digit keeps the
      value of that digit. */
  lemma NonHexPieces(x: char, d: char)
    requires x as int < 0x10000
    requires !HexUnit(x as int) && !JsSpace(x as int) && x != '-' && x != '+'
    requires IsHexDigit(d)
    ensures Decode([x, x]) == Some([0])
    ensures Decode([d, x]) == Some([DigitValue(d)])
  {
    var u, e := x as int, d as int;
    Utf16Two(x, x);
    Utf16Two(d, x);
    OnePiece(u, u);
    OnePiece(e, u);
    ParseNonDigit([u, u]);
    ParseDigitThen(e, u);
    assert PieceBytes([[u, u]]) == [0] by {
      PieceBytesCons([u, u], []);
      assert [[u, u]] + [] == [[u, u]];
    }
    assert PieceBytes([[e, u]]) == [DigitValue(d)] by {
      PieceBytesCons([e, u], []);
      assert [[e, u]] + [] == [[e, u]];
    }
  }

  /** A character outside the Basic Multilingual Plane is two code units, neither of them a
      digit: after a digit it is split between two pieces, and it adds a byte 0. */
  lemma SupplementaryPieces(d: char, c: char)
    requires IsHexDigit(d) && c as int >= 0x10000
    ensures Decode([d, c]) == Some([DigitValue(d), 0])
  {
    var e := d as int;
    var hl := UnitsOf(c);
    var h, l := hl[0], hl[1];
    Utf16Two(d, c);
    var s := [e, h, l];
    assert hl == [h, l];
    assert Utf16([d, c]) == s;
    assert Pieces(s) == [[e, h], [l]] by {
      PiecesPair(s);
      assert s[..2] == [e, h] && s[2..] == [l];
      assert [l][..1] == [l] && [l][1..] == [];
    }
    ParseDigitThen(e, h);
    ParseNonDigit([l]);
    assert PieceBytes([[l]]) == [0] by {
      PieceBytesCons([l], []);
      assert [[l]] + [] == [[l]];
    }
    assert PieceBytes([[e, h], [l]]) == [DigitValue(d), 0] by {
      PieceBytesCons([e, h], [[l]]);
      assert [[e, h]] + [[l]] == [[e, h], [l]];
    }
  }

  /** Round trip: decoding the encoding of a non-empty byte sequence gives it back. */
  lemma {:induction false} DecodeEncode(bs: seq<byte>)
    requires |bs| > 0
    ensures Decode(Encode(bs)) == Some(bs)
  {
    PieceBytesEncode(bs);
  }

  /** The two digits of a byte are two hex code units, read back as the byte. */
  lemma ByteUnits(b: byte) returns (h0: CodeUnit, h1: CodeUnit)
    ensures Utf16(ByteToHex(b)) == [h0, h1]
    ensures HexUnit(h0) && HexUnit(h1) && 16 * UnitValue(h0) + UnitValue(h1) == b
  {
    DigitValueOfDigits(b / 16);
    DigitValueOfDigits(b % 16);
    var c0, c1 := Digits[b / 16], Digits[b % 16];
    assert ByteToHex(b) == [c0, c1];
    Utf16Two(c0, c1);
    h0, h1 := c0 as int, c1 as int;
  }

  /** The code units of an encoding: those of the first byte's digits, then the rest. */
  lemma EncodeUnits(bs: seq<byte>)
    requires bs != []
    ensures Utf16(Encode(bs)) == Utf16(ByteToHex(bs[0])) + Utf16(Encode(bs[1..]))
  {
    assert Encode(bs) == ByteToHex(bs[0]) + Encode(bs[1..]);
    Utf16Append(ByteToHex(bs[0]), Encode(bs[1..]));
  }

  /** Two digit units that read as `b`, in front of units that read as `tail`, read as `b`
      and `tail`. */
  lemma EncodeStep(b: byte, h0: CodeUnit, h1: CodeUnit, tail: seq<byte>, rest: seq<CodeUnit>)
    requires HexUnit(h0) && HexUnit(h1) && 16 * UnitValue(h0) + UnitValue(h1) == b
    requires PieceBytes(Pieces(rest)) == tail
    ensures PieceBytes(Pieces([h0, h1] + rest)) == [b] + tail
  {
    PieceBytesStep(h0, h1, rest);
  }

  lemma {:induction false} PieceBytesEncode(bs: seq<byte>)
    ensures PieceBytes(Pieces(Utf16(Encode(bs)))) == bs
  {
    if bs != [] {
      var h0, h1 := ByteUnits(bs[0]);
      EncodeUnits(bs);
      PieceBytesEncode(bs[1..]);
      EncodeStep(bs[0], h0, h1, bs[1..], Utf16(Encode(bs[1..])));
      assert [bs[0]] + bs[1..] == bs;
    }
  }

  /** The 16-byte PBKDF2 salt and the 12-byte AES-GCM IV encode to 32 and 24 characters. */
  lemma SaltAndIvLengths(salt: seq<byte>, iv: seq<byte>)
    requires |salt| == 16 && |iv| == 12
    ensures |Encode(salt)| == 32 && |Encode(iv)| == 24
  {
    EncodeShape(salt);
    EncodeShape(iv);
  }

  /** Pieces never straddle an even number of units without line terminators. */
  lemma {:induction false} PiecesAppend(s: seq<CodeUnit>, tail: seq<CodeUnit>)
    requires |s| % 2 == 0 && forall i :: 0 <= i < |s| ==> !LineTerminator(s[i])
    ensures Pieces(s + tail) == Pieces(s) + Pieces(tail)
    decreases |s|
  {
    if s != [] {
      var st := s + tail;
      assert st[..2] == s[..2] && st[2..] == s[2..] + tail;
      PiecesAppend(s[2..], tail);
    } else {
      assert s + tail == tail;
    }
  }

  /** After an even number of units without line terminators, a single digit is stored as
      the same byte as the digit preceded by `0`. */
  lemma OddUnitsTail(u: seq<CodeUnit>, e: CodeUnit)
    requires |u| % 2 == 0 && forall i :: 0 <= i < |u| ==> !LineTerminator(u[i])
    requires HexUnit(e)
    ensures PieceBytes(Pieces(u + [e])) == PieceBytes(Pieces(u + ['0' as int, e]))
  {
    var z: CodeUnit := '0' as int;
    var ps := Pieces(u);
    PiecesAppend(u, [e]);
    PiecesAppend(u, [z, e]);
    LoneDigitBytes(e);
    PieceBytesAppend(ps, Pieces([e]));
    PieceBytesAppend(ps, Pieces([z, e]));
  }

  /** A digit alone and the digit after `0` are each one piece, read as the same byte. */
  lemma LoneDigitBytes(e: CodeUnit)
    requires HexUnit(e)
    ensures PieceBytes(Pieces([e])) == [UnitValue(e)]
    ensures PieceBytes(Pieces(['0' as int, e])) == [UnitValue(e)]
  {
    var z: CodeUnit := '0' as int;
    assert Pieces([e]) == [[e]] by {
      assert [e][..1] == [e] && [e][1..] == [];
    }
    OnePiece(z, e);
    ParseOne(e);
    ParseTwo(z, e);
    assert PieceBytes([[e]]) == [UnitValue(e)] by {
      PieceBytesCons([e], []);
      assert [[e]] + [] == [[e]];
    }
    assert PieceBytes([[z, e]]) == [UnitValue(e)] by {
      PieceBytesCons([z, e], []);
      assert [[z, e]] + [] == [[z, e]];
    }
  }

  /** Decoding is not injective: after an even number of code units, a single digit is read
      as a whole byte, the same byte as the digit preceded by `0`. */
  lemma OddLengthTail(s: string, d: char)
    requires |Utf16(s)| % 2 == 0 && forall i :: 0 <= i < |Utf16(s)| ==> !LineTerminator(Utf16(s)[i])
    requires IsHexDigit(d)
    ensures Decode(s + [d]) == Decode(s + ['0', d])
    ensures s + [d] != s + ['0', d]
  {
    var e, z := d as int, '0' as int;
    var u := Utf16(s);
    Utf16Append(s, [d]);
    Utf16Append(s, ['0', d]);
    assert Utf16([d]) == [e] by {
      assert Utf16([d]) == UnitsOf(d) + Utf16([]);
    }
    Utf16Two('0', d);
    assert Utf16(s + [d]) == u + [e];
    assert Utf16(s + ['0', d]) == u + [z, e];
    OddUnitsTail(u, e);
    NonEmptyPieces(u, [e]);
    NonEmptyPieces(u, [z, e]);
    assert UnitValue(e) == DigitValue(d);
    assert |s + [d]| != |s + ['0', d]|;
  }

  /** A text ending in a unit that is not a line terminator has a piece. */
  lemma NonEmptyPieces(u: seq<CodeUnit>, tail: seq<CodeUnit>)
    requires tail != [] && !LineTerminator(tail[|tail| - 1])
    ensures Pieces(u + tail) != []
  {
    PiecesCover(u + tail);
    NoTerminatorsKeepsLast(u + tail);
  }

  lemma {:induction false} NoTerminatorsKeepsLast(s: seq<CodeUnit>)
    requires s != [] && !LineTerminator(s[|s| - 1])
    ensures NoTerminators(s) != []
    decreases |s|
  {
    if LineTerminator(s[0]) {
      NoTerminatorsKeepsLast(s[1..]);
    }
  }

  lemma {:induction false} PieceBytesAppend(a: seq<seq<CodeUnit>>, b: seq<seq<CodeUnit>>)
    ensures PieceBytes(a + b) == PieceBytes(a) + PieceBytes(b)
  {
    if a != [] {
      assert (a + b)[0] == a[0] && (a + b)[1..] == a[1..] + b;
      PieceBytesAppend(a[1..], b);
    } else {
      assert a + b == b;
    }
  }
}
