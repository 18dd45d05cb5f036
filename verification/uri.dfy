/**
 * `encodeURIComponent` of section 15.1.3.4 of ECMAScript 5.1 (ECMA-262), through the Encode
 * operation of section 15.1.3: a character of the unescaped set is kept, any other is
 * written as the UTF-8 bytes of its code point, each as `%` and two upper-case hex digits.
 * The matching `decodeURIComponent` (section 15.1.3.2, through the Decode operation) states
 * what the encoding keeps.
 *
 * A Dafny `char` is a Unicode scalar value, so the lone surrogates on which the encoder
 * throws cannot occur.
 */
module Uri {
  import opened Wrappers
  import Hex

  type byte = Hex.byte

  /** The unescaped set of `encodeURIComponent`: uriAlpha, DecimalDigit and uriMark. */
  predicate Unescaped(c: char) {
    ('A' <= c <= 'Z') || ('a' <= c <= 'z') || ('0' <= c <= '9')
    || c == '-' || c == '_' || c == '.' || c == '!' || c == '~' || c == '*' || c == '\'' || c == '(' || c == ')'
  }

  // ---------------------------------------------------------------- UTF-8

  /** The UTF-8 bytes of a code point (Table 3-6 of the Unicode Standard). */
  function Utf8(c: char): (r: seq<byte>)
    ensures 1 <= |r| <= 4
  {
    var v := c as int;
    if v < 0x80 then [v]
    else if v < 0x800 then [0xC0 + v / 64, 0x80 + v % 64]
    else if v < 0x10000 then [0xE0 + v / 4096, 0x80 + (v / 64) % 64, 0x80 + v % 64]
    else [0xF0 + v / 262144, 0x80 + (v / 4096) % 64, 0x80 + (v / 64) % 64, 0x80 + v % 64]
  }

  /** The number of bytes a sequence starting with `b` has, 0 for a byte that cannot
      start one. */
  function SequenceLength(b: byte): (n: nat)
    ensures n <= 4
  {
    if b < 0x80 then 1
    else if b < 0xC0 then 0
    else if b < 0xE0 then 2
    else if b < 0xF0 then 3
    else if b < 0xF8 then 4
    else 0
  }

  predicate Continuation(b: byte) { 0x80 <= b < 0xC0 }

  /** The code point of one UTF-8 sequence; `None` for a malformed or overlong sequence or a
      value that is a surrogate or beyond U+10FFFF, on which `decodeURIComponent` throws. */
  function DecodeUtf8(bs: seq<byte>): (r: Option<char>)
  {
    if |bs| == 0 || |bs| != SequenceLength(bs[0]) then None
    else if exists i :: 1 <= i < |bs| && !Continuation(bs[i]) then None
    else
      var v: int :=
        if |bs| == 1 then bs[0]
        else if |bs| == 2 then (bs[0] as int - 0xC0) * 64 + (bs[1] as int - 0x80)
        else if |bs| == 3 then (bs[0] as int - 0xE0) * 4096 + (bs[1] as int - 0x80) * 64 + (bs[2] as int - 0x80)
        else (bs[0] as int - 0xF0) * 262144 + (bs[1] as int - 0x80) * 4096 + (bs[2] as int - 0x80) * 64 + (bs[3] as int - 0x80);
      var least := if |bs| == 1 then 0 else if |bs| == 2 then 0x80 else if |bs| == 3 then 0x800 else 0x10000;
      if v < least || (0xD800 <= v < 0xE000) || v > 0x10FFFF then None
      else Some(v as char)
  }

  lemma Utf8TwoBytes(c: char)
    requires 0x80 <= c as int < 0x800
    ensures DecodeUtf8(Utf8(c)) == Some(c)
  {
    var v := c as int;
    var bs := Utf8(c);
    assert bs[0] == 0xC0 + v / 64 && bs[1] == 0x80 + v % 64;
    assert (v / 64) * 64 + v % 64 == v;
  }

  lemma Utf8ThreeBytes(c: char)
    requires 0x800 <= c as int < 0x10000
    ensures DecodeUtf8(Utf8(c)) == Some(c)
  {
    var v := c as int;
    var bs := Utf8(c);
    assert bs[0] == 0xE0 + v / 4096 && bs[1] == 0x80 + (v / 64) % 64 && bs[2] == 0x80 + v % 64;
    assert (v / 4096) * 64 + (v / 64) % 64 == v / 64;
    assert (v / 64) * 64 + v % 64 == v;
  }

  lemma Utf8FourBytes(c: char)
    requires 0x10000 <= c as int
    ensures DecodeUtf8(Utf8(c)) == Some(c)
  {
    var v := c as int;
    var bs := Utf8(c);
    assert v <= 0x10FFFF;
    assert bs[0] == 0xF0 + v / 262144 && bs[1] == 0x80 + (v / 4096) % 64;
    assert bs[2] == 0x80 + (v / 64) % 64 && bs[3] == 0x80 + v % 64;
    assert (v / 262144) * 64 + (v / 4096) % 64 == v / 4096;
    assert (v / 4096) * 64 + (v / 64) % 64 == v / 64;
    assert (v / 64) * 64 + v % 64 == v;
  }

  /** Decoding the UTF-8 bytes of a code point gives it back, and the first byte announces
      the length of the sequence. */
  lemma Utf8RoundTrip(c: char)
    ensures DecodeUtf8(Utf8(c)) == Some(c)
    ensures SequenceLength(Utf8(c)[0]) == |Utf8(c)|
  {
    var v := c as int;
    if 0x80 <= v < 0x800 {
      Utf8TwoBytes(c);
    } else if 0x800 <= v < 0x10000 {
      Utf8ThreeBytes(c);
    } else if 0x10000 <= v {
      Utf8FourBytes(c);
    }
  }

  // ---------------------------------------------------------------- percent escapes

  const UpperDigits: string := "0123456789ABCDEF"

  lemma UpperDigitValue(n: nat)
    requires n < 16
    ensures Hex.IsHexDigit(UpperDigits[n]) && Hex.DigitValue(UpperDigits[n]) == n
  {
  }

  /** One byte as `%` and two upper-case hex digits. */
  function Escape(b: byte): (r: string)
    ensures |r| == 3 && r[0] == '%'
  {
    ['%', UpperDigits[b / 16], UpperDigits[b % 16]]
  }

  function Escapes(bs: seq<byte>): (r: string)
    ensures |r| == 3 * |bs|
  {
    if bs == [] then "" else Escape(bs[0]) + Escapes(bs[1..])
  }

  /** The encoding of one character. */
  function EncodeChar(c: char): (r: string)
    ensures |r| >= 1
  {
    if Unescaped(c) then [c] else Escapes(Utf8(c))
  }

  /** `encodeURIComponent`. The encoding is never shorter than the text, and text made of
      unescaped characters only is its own encoding. */
  function EncodeURIComponent(s: string): (r: string)
    ensures |r| >= |s|
    ensures (forall i :: 0 <= i < |s| ==> Unescaped(s[i])) ==> r == s
  {
    if s == "" then ""
    else
      assert [s[0]] + s[1..] == s;
      assert forall i :: 1 <= i < |s| ==> s[1..][i - 1] == s[i];
      EncodeChar(s[0]) + EncodeURIComponent(s[1..])
  }

  /** The characters the encoding writes: unescaped characters, `%` and upper-case hex
      digits. */
  predicate Encoded(c: char) {
    Unescaped(c) || c == '%' || ('A' <= c <= 'F')
  }

  lemma {:induction false} EscapesEncoded(bs: seq<byte>)
    ensures forall i :: 0 <= i < |Escapes(bs)| ==> Encoded(Escapes(bs)[i])
  {
    if bs != [] {
      EscapesEncoded(bs[1..]);
      var e, rest := Escape(bs[0]), Escapes(bs[1..]);
      assert Escapes(bs) == e + rest;
      forall i | 0 <= i < |e + rest| ensures Encoded((e + rest)[i]) {
        if i >= 3 {
          assert (e + rest)[i] == rest[i - 3];
        }
      }
    }
  }

  /** Every character of the encoding is an unescaped character, `%` or a hex digit. */
  lemma {:induction false} EncodeURIComponentAlphabet(s: string)
    ensures forall i :: 0 <= i < |EncodeURIComponent(s)| ==> Encoded(EncodeURIComponent(s)[i])
  {
    if s != "" {
      EncodeURIComponentAlphabet(s[1..]);
      var e, rest := EncodeChar(s[0]), EncodeURIComponent(s[1..]);
      if !Unescaped(s[0]) {
        EscapesEncoded(Utf8(s[0]));
      }
      forall i | 0 <= i < |e + rest| ensures Encoded((e + rest)[i]) {
        if i >= |e| {
          assert (e + rest)[i] == rest[i - |e|];
        }
      }
    }
  }

  /** So the encoding holds none of the characters that delimit the parts of a query. */
  lemma NoQueryDelimiters(s: string)
    ensures forall i :: 0 <= i < |EncodeURIComponent(s)| ==> EncodeURIComponent(s)[i] !in "/?&#="
  {
    EncodeURIComponentAlphabet(s);
  }

  // ---------------------------------------------------------------- decoding

  /** The byte escaped at the start of `s`: `%` and two hex digits of either case. */
  function EscapedByte(s: string): (r: Option<byte>)
  {
    if |s| >= 3 && s[0] == '%' && Hex.IsHexDigit(s[1]) && Hex.IsHexDigit(s[2]) then
      Some(Hex.DigitValue(s[1]) * 16 + Hex.DigitValue(s[2]))
    else None
  }

  /** `n` escaped bytes at the start of `s`. */
  function EscapedBytes(s: string, n: nat): (r: Option<seq<byte>>)
    ensures r.Some? ==> |r.value| == n && |s| >= 3 * n
  {
    if n == 0 then Some([])
    else
      var b :- EscapedByte(s);
      var rest :- EscapedBytes(s[3..], n - 1);
      Some([b] + rest)
  }

  /** `decodeURIComponent`; `None` where it throws. */
  function DecodeURIComponent(s: string): (r: Option<string>)
    ensures r.Some? ==> |r.value| <= |s|
    ensures (forall i :: 0 <= i < |s| ==> s[i] != '%') ==> r == Some(s)
    decreases |s|
  {
    if s == "" then Some("")
    else if s[0] != '%' then
      assert [s[0]] + s[1..] == s;
      assert forall i :: 1 <= i < |s| ==> s[1..][i - 1] == s[i];
      var rest :- DecodeURIComponent(s[1..]);
      Some([s[0]] + rest)
    else
      var b0 :- EscapedByte(s);
      var n := SequenceLength(b0);
      if n == 0 then None
      else
        var bs :- EscapedBytes(s, n);
        var c :- DecodeUtf8(bs);
        var rest :- DecodeURIComponent(s[3 * n..]);
        Some([c] + rest)
  }

  /** A `%` and the two upper-case digits of `b` are read as `b`. */
  lemma EscapedByteAt(s: string, b: byte)
    requires |s| >= 3 && s[0] == '%' && s[1] == UpperDigits[b / 16] && s[2] == UpperDigits[b % 16]
    ensures EscapedByte(s) == Some(b)
  {
    UpperDigitValue(b / 16);
    UpperDigitValue(b % 16);
  }

  lemma EscapeReads(b: byte, tail: string)
    ensures EscapedByte(Escape(b) + tail) == Some(b)
  {
    var e := Escape(b) + tail;
    assert e[1] == UpperDigits[b / 16] && e[2] == UpperDigits[b % 16];
    EscapedByteAt(e, b);
  }

  lemma {:induction false} EscapesRead(bs: seq<byte>, tail: string)
    ensures EscapedBytes(Escapes(bs) + tail, |bs|) == Some(bs)
  {
    if bs != [] {
      var s := Escapes(bs) + tail;
      assert s == Escape(bs[0]) + (Escapes(bs[1..]) + tail);
      EscapeReads(bs[0], Escapes(bs[1..]) + tail);
      assert s[3..] == Escapes(bs[1..]) + tail;
      EscapesRead(bs[1..], tail);
      assert [bs[0]] + bs[1..] == bs;
    }
  }

  /** One step of the decoder over an escaped multi-byte character. */
  lemma DecodeEscapedStep(s: string, n: nat, bs: seq<byte>, c: char)
    requires |s| >= 3 * n && n > 0 && s[0] == '%'
    requires EscapedByte(s).Some? && SequenceLength(EscapedByte(s).value) == n
    requires EscapedBytes(s, n) == Some(bs) && DecodeUtf8(bs) == Some(c)
    requires DecodeURIComponent(s[3 * n..]).Some?
    ensures DecodeURIComponent(s) == Some([c] + DecodeURIComponent(s[3 * n..]).value)
  {
  }

  lemma EscapesHead(bs: seq<byte>, tail: string)
    requires |bs| > 0
    ensures EscapedByte(Escapes(bs) + tail) == Some(bs[0])
  {
    var e, more := Escape(bs[0]), Escapes(bs[1..]);
    var s := Escapes(bs) + tail;
    assert Escapes(bs) == e + more;
    assert s[0] == e[0] && s[1] == e[1] && s[2] == e[2];
    EscapedByteAt(s, bs[0]);
  }

  /** How the decoder reads the escapes of a well-formed UTF-8 sequence. */
  lemma DecodeEscapes(bs: seq<byte>, c: char, tail: string)
    requires |bs| > 0 && SequenceLength(bs[0]) == |bs| && DecodeUtf8(bs) == Some(c)
    requires DecodeURIComponent(tail).Some?
    ensures DecodeURIComponent(Escapes(bs) + tail) == Some([c] + DecodeURIComponent(tail).value)
  {
    var s := Escapes(bs) + tail;
    EscapesHead(bs, tail);
    EscapesRead(bs, tail);
    assert s[3 * |bs|..] == tail;
    DecodeEscapedStep(s, |bs|, bs, c);
  }

  /** How the decoder reads the escapes of one character. */
  lemma DecodeEscapedChar(c: char, tail: string)
    requires !Unescaped(c) && DecodeURIComponent(tail).Some?
    ensures DecodeURIComponent(Escapes(Utf8(c)) + tail) == Some([c] + DecodeURIComponent(tail).value)
  {
    Utf8RoundTrip(c);
    DecodeEscapes(Utf8(c), c, tail);
  }

  /** Round trip: `decodeURIComponent(encodeURIComponent(s)) === s`. */
  lemma {:induction false} DecodeEncode(s: string)
    ensures DecodeURIComponent(EncodeURIComponent(s)) == Some(s)
  {
    if s != "" {
      DecodeEncode(s[1..]);
      var rest := EncodeURIComponent(s[1..]);
      if Unescaped(s[0]) {
        var e := [s[0]] + rest;
        assert e[1..] == rest;
      } else {
        DecodeEscapedChar(s[0], rest);
      }
      assert [s[0]] + s[1..] == s;
    }
  }
}
