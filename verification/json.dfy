/**
 * `JSON.stringify` and `JSON.parse` for the flat objects of string fields the credential
 * vault writes into session storage: the encrypted blob `{data, iv, salt}` and the selected
 * project `{id, key, name}`. String escaping follows section 24.5.2 of ECMA-262 (2019 and
 * later): `"` and `\` are escaped, the control characters below U+0020 use the short forms
 * `\b \t \n \f \r` where they exist and `\u00xx` with lowercase hex otherwise.
 */
module Json {
  import opened Wrappers
  import Hex

  /** The escape `JSON.stringify` writes for one character. */
  function EscapeChar(c: char): (r: string)
    ensures |r| >= 1
  {
    if c == '"' then "\\\""
    else if c == '\\' then "\\\\"
    else if c == '\U{8}' then "\\b"
    else if c == '\U{C}' then "\\f"
    else if c == '\n' then "\\n"
    else if c == '\r' then "\\r"
    else if c == '\t' then "\\t"
    else if c < ' ' then "\\u00" + [Hex.Digits[c as int / 16], Hex.Digits[c as int % 16]]
    else [c]
  }

  function EscapeBody(s: string): string {
    if s == [] then [] else EscapeChar(s[0]) + EscapeBody(s[1..])
  }

  /** `JSON.stringify(s)` for a string `s`. */
  function Quote(s: string): (r: string)
    ensures |r| >= 2 && r[0] == '"'
  {
    "\"" + EscapeBody(s) + "\""
  }

  /** The character a one-letter escape `\x` stands for, if `x` names one. */
  function SimpleEscape(x: char): Option<char> {
    if x == '"' then Some('"')
    else if x == '\\' then Some('\\')
    else if x == '/' then Some('/')
    else if x == 'b' then Some('\U{8}')
    else if x == 'f' then Some('\U{C}')
    else if x == 'n' then Some('\n')
    else if x == 'r' then Some('\r')
    else if x == 't' then Some('\t')
    else None
  }

  predicate IsScalar(n: int) {
    (0 <= n < 0xD800) || (0xE000 <= n < 0x11_0000)
  }

  /** The value of four hex digits. */
  function Hex4(t: string): (v: nat)
    requires |t| == 4 && Hex.AllHex(t)
  {
    Hex.DigitValue(t[0]) * 4096 + Hex.DigitValue(t[1]) * 256
    + Hex.DigitValue(t[2]) * 16 + Hex.DigitValue(t[3])
  }

  /**
   * Reads the characters of a string literal up to and including its closing quote and
   * returns them decoded, with the text that follows. A `\u` escape naming a surrogate code
   * unit is refused (see the README).
   */
  function ParseBody(t: string): (r: Option<(string, string)>)
    ensures r.Some? ==> |r.value.1| < |t|
    decreases |t|
  {
    if t == [] then None
    else if t[0] == '"' then Some(([], t[1..]))
    else if t[0] == '\\' then
      if |t| < 2 then None
      else if t[1] == 'u' then
        if |t| < 6 || !Hex.AllHex(t[2..6]) || !IsScalar(Hex4(t[2..6])) then None
        else
          var rest :- ParseBody(t[6..]);
          Some(([Hex4(t[2..6]) as char] + rest.0, rest.1))
      else
        var c :- SimpleEscape(t[1]);
        var rest :- ParseBody(t[2..]);
        Some(([c] + rest.0, rest.1))
    else if t[0] < ' ' then None
    else
      var rest :- ParseBody(t[1..]);
      Some(([t[0]] + rest.0, rest.1))
  }

  /** Reads one string literal at the start of `t`. */
  function ParseString(t: string): (r: Option<(string, string)>)
    ensures r.Some? ==> |r.value.1| < |t| - 1
  {
    if t == [] || t[0] != '"' then None else ParseBody(t[1..])
  }

  lemma EscapeCharParses(c: char, rest: string)
    ensures ParseBody(EscapeChar(c) + rest) ==
            (match ParseBody(rest) case None => None case Some(p) => Some(([c] + p.0, p.1)))
  {
    var e := EscapeChar(c);
    var t := e + rest;
    if c == '"' || c == '\\' || c == '\U{8}' || c == '\U{C}' || c == '\n' || c == '\r' || c == '\t' {
      assert t[0] == '\\' && t[1] == e[1] && t[2..] == rest;
    } else if c < ' ' {
      var n := c as int;
      Hex.DigitValueOfDigits(n / 16);
      Hex.DigitValueOfDigits(n % 16);
      assert t[0] == '\\' && t[1] == 'u';
      assert t[2..6] == ['0', '0', Hex.Digits[n / 16], Hex.Digits[n % 16]];
      assert Hex4(t[2..6]) == n;
      assert t[6..] == rest;
    } else {
      assert t[0] == c && t[1..] == rest;
    }
  }

  lemma {:induction false} EscapeBodyParses(s: string, rest: string)
    ensures ParseBody(EscapeBody(s) + "\"" + rest) == Some((s, rest))
  {
    if s == [] {
      assert EscapeBody(s) + "\"" + rest == "\"" + rest;
    } else {
      EscapeBodyParses(s[1..], rest);
      assert EscapeBody(s) + "\"" + rest == EscapeChar(s[0]) + (EscapeBody(s[1..]) + "\"" + rest);
      EscapeCharParses(s[0], EscapeBody(s[1..]) + "\"" + rest);
      assert [s[0]] + s[1..] == s;
    }
  }

  /** Round trip: `JSON.parse(JSON.stringify(s)) === s` for every string, whatever follows. */
  lemma QuoteParses(s: string, rest: string)
    ensures ParseString(Quote(s) + rest) == Some((s, rest))
  {
    EscapeBodyParses(s, rest);
    assert (Quote(s) + rest)[1..] == EscapeBody(s) + "\"" + rest;
  }

  /** One member `"name":"value"` of an object. */
  function Member(f: (string, string)): string {
    Quote(f.0) + ":" + Quote(f.1)
  }

  function Members(fs: seq<(string, string)>): string {
    if fs == [] then []
    else if |fs| == 1 then Member(fs[0])
    else Member(fs[0]) + "," + Members(fs[1..])
  }

  /** `JSON.stringify` of an object whose fields are all strings, in insertion order. */
  function Stringify(fs: seq<(string, string)>): (r: string)
    ensures |r| >= 2 && r[0] == '{'
  {
    "{" + Members(fs) + "}"
  }

  function ParseMembers(t: string): (r: Option<seq<(string, string)>>)
    decreases |t|, 1
  {
    match ParseString(t)
    case None => None
    case Some((k, r1)) =>
      if r1 == [] || r1[0] != ':' then None
      else
        match ParseString(r1[1..])
        case None => None
        case Some((v, r2)) => AfterMember((k, v), r2)
  }

  /** What follows a member: `}` closes the object, `,` starts the next member. */
  function AfterMember(f: (string, string), t: string): (r: Option<seq<(string, string)>>)
    decreases |t|, 0
  {
    if t == "}" then Some([f])
    else if t != [] && t[0] == ',' then
      match ParseMembers(t[1..])
      case None => None
      case Some(more) => Some([f] + more)
    else None
  }

  /** `JSON.parse` of an object whose values are all strings, written without white space:
      the members in order; anything else is a parse failure. */
  function ParseObject(t: string): (r: Option<seq<(string, string)>>)
    ensures r.Some? ==> |t| >= 2 && t[0] == '{'
  {
    if t == "{}" then Some([])
    else if t == [] || t[0] != '{' then None
    else ParseMembers(t[1..])
  }

  /** How `ParseMembers` reads one member followed by `tail`. */
  lemma MemberThen(f: (string, string), tail: string)
    ensures ParseMembers(Member(f) + tail) == AfterMember(f, tail)
  {
    var s1 := ":" + Quote(f.1) + tail;
    assert Member(f) + tail == Quote(f.0) + s1;
    QuoteParses(f.0, s1);
    assert s1[0] == ':' && s1[1..] == Quote(f.1) + tail;
    QuoteParses(f.1, tail);
  }

  /** A member followed by `,` and a list that parses is read as one more member. */
  lemma MembersStep(f: (string, string), rest: string, more: seq<(string, string)>)
    requires rest != [] && ParseMembers(rest) == Some(more)
    ensures ParseMembers(Member(f) + ("," + rest)) == Some([f] + more)
  {
    var tail := "," + rest;
    MemberThen(f, tail);
    assert tail != "}" by {
      assert |tail| >= 2;
    }
    assert tail[0] == ',' && tail[1..] == rest;
  }

  lemma Regroup(a: string, b: string, c: string, d: string)
    ensures a + b + c + d == a + (b + (c + d))
  {
  }

  lemma MembersCons(fs: seq<(string, string)>)
    requires |fs| >= 2
    ensures Members(fs) + "}" == Member(fs[0]) + ("," + (Members(fs[1..]) + "}"))
  {
    Regroup(Member(fs[0]), ",", Members(fs[1..]), "}");
  }

  lemma {:induction false} MembersParse(fs: seq<(string, string)>)
    requires fs != []
    ensures ParseMembers(Members(fs) + "}") == Some(fs)
  {
    if |fs| == 1 {
      assert Members(fs) == Member(fs[0]);
      MemberThen(fs[0], "}");
      assert [fs[0]] == fs;
    } else {
      var rest := Members(fs[1..]) + "}";
      MembersCons(fs);
      MembersParse(fs[1..]);
      MembersStep(fs[0], rest, fs[1..]);
      assert [fs[0]] + fs[1..] == fs;
    }
  }

  /** Round trip: parsing the text `JSON.stringify` writes gives back every member. */
  lemma StringifyParses(fs: seq<(string, string)>)
    ensures ParseObject(Stringify(fs)) == Some(fs)
  {
    if fs == [] {
      assert Stringify(fs) == "{}";
    } else {
      MembersParse(fs);
      assert Members(fs) != [];
      assert Stringify(fs) != "{}" by {
        assert Stringify(fs)[1] == '"';
      }
      assert Stringify(fs)[1..] == Members(fs) + "}";
    }
  }

  /** The value of a field, as property access on the parsed object: the last member with
      that name wins. */
  function Lookup(fs: seq<(string, string)>, name: string): (r: Option<string>)
    ensures r.Some? <==> exists i :: 0 <= i < |fs| && fs[i].0 == name
  {
    if fs == [] then None
    else if fs[|fs| - 1].0 == name then Some(fs[|fs| - 1].1)
    else Lookup(fs[..|fs| - 1], name)
  }

  /** A name that occurs once is looked up to its own value. */
  lemma {:induction false} LookupUnique(fs: seq<(string, string)>, i: int)
    requires 0 <= i < |fs|
    requires forall j :: 0 <= j < |fs| && j != i ==> fs[j].0 != fs[i].0
    ensures Lookup(fs, fs[i].0) == Some(fs[i].1)
  {
    if i != |fs| - 1 {
      LookupUnique(fs[..|fs| - 1], i);
    }
  }
}
