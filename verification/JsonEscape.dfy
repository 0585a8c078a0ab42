/**
 JSON string bodies (RFC 8259 section 7): the escaping of restored originals, decoding, and the
 commutation of the JSON-context exact pass with decoding.
 */
module JsonEscape {
  import opened Text
  import Utf8

  const HEX := "0123456789abcdef"

  function HexDigit(n: nat): char
    requires n < 16
  {
    HEX[n]
  }

  function HexValue(c: char): Option<nat> {
    if '0' <= c <= '9' then Some(c as int - '0' as int)
    else if 'a' <= c <= 'f' then Some(c as int - 'a' as int + 10)
    else if 'A' <= c <= 'F' then Some(c as int - 'A' as int + 10)
    else None
  }

  /** The code unit spelled by four hex digits at the head of `s`. */
  function Hex4(s: string): (r: Option<nat>)
    ensures r.Some? ==> r.value < 0x1_0000 && |s| >= 4
    ensures r.Some? ==> forall k :: 0 <= k < 4 ==> s[k] != '<' && s[k] != '>'
  {
    if |s| < 4 then None else
      match (HexValue(s[0]), HexValue(s[1]), HexValue(s[2]), HexValue(s[3]))
      case (Some(a), Some(b), Some(c), Some(d)) => Some(a * 0x1000 + b * 0x100 + c * 0x10 + d)
      case _ => None
  }

  /** UTF-8 of a code point (RFC 3629 section 3). */
  function Encode(cp: nat): (s: string)
    requires cp < 0x11_0000
    ensures s != "" && (|s| > 1 ==> '<' !in s)
  {
    if cp < 0x80 then [cp as char]
    else if cp < 0x800 then [(0xC0 + cp / 0x40) as char, (0x80 + cp % 0x40) as char]
    else if cp < 0x1_0000 then
      [(0xE0 + cp / 0x1000) as char, (0x80 + cp / 0x40 % 0x40) as char, (0x80 + cp % 0x40) as char]
    else
      [(0xF0 + cp / 0x4_0000) as char, (0x80 + cp / 0x1000 % 0x40) as char,
       (0x80 + cp / 0x40 % 0x40) as char, (0x80 + cp % 0x40) as char]
  }

  /** What the escaper writes for one byte below 0x80. */
  function EscapeAscii(c: char): string
    requires c as int < 0x80
  {
    if c == '"' || c == '\\' then ['\\', c]
    else if c as int == 8 then "\\b"
    else if c as int == 9 then "\\t"
    else if c as int == 10 then "\\n"
    else if c as int == 12 then "\\f"
    else if c as int == 13 then "\\r"
    else if c as int < 0x20 then "\\u00" + [HexDigit(c as int / 16), HexDigit(c as int % 16)]
    else [c]
  }

  const LINE_SEPARATOR: string := [0xE2 as char, 0x80 as char, 0xA8 as char]
  const PARAGRAPH_SEPARATOR: string := [0xE2 as char, 0x80 as char, 0xA9 as char]

  /** json.Encoder without HTML escaping, quotes stripped. */
  function Escape(s: string): string
    decreases |s|
  {
    if s == "" then "" else
      var n := Utf8.RuneLen(s);
      if n == 0 then "\\ufffd" + Escape(s[1..])
      else if n == 1 then EscapeAscii(s[0]) + Escape(s[1..])
      else if s[..n] == LINE_SEPARATOR then "\\u2028" + Escape(s[n..])
      else if s[..n] == PARAGRAPH_SEPARATOR then "\\u2029" + Escape(s[n..])
      else s[..n] + Escape(s[n..])
  }

  // ---- decoding ----

  /** One raw byte or one escape sequence of a string body, and what it stands for. */
  datatype Unit = Unit(len: nat, text: string)

  predicate LowSurrogate(s: string) {
    |s| >= 6 && s[0] == '\\' && s[1] == 'u' && Hex4(s[2..]).Some? && 0xDC00 <= Hex4(s[2..]).value < 0xE000
  }

  function ShortEscape(c: char): Option<char> {
    if c == '"' || c == '\\' || c == '/' then Some(c)
    else if c == 'b' then Some(8 as char)
    else if c == 't' then Some(9 as char)
    else if c == 'n' then Some(10 as char)
    else if c == 'f' then Some(12 as char)
    else if c == 'r' then Some(13 as char)
    else None
  }

  /** A `\uXXXX` escape; a surrogate without its partner stands for U+FFFD. */
  function UnicodeEscape(b: string): (u: Option<Unit>)
    requires |b| >= 2
    ensures u.Some? ==> 6 <= u.value.len <= |b| && u.value.text != ""
  {
    match Hex4(b[2..])
    case None => None
    case Some(cu) =>
      if 0xD800 <= cu < 0xDC00 && LowSurrogate(b[6..]) then
        Some(Unit(12, Encode(0x1_0000 + (cu - 0xD800) * 0x400 + (Hex4(b[8..]).value - 0xDC00))))
      else if 0xD800 <= cu < 0xE000 then Some(Unit(6, Encode(0xFFFD)))
      else Some(Unit(6, Encode(cu)))
  }

  /** The first unit of a body, or None when the body is not valid there. */
  function First(b: string): (u: Option<Unit>)
    requires b != ""
    ensures u.Some? ==> 0 < u.value.len <= |b| && u.value.text != ""
    ensures u.Some? && |u.value.text| > 1 ==> '<' !in u.value.text
    ensures u.Some? && u.value.len > 1 ==> '<' !in b[..u.value.len]
    ensures u.Some? && u.value.len == 1 ==> u.value.text == [b[0]]
  {
    if b[0] == '"' || b[0] as int < 0x20 then None
    else if b[0] != '\\' then Some(Unit(1, [b[0]]))
    else if |b| < 2 then None
    else if b[1] == 'u' then UnicodeNoOpen(b); UnicodeEscape(b)
    else
      match ShortEscape(b[1])
      case Some(c) => Some(Unit(2, [c]))
      case None => None
  }

  lemma UnicodeNoOpen(b: string)
    requires |b| >= 2 && b[0] == '\\' && b[1] == 'u'
    ensures var u := UnicodeEscape(b);
            u.Some? ==> '<' !in b[..u.value.len] && (|u.value.text| > 1 ==> '<' !in u.value.text)
  {
    var u := UnicodeEscape(b);
    if u.Some? {
      hide HexValue, Encode;
      forall k | 0 <= k < u.value.len
        ensures b[k] != '<'
      {
        if 2 <= k < 6 { assert b[k] == b[2..][k - 2]; }
        if 6 <= k < 8 { assert b[k] == b[6..][k - 6]; }
        if 8 <= k { assert b[6..][2..] == b[8..] && b[k] == b[8..][k - 8]; }
      }
    }
  }

  /** The text a body stands for, or None when it is not a valid string body. */
  function Unescape(b: string): Option<string>
    decreases |b|
  {
    if b == "" then Some("") else
      match First(b)
      case None => None
      case Some(u) =>
        match Unescape(b[u.len..])
        case None => None
        case Some(rest) => Some(u.text + rest)
  }

  /** Puts text in front of a decoding result. */
  function Prepend(t: string, r: Option<string>): Option<string> {
    match r
    case None => None
    case Some(s) => Some(t + s)
  }

  /** Bytes that stand for themselves in a string body. */
  predicate Plain(s: string) {
    forall i :: 0 <= i < |s| ==> s[i] as int >= 0x20 && s[i] != '"' && s[i] != '\\'
  }

  lemma UnescapeUnit(e: string, x: string, t: string)
    requires e != "" && First(e + x) == Some(Unit(|e|, t))
    ensures Unescape(e + x) == Prepend(t, Unescape(x))
  {
    assert (e + x)[|e|..] == x;
  }

  lemma {:induction false} UnescapePlain(w: string, x: string)
    requires Plain(w)
    ensures Unescape(w + x) == Prepend(w, Unescape(x))
  {
    hide First;
    if w == "" {
      assert w + x == x;
      PrependNothing(Unescape(x));
    } else {
      HeadTail(w);
      Reassociate([w[0]], w[1..], x);
      UnescapePlain(w[1..], x);
      FirstPlain(w[0], w[1..] + x);
      UnescapeUnit([w[0]], w[1..] + x, [w[0]]);
      PrependTwice([w[0]], w[1..], Unescape(x));
    }
  }

  lemma FirstPlain(c: char, x: string)
    requires Plain([c])
    ensures First([c] + x) == Some(Unit(1, [c]))
  {
    assert [c][0] == c;
  }

  lemma PrependNothing(r: Option<string>)
    ensures Prepend("", r) == r
  {
    if r.Some? { assert "" + r.value == r.value; }
  }

  lemma PrependTwice(a: string, b: string, r: Option<string>)
    ensures Prepend(a, Prepend(b, r)) == Prepend(a + b, r)
  {
    if r.Some? { Reassociate(a, b, r.value); }
  }

  lemma EscapeAsciiFirst(c: char, x: string)
    requires c as int < 0x80
    ensures First(EscapeAscii(c) + x) == Some(Unit(|EscapeAscii(c)|, [c]))
  {
    var e := EscapeAscii(c);
    if c == '"' || c == '\\' || 8 <= c as int <= 10 || 12 <= c as int <= 13 {
      assert (e + x)[0] == e[0] && (e + x)[1] == e[1];
    } else if c as int < 0x20 {
      ControlEscape(c, x);
    } else {
      assert (e + x)[0] == c;
    }
  }

  lemma HexDigitValue(n: nat)
    requires n < 16
    ensures HexValue(HexDigit(n)) == Some(n)
  {
  }

  lemma ControlEscape(c: char, x: string)
    requires c as int < 0x20
    ensures First("\\u00" + [HexDigit(c as int / 16), HexDigit(c as int % 16)] + x) == Some(Unit(6, [c]))
  {
    var e := "\\u00" + [HexDigit(c as int / 16), HexDigit(c as int % 16)];
    UnicodeFirst(e, x, 0, 0, c as int / 16, c as int % 16);
  }

  /** A `\u` escape whose digits spell a code unit that is no surrogate. */
  lemma UnicodeFirst(e: string, x: string, h3: nat, h2: nat, h1: nat, h0: nat)
    requires h3 < 16 && h2 < 16 && h1 < 16 && h0 < 16 && h3 != 0xD
    requires e == ['\\', 'u', HexDigit(h3), HexDigit(h2), HexDigit(h1), HexDigit(h0)]
    ensures First(e + x) == Some(Unit(6, Encode(h3 * 0x1000 + h2 * 0x100 + h1 * 0x10 + h0)))
  {
    hide Encode;
    var b := e + x;
    assert forall k :: 0 <= k < 6 ==> b[k] == e[k];
    HexDigitValue(h3);
    HexDigitValue(h2);
    HexDigitValue(h1);
    HexDigitValue(h0);
    hide HexDigit, HexValue;
    assert b[2..][0] == e[2] && b[2..][1] == e[3] && b[2..][2] == e[4] && b[2..][3] == e[5];
    assert Hex4(b[2..]) == Some(h3 * 0x1000 + h2 * 0x100 + h1 * 0x10 + h0);
  }

  lemma SeparatorFirst(x: string)
    ensures First("\\u2028" + x) == Some(Unit(6, LINE_SEPARATOR))
    ensures First("\\u2029" + x) == Some(Unit(6, PARAGRAPH_SEPARATOR))
  {
    UnicodeFirst("\\u2028", x, 2, 0, 2, 8);
    UnicodeFirst("\\u2029", x, 2, 0, 2, 9);
    hide First;
    assert Encode(0x2028) == LINE_SEPARATOR && Encode(0x2029) == PARAGRAPH_SEPARATOR;
  }

  /** Escaping then decoding a valid text gives it back, whatever follows. */
  lemma {:induction false} UnescapeEscape(o: string, x: string)
    requires Utf8.Valid(o)
    ensures Unescape(Escape(o) + x) == Prepend(o, Unescape(x))
    decreases |o|
  {
    hide First, Unescape, Encode, Utf8.RuneLen, EscapeAscii;
    if o == "" {
      assert Escape(o) + x == x;
      PrependNothing(Unescape(x));
    } else {
      var n := Utf8.RuneLen(o);
      var rest := Escape(o[n..]) + x;
      UnescapeEscape(o[n..], x);
      var e := EscapeRune(o, rest);
      Reassociate(e, Escape(o[n..]), x);
      PrependTwice(o[..n], o[n..], Unescape(x));
      TakeDrop(o, n);
    }
  }

  /** The escape of the first character of `o`, and how it decodes. */
  lemma EscapeRune(o: string, x: string) returns (e: string)
    requires o != "" && Utf8.RuneLen(o) > 0
    ensures Escape(o) == e + Escape(o[Utf8.RuneLen(o)..])
    ensures Unescape(e + x) == Prepend(o[..Utf8.RuneLen(o)], Unescape(x))
  {
    hide First, Encode, EscapeAscii;
    var n := Utf8.RuneLen(o);
    if n == 1 {
      e := EscapeAscii(o[0]);
      EscapeAsciiFirst(o[0], x);
      UnescapeUnit(e, x, [o[0]]);
      assert o[..1] == [o[0]];
    } else if o[..n] == LINE_SEPARATOR || o[..n] == PARAGRAPH_SEPARATOR {
      e := if o[..n] == LINE_SEPARATOR then "\\u2028" else "\\u2029";
      SeparatorFirst(x);
      UnescapeUnit(e, x, o[..n]);
    } else {
      e := o[..n];
      UnescapePlain(e, x);
    }
  }
}
