/**
 Restoring placeholders inside a JSON string body, originals escaped, against decoding the body
 first and restoring the originals verbatim.
 */
module JsonCommute {
  import opened Text
  import opened AngleRewrite
  import opened JsonEscape
  import Demasking
  import Utf8

  /** What minted placeholders and originals are: plain tokens and valid UTF-8. */
  ghost predicate Minted(m: map<string, string>) {
    forall w :: w in m ==> IsToken(w) && Plain(w) && Utf8.Valid(m[w])
  }

  /** No original is empty. */
  ghost predicate Solid(m: map<string, string>) {
    forall w :: w in m ==> m[w] != ""
  }

  function Escaped(m: map<string, string>): map<string, string> {
    map w | w in m :: Escape(m[w])
  }

  /** The exact pass of a JSON-context demasker over a raw body. */
  function JsonPass(m: map<string, string>, b: string): string {
    Rewrite(Demasking.Lookup(Escaped(m)), b)
  }

  /** The exact pass of a plain demasker over decoded text. */
  function PlainPass(m: map<string, string>, t: string): string {
    Rewrite(Demasking.Lookup(m), t)
  }

  predicate HasToken(m: map<string, string>, t: string) {
    HeadLen(Demasking.Lookup(m), t) > 0
  }

  /** Every placeholder of the decoded text is spelled in the body without escapes. */
  predicate RawTokens(m: map<string, string>, b: string)
    requires Unescape(b).Some?
    decreases |b|
  {
    b == "" || ((HasToken(m, Unescape(b).value) ==> HasToken(m, b)) && RawTokens(m, b[First(b).value.len..]))
  }

  lemma SameTokens(m: map<string, string>, b: string)
    ensures HeadLen(Demasking.Lookup(Escaped(m)), b) == HeadLen(Demasking.Lookup(m), b)
  {
    hide TokenLen;
  }

  // ---- at the head of a body ----

  /** A raw placeholder at the head decodes to itself and is restored on both sides. */
  lemma TokenHead(m: map<string, string>, b: string)
    requires Minted(m) && HasToken(m, b) && Unescape(b).Some?
    ensures var n := HeadLen(Demasking.Lookup(m), b);
            && 0 < n <= |b| && b[..n] in m && Unescape(b[n..]).Some?
            && Unescape(b) == Some(b[..n] + Unescape(b[n..]).value)
            && JsonPass(m, b) == Escape(m[b[..n]]) + JsonPass(m, b[n..])
            && PlainPass(m, Unescape(b).value) == m[b[..n]] + PlainPass(m, Unescape(b[n..]).value)
  {
    hide Unescape, First, TokenLen, Rewrite, IsToken, Plain, Escape;
    var n := HeadLen(Demasking.Lookup(m), b);
    var w := b[..n];
    assert w in m;
    SameTokens(m, b);
    RewriteHead(Demasking.Lookup(Escaped(m)), b);
    TakeDrop(b, n);
    UnescapePlain(w, b[n..]);
    RewriteToken(Demasking.Lookup(m), w, Unescape(b[n..]).value);
  }

  /** What an escaped original starts with is never the second half of a surrogate pair. */
  lemma EscapeNotLow(o: string, x: string)
    requires o != "" && Utf8.Valid(o)
    ensures !LowSurrogate(Escape(o) + x)
  {
    hide Encode, HexDigit;
    var n := Utf8.RuneLen(o);
    var s := Escape(o) + x;
    if n == 1 {
      EscapeAsciiShape(o[0]);
      assert s[0] == EscapeAscii(o[0])[0];
      assert |EscapeAscii(o[0])| > 1 ==> s[1] == EscapeAscii(o[0])[1];
      assert |EscapeAscii(o[0])| > 2 ==> s[2] == EscapeAscii(o[0])[2] == '0';
      NotLow(s);
    } else if o[..n] == LINE_SEPARATOR || o[..n] == PARAGRAPH_SEPARATOR {
      assert s[2] == '2';
      NotLow(s);
    } else {
      assert Escape(o)[0] == o[..n][0];
      assert s[0] == o[0];
    }
  }

  lemma EscapeAsciiShape(c: char)
    requires c as int < 0x80
    ensures var e := EscapeAscii(c);
            && e != "" && (|e| == 1 ==> e[0] != '\\')
            && (|e| == 2 ==> e[1] != 'u')
            && (|e| > 2 ==> e[2] == '0')
  {
  }

  lemma NotLow(s: string)
    requires |s| > 2 && s[0] == '\\' && s[1] == 'u' ==> s[2] == '0' || s[2] == '2'
    ensures !LowSurrogate(s)
  {
    if |s| >= 6 {
      assert s[2..][0] == s[2];
    }
  }

  /** A pass never creates a second half of a surrogate pair at the head. */
  lemma LowStays(m: map<string, string>, b: string)
    requires Minted(m) && Solid(m) && Unescape(b).Some?
    ensures LowSurrogate(JsonPass(m, b)) ==> LowSurrogate(b)
  {
    hide Unescape, LowSurrogate, TokenLen, IsToken, Plain, First;
    if b == "" {
      assert JsonPass(m, b) == b;
    } else if HasToken(m, b) {
      TokenHead(m, b);
      var n := HeadLen(Demasking.Lookup(m), b);
      EscapeNotLow(m[b[..n]], JsonPass(m, b[n..]));
    } else {
      UnitKept(m, b);
      FirstOfValid(b);
      var n := First(b).value.len;
      LowPrefix(b, JsonPass(m, b[n..]));
    }
  }

  lemma FirstOfValid(b: string)
    requires b != "" && Unescape(b).Some?
    ensures First(b).Some? && Unescape(b[First(b).value.len..]).Some?
    ensures Unescape(b).value == First(b).value.text + Unescape(b[First(b).value.len..]).value
  {
  }

  lemma LowPrefix(b: string, x: string)
    requires b != "" && First(b).Some?
    ensures LowSurrogate(b[..First(b).value.len] + x) ==> LowSurrogate(b)
  {
    var n := First(b).value.len;
    var s := b[..n] + x;
    if LowSurrogate(s) {
      assert s[0] == b[0];
      assert n >= 2 && s[1] == b[1];
      assert n >= 6;
      assert s[..6] == b[..6];
      assert s[2..][..4] == b[2..][..4];
      Hex4Prefix(s[2..], b[2..]);
    }
  }

  lemma Hex4Prefix(a: string, b: string)
    requires |a| >= 4 && |b| >= 4 && a[..4] == b[..4]
    ensures Hex4(a) == Hex4(b)
  {
    assert forall k :: 0 <= k < 4 ==> a[k] == a[..4][k] && b[k] == b[..4][k];
  }

  /** A unit that starts no placeholder is copied by the pass. */
  lemma UnitKept(m: map<string, string>, b: string)
    requires b != "" && !HasToken(m, b) && Unescape(b).Some?
    ensures var n := First(b).value.len; JsonPass(m, b) == b[..n] + JsonPass(m, b[n..])
  {
    hide TokenLen, HeadLen, First;
    var f, n := Demasking.Lookup(Escaped(m)), First(b).value.len;
    SameTokens(m, b);
    if n == 1 {
      RewriteStep(f, b);
      assert b[..1] == [b[0]];
    } else {
      hide Rewrite;
      RewriteAngleFree(f, b[..n], b[n..]);
      TakeDrop(b, n);
    }
  }

  /** A unit reads the same in front of another text, unless a surrogate pair forms. */
  lemma FirstStable(b: string, x: string)
    requires b != "" && First(b).Some?
    requires LowSurrogate(x) ==> LowSurrogate(b[First(b).value.len..])
    ensures First(b[..First(b).value.len] + x) == First(b)
  {
    hide Encode, HexValue;
    var u := First(b).value;
    var s := b[..u.len] + x;
    assert forall k :: 0 <= k < u.len ==> s[k] == b[k];
    if u.len >= 6 {
      Hex4Prefix(s[2..], b[2..]);
      if u.len == 12 {
        assert s[6..][2..] == s[8..] && b[6..][2..] == b[8..];
        Hex4Prefix(s[8..], b[8..]);
      } else {
        assert s[6..] == x;
      }
    }
  }

  // ---- the theorem ----

  /** The unit at the head of `b` is kept on the raw side and decodes as before. */
  lemma UnitHead(m: map<string, string>, b: string)
    requires Minted(m) && Solid(m) && b != "" && !HasToken(m, b) && Unescape(b).Some?
    ensures var u := First(b).value;
            && Unescape(b[u.len..]).Some?
            && Unescape(b).value == u.text + Unescape(b[u.len..]).value
            && Unescape(JsonPass(m, b)) == Prepend(u.text, Unescape(JsonPass(m, b[u.len..])))
  {
    hide First, LowSurrogate, JsonPass, HasToken;
    var u := First(b).value;
    var x := JsonPass(m, b[u.len..]);
    UnitKept(m, b);
    LowStays(m, b[u.len..]);
    FirstStable(b, x);
    assert |b[..u.len]| == u.len;
    UnescapeUnit(b[..u.len], x, u.text);
  }

  /** Text a unit stands for is copied by the pass over decoded text when no placeholder starts there. */
  lemma TextKept(m: map<string, string>, t: string, rest: string)
    requires t != "" && (|t| > 1 ==> '<' !in t) && !HasToken(m, t + rest)
    ensures PlainPass(m, t + rest) == t + PlainPass(m, rest)
  {
    hide TokenLen, HeadLen, Rewrite;
    if |t| == 1 {
      RewriteStep(Demasking.Lookup(m), t + rest);
      assert (t + rest)[1..] == rest && t == [t[0]];
    } else {
      RewriteAngleFree(Demasking.Lookup(m), t, rest);
    }
  }

  /** A raw placeholder and the same placeholder decoded: the rest decides. */
  lemma CommuteAtToken(m: map<string, string>, b: string)
    requires Minted(m) && HasToken(m, b) && Unescape(b).Some?
    ensures var n := HeadLen(Demasking.Lookup(m), b);
            0 < n <= |b| && Unescape(b[n..]).Some?
            && (Unescape(JsonPass(m, b)) == Some(PlainPass(m, Unescape(b).value))
                <==> Unescape(JsonPass(m, b[n..])) == Some(PlainPass(m, Unescape(b[n..]).value)))
  {
    hide JsonPass, PlainPass, First, IsToken, Plain, Unescape;
    TokenHead(m, b);
    var n := HeadLen(Demasking.Lookup(m), b);
    var o := m[b[..n]];
    var r := Unescape(JsonPass(m, b[n..]));
    UnescapeEscape(o, JsonPass(m, b[n..]));
    CancelPrefix(o, r, PlainPass(m, Unescape(b[n..]).value));
  }

  lemma CancelPrefix(o: string, r: Option<string>, s: string)
    ensures Prepend(o, r) == Some(o + s) <==> r == Some(s)
  {
    if r.Some? && o + r.value == o + s {
      assert (o + r.value)[|o|..] == r.value && (o + s)[|o|..] == s;
    }
  }

  lemma RawTokensStep(m: map<string, string>, c: char, rest: string)
    requires Plain([c]) && Unescape([c] + rest).Some?
    ensures Unescape(rest).Some?
    ensures var d := Unescape([c] + rest).value;
            d == [c] + Unescape(rest).value
            && (RawTokens(m, [c] + rest) <==> ((HasToken(m, d) ==> HasToken(m, [c] + rest)) && RawTokens(m, rest)))
  {
    hide First, HasToken;
    FirstPlain(c, rest);
    assert ([c] + rest)[1..] == rest;
  }

  lemma {:induction false} RawTokensInside(m: map<string, string>, w: string, rest: string)
    requires Plain(w) && '<' !in w && Unescape(w + rest).Some?
    ensures Unescape(rest).Some? && (RawTokens(m, w + rest) <==> RawTokens(m, rest))
  {
    hide First, TokenLen, HeadLen, Unescape, RawTokens;
    if w == "" {
      assert w + rest == rest;
    } else {
      assert w[0] in w;
      HeadTail(w);
      Reassociate([w[0]], w[1..], rest);
      RawTokensStep(m, w[0], w[1..] + rest);
      NoTokenAt(m, w[0], Unescape(w[1..] + rest).value);
      RawTokensInside(m, w[1..], rest);
    }
  }

  lemma NoTokenAt(m: map<string, string>, c: char, s: string)
    requires c != '<'
    ensures !HasToken(m, [c] + s)
  {
  }

  lemma RawTokensAfterToken(m: map<string, string>, b: string)
    requires Minted(m) && HasToken(m, b) && Unescape(b).Some?
    ensures var n := HeadLen(Demasking.Lookup(m), b);
            0 < n <= |b| && Unescape(b[n..]).Some? && (RawTokens(m, b) <==> RawTokens(m, b[n..]))
  {
    hide *;
    TokenHead(m, b);
    var n := HeadLen(Demasking.Lookup(m), b);
    var w, rest := b[..n], b[n..];
    TokenParts(m, w);
    TakeDrop(b, n);
    Reassociate([w[0]], w[1..], rest);
    RawTokensStep(m, w[0], w[1..] + rest);
    RawTokensInside(m, w[1..], rest);
  }

  lemma TokenParts(m: map<string, string>, w: string)
    requires Minted(m) && w in m
    ensures w != "" && w == [w[0]] + w[1..] && Plain([w[0]]) && Plain(w[1..]) && '<' !in w[1..]
  {
    TokenTail(w);
  }

  lemma TokenTail(w: string)
    requires IsToken(w) && Plain(w)
    ensures Plain([w[0]]) && Plain(w[1..]) && '<' !in w[1..]
  {
    assert w[1..] == w[1..|w| - 1] + ">";
  }

  lemma NoTokenUnlessOpen(m: map<string, string>, b: string)
    requires Minted(m) && Unescape(b).Some? && Unescape(b).value != "" && Unescape(b).value[0] != '<'
    ensures b != "" && !HasToken(m, b)
  {
    hide JsonPass, PlainPass, First, HasToken, Unescape;
    if b == "" {
      EmptyBody(m);
    } else if HasToken(m, b) {
      TokenHead(m, b);
      TokenOpens(m, b[..HeadLen(Demasking.Lookup(m), b)]);
    }
  }

  lemma TokenOpens(m: map<string, string>, w: string)
    requires Minted(m) && w in m
    ensures w != "" && w[0] == '<'
  {
  }

  /** Text without an opening bracket reads the same after the pass over the raw body. */
  lemma {:induction false} StartStays(m: map<string, string>, b: string, s: string)
    requires Minted(m) && Solid(m) && Unescape(b).Some? && s <= Unescape(b).value && '<' !in s
    ensures Unescape(JsonPass(m, b)).Some? ==> s <= Unescape(JsonPass(m, b)).value
    decreases |b|
  {
    hide First, JsonPass, HasToken, Unescape;
    if s != "" {
      assert s[0] in s && s[0] == Unescape(b).value[0];
      NoTokenUnlessOpen(m, b);
      UnitHead(m, b);
      FirstOfValid(b);
      var u, rest := First(b).value, Unescape(b[First(b).value.len..]).value;
      var left := Unescape(JsonPass(m, b[u.len..]));
      if |u.text| < |s| {
        PrefixRest(u.text, rest, s);
        StartStays(m, b[u.len..], s[|u.text|..]);
        if left.Some? { PrefixJoin(u.text, left.value, s); }
      } else {
        PrefixFirst(u.text, rest, s);
        if left.Some? { assert s <= u.text + left.value; }
      }
    }
  }

  lemma PrefixRest(t: string, rest: string, s: string)
    requires s <= t + rest && |t| <= |s| && '<' !in s
    ensures s[..|t|] == t && s[|t|..] <= rest && '<' !in s[|t|..]
  {
    assert s == (t + rest)[..|s|];
    assert s[..|t|] == (t + rest)[..|t|] == t;
    assert s[|t|..] == rest[..|s| - |t|];
  }

  lemma PrefixJoin(t: string, rest: string, s: string)
    requires |t| <= |s| && s[..|t|] == t && s[|t|..] <= rest
    ensures s <= t + rest
  {
    assert s == t + s[|t|..];
  }

  lemma PrefixFirst(t: string, rest: string, s: string)
    requires s <= t + rest && |s| <= |t|
    ensures s <= t
  {
    assert s == (t + rest)[..|s|] == t[..|s|];
  }

  /** Neither is the other's beginning. */
  ghost predicate Apart(w: string, o: string) {
    exists k :: 0 <= k < |w| && k < |o| && w[k] != o[k]
  }

  lemma ApartIsSolid(m: map<string, string>)
    requires forall w :: w in m ==> Apart(w, m[w])
    ensures Solid(m)
  {
  }

  lemma ApartDiffers(w: string, o: string, x: string, y: string)
    requires Apart(w, o)
    ensures w + x != o + y
  {
    var k :| 0 <= k < |w| && k < |o| && w[k] != o[k];
    assert (w + x)[k] == w[k] && (o + y)[k] == o[k];
  }

  /** The first placeholder spelled with an escape makes the two sides differ. */
  lemma EscapedDiffers(m: map<string, string>, b: string)
    requires Minted(m) && b != "" && Unescape(b).Some? && !HasToken(m, b)
    requires forall w :: w in m ==> Apart(w, m[w])
    requires HasToken(m, Unescape(b).value)
    ensures Unescape(JsonPass(m, b)) != Some(PlainPass(m, Unescape(b).value))
  {
    hide First, JsonPass, TokenLen, Unescape, IsToken, Plain, Apart, Rewrite;
    ApartIsSolid(m);
    UnitHead(m, b);
    FirstOfValid(b);
    FirstText(b);
    var u, d := First(b).value, Unescape(b).value;
    RewriteHead(Demasking.Lookup(m), d);
    var n := HeadLen(Demasking.Lookup(m), d);
    var w := d[..n];
    assert w in m;
    TokenParts(m, w);
    TokenOpens(m, w);
    assert d[0] == w[0] == '<' && u.text[0] == d[0];
    assert u.text[0] in u.text && u.text == [w[0]];
    OpenRest(u.text, Unescape(b[u.len..]).value, w);
    StartStays(m, b[u.len..], w[1..]);
    var left := Unescape(JsonPass(m, b[u.len..]));
    if left.Some? {
      assert u.text + left.value == w + left.value[|w| - 1..] by { assert left.value == w[1..] + left.value[|w| - 1..]; }
      ApartDiffers(w, m[w], left.value[|w| - 1..], PlainPass(m, d[n..]));
    }
  }

  lemma FirstText(b: string)
    requires b != "" && First(b).Some?
    ensures First(b).value.text != "" && (|First(b).value.text| > 1 ==> '<' !in First(b).value.text)
  {
  }

  lemma OpenRest(t: string, rest: string, w: string)
    requires |t| == 1 && w != "" && w <= t + rest
    ensures w[1..] <= rest
  {
    assert w == (t + rest)[..|w|];
    assert w[1..] == rest[..|w| - 1];
  }

  /**
   For every valid string body and all originals: when no placeholder is spelled with escapes,
   restoring in the body with escaped originals and then decoding equals decoding and restoring
   verbatim.
   */
  lemma {:induction false} RawPassCommutes(m: map<string, string>, b: string)
    requires Minted(m) && Solid(m) && Unescape(b).Some? && RawTokens(m, b)
    ensures Unescape(JsonPass(m, b)) == Some(PlainPass(m, Unescape(b).value))
    decreases |b|
  {
    hide First, JsonPass, PlainPass, HasToken, Unescape;
    if b == "" {
      EmptyBody(m);
    } else if HasToken(m, b) {
      CommuteAtToken(m, b);
      RawTokensAfterToken(m, b);
      RawPassCommutes(m, b[HeadLen(Demasking.Lookup(m), b)..]);
    } else {
      UnitHead(m, b);
      FirstOfValid(b);
      CommuteAtUnit(m, b);
      RawPassCommutes(m, b[First(b).value.len..]);
    }
  }

  lemma CommuteAtUnit(m: map<string, string>, b: string)
    requires Minted(m) && Solid(m) && b != "" && Unescape(b).Some? && !HasToken(m, b) && !HasToken(m, Unescape(b).value)
    ensures var rest := b[First(b).value.len..];
            && Unescape(rest).Some?
            && (Unescape(JsonPass(m, b)) == Some(PlainPass(m, Unescape(b).value))
                <==> Unescape(JsonPass(m, rest)) == Some(PlainPass(m, Unescape(rest).value)))
  {
    hide First, JsonPass, PlainPass, HasToken, Unescape;
    UnitHead(m, b);
    FirstOfValid(b);
    FirstText(b);
    var u := First(b).value;
    TextKept(m, u.text, Unescape(b[u.len..]).value);
    CancelPrefix(u.text, Unescape(JsonPass(m, b[u.len..])), PlainPass(m, Unescape(b[u.len..]).value));
  }

  /**
   The two agree exactly when no placeholder is spelled with escapes, unless an original begins with
   its own placeholder or is the beginning of it.
   */
  lemma {:induction false} PassCommutesWithDecoding(m: map<string, string>, b: string)
    requires Minted(m) && Unescape(b).Some?
    requires forall w :: w in m ==> Apart(w, m[w])
    ensures Unescape(JsonPass(m, b)) == Some(PlainPass(m, Unescape(b).value)) <==> RawTokens(m, b)
    decreases |b|
  {
    hide First, JsonPass, PlainPass, HasToken, Unescape, Apart;
    ApartIsSolid(m);
    if b == "" {
      EmptyBody(m);
    } else if HasToken(m, b) {
      CommuteAtToken(m, b);
      RawTokensAfterToken(m, b);
      PassCommutesWithDecoding(m, b[HeadLen(Demasking.Lookup(m), b)..]);
    } else {
      UnitHead(m, b);
      FirstOfValid(b);
      if HasToken(m, Unescape(b).value) {
        EscapedDiffers(m, b);
      } else {
        CommuteAtUnit(m, b);
        PassCommutesWithDecoding(m, b[First(b).value.len..]);
      }
    }
  }

  const HIGH := "\\ud800"
  const LOW := "\\udc00"
  /** What half a surrogate pair stands for. */
  const REPLACED := Encode(0xFFFD)

  /** Apart, the halves each stand for U+FFFD; side by side they are one character. */
  lemma Halves(w: string)
    requires IsToken(w) && Plain(w)
    ensures Unescape(LOW) == Some(REPLACED) && Unescape(w + LOW) == Some(w + REPLACED)
    ensures First(HIGH + (w + LOW)) == Some(Unit(6, REPLACED))
    ensures Unescape(HIGH + (w + LOW)) == Some(REPLACED + (w + REPLACED))
    ensures Unescape(HIGH + LOW) == Some(Encode(0x1_0000))
  {
    var b := HIGH + (w + LOW);
    HalfReads(LOW, "", 0xDC00);
    assert LOW + "" == LOW && REPLACED + "" == REPLACED;
    UnescapeUnit(LOW, "", REPLACED);
    UnescapePlain(w, LOW);
    assert (w + LOW)[0] == '<';
    HalfReads(HIGH, w + LOW, 0xD800);
    UnescapeUnit(HIGH, w + LOW, REPLACED);
    PairReads();
    assert (HIGH + LOW) + "" == HIGH + LOW && Encode(0x1_0000) + "" == Encode(0x1_0000);
    UnescapeUnit(HIGH + LOW, "", Encode(0x1_0000));
  }

  lemma HalfReads(half: string, rest: string, cu: nat)
    requires (half == HIGH && cu == 0xD800) || (half == LOW && cu == 0xDC00)
    requires rest == "" || rest[0] != '\\'
    ensures First(half + rest) == Some(Unit(6, REPLACED))
  {
    var s := half + rest;
    assert s[0] == '\\' && s[1] == 'u' && s[2] == 'd' && (s[3] == '8' || s[3] == 'c') && s[4] == '0' && s[5] == '0';
    assert s[2..][0] == s[2] && s[2..][1] == s[3] && s[2..][2] == s[4] && s[2..][3] == s[5];
    assert HexValue('d') == Some(13) && HexValue('8') == Some(8) && HexValue('c') == Some(12) && HexValue('0') == Some(0);
    assert Hex4(s[2..]) == Some(cu);
    assert s[6..] == rest;
  }

  lemma PairReads()
    ensures First((HIGH + LOW) + "") == Some(Unit(12, Encode(0x1_0000)))
  {
    var s := (HIGH + LOW) + "";
    assert s[2..][0] == 'd' && s[2..][1] == '8' && s[2..][2] == '0' && s[2..][3] == '0';
    assert s[8..][0] == 'd' && s[8..][1] == 'c' && s[8..][2] == '0' && s[8..][3] == '0';
    assert HexValue('d') == Some(13) && HexValue('8') == Some(8) && HexValue('c') == Some(12) && HexValue('0') == Some(0);
    assert Hex4(s[2..]) == Some(0xD800) && Hex4(s[8..]) == Some(0xDC00);
    assert s[6..] == LOW && s[6..][2..] == s[8..];
    assert LowSurrogate(s[6..]);
  }

  /** A body that decodes to U+FFFD and a text starts with no placeholder. */
  lemma RawHalf(m: map<string, string>, b: string)
    requires b != "" && First(b) == Some(Unit(6, REPLACED)) && Unescape(b[6..]).Some? && RawTokens(m, b[6..])
    ensures Unescape(b).Some? && RawTokens(m, b)
  {
    hide First, HasToken;
    assert REPLACED[0] != '<';
    var d := Unescape(b).value;
    assert d == REPLACED + Unescape(b[6..]).value;
    HeadTail(d);
    NoTokenAt(m, d[0], d[1..]);
  }

  lemma RawNothing(m: map<string, string>)
    ensures Unescape("").Some? && RawTokens(m, "")
  {
  }

  /**
   An empty original may leave the halves of a surrogate pair side by side that stood apart: here the
   pass over the raw body and the pass over the decoded text differ without any escaped placeholder.
   Masking never mints a placeholder for an empty text.
   */
  lemma EmptyOriginalJoinsSurrogates()
    ensures var m, b := map["<A_1>" := ""], HIGH + ("<A_1>" + LOW);
            Minted(m) && Unescape(b).Some? && RawTokens(m, b) && Unescape(JsonPass(m, b)) != Some(PlainPass(m, Unescape(b).value))
  {
    hide Rewrite, TokenLen, First, Unescape, RawTokens, HasToken, Hex4;
    var m, w := map["<A_1>" := ""], "<A_1>";
    assert w[1..|w| - 1] == "A_1" && IsToken(w) && Plain(w);
    var f, g := Demasking.Lookup(Escaped(m)), Demasking.Lookup(m);
    Halves(w);
    Pieces(f, HIGH, w, LOW);
    Pieces(g, REPLACED, w, REPLACED);
    assert LOW + "" == LOW && |Encode(0x1_0000)| == 4 && |REPLACED| == 3;
    RawNothing(m);
    HalfReads(LOW, "", 0xDC00);
    assert LOW + "" == LOW && LOW[6..] == "";
    RawHalf(m, LOW);
    TokenAtHead(m, w, LOW);
    RawTokensAfterToken(m, w + LOW);
    assert (w + LOW)[|w|..] == LOW && (HIGH + (w + LOW))[6..] == w + LOW;
    RawHalf(m, HIGH + (w + LOW));
  }

  /** A pass that removes the only placeholder of a text. */
  lemma Pieces(f: Recognizer, a: string, w: string, b: string)
    requires '<' !in a && '<' !in b && a != "" && b != "" && IsToken(w) && f(w) == Some("")
    ensures Rewrite(f, a + (w + b)) == a + b
  {
    RewriteAngleFree(f, a, w + b);
    RewriteToken(f, w, b);
    RewriteAngleFree(f, b, "");
    RewriteNothing(f);
    assert b + "" == b && "" + b == b;
  }

  lemma RewriteNothing(f: Recognizer)
    ensures Rewrite(f, "") == ""
  {
  }

  lemma TokenAtHead(m: map<string, string>, w: string, rest: string)
    requires w in m && IsToken(w)
    ensures HasToken(m, w + rest) && HeadLen(Demasking.Lookup(m), w + rest) == |w|
  {
    TokenLenOf(w, rest);
    assert (w + rest)[..|w|] == w;
  }

  lemma EmptyBody(m: map<string, string>)
    ensures Unescape("") == Some("") && JsonPass(m, "") == "" && PlainPass(m, "") == ""
  {
  }
}
