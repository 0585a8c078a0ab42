/**
 What placeholders and their drift forms look like: the characters they are made of, how many digits
 they hold, and the form with a space in it that every readable placeholder has.
 */
module DriftForms {
  import opened Text
  import opened AngleRewrite
  import opened Placeholder
  import opened PlaceholderScan
  import opened RegexTree
  import opened MatchLength
  import opened DriftPattern
  import opened DriftRules

  /** A resolved rule and the placeholder type its drift pattern was built for. */
  datatype Compiled = Compiled(rule: DriftRule, typ: string)

  /** Bytes are read as runes: ASCII bytes as themselves, wherever they stand. */
  ghost predicate ReadsBytes(runes: string -> string) {
    AsciiRunes(runes) && forall w, s :: Ascii(s) && Occurs(s, w) ==> Occurs(s, runes(w))
  }

  predicate Ascii(w: string) {
    forall i :: 0 <= i < |w| ==> w[i] as int < 0x80
  }

  /** The only ASCII case variants of word characters are word characters. */
  ghost predicate AsciiFolds(u: Unicode) {
    forall r, c :: IsWordChar(r) && u.InOrbit(c, r) && c as int < 0x80 ==> IsWordChar(c)
  }

  // ---- the characters of a placeholder ----

  /** The ASCII characters of which placeholders and their drift forms are made. */
  predicate FormChar(c: char) {
    IsWordChar(c) || c == '<' || c == '>' || c == '-' || InClass(SPACES, c)
  }

  ghost predicate Form(s: string) {
    forall i :: 0 <= i < |s| && s[i] as int < 0x80 ==> FormChar(s[i])
  }

  lemma FormAppend(a: string, b: string)
    requires Form(a) && Form(b)
    ensures Form(a + b)
  {
    hide FormChar;
    forall i | 0 <= i < |a + b| && (a + b)[i] as int < 0x80
      ensures FormChar((a + b)[i])
    {
      assert (a + b)[i] == if i < |a| then a[i] else b[i - |a|];
    }
  }

  lemma ClassesForm(s: string)
    ensures Spaces(s) || Separators(s) || Digits(s) || Word(s) ==> Form(s)
  {
    if Separators(s) {
      forall i | 0 <= i < |s|
        ensures FormChar(s[i])
      {
        assert InClass(SEPARATORS, s[i]);
        var k :| 0 <= k < |SEPARATORS| && SEPARATORS[k].0 <= s[i] <= SEPARATORS[k].1;
        if k < |SPACES| {
          assert SEPARATORS[k] == SPACES[k];
          assert InClass(SPACES, s[i]);
        }
      }
    }
  }

  lemma VariantForm(u: Unicode, t: string, s: string)
    requires AsciiFolds(u) && Word(t) && Variant(u, t, s)
    ensures Form(s)
  {
    forall i | 0 <= i < |s| && s[i] as int < 0x80
      ensures FormChar(s[i])
    {
      assert u.InOrbit(s[i], t[i]);
    }
  }

  lemma {:induction false} TailForm(u: Unicode, tokens: seq<string>, s: string, d: string)
    requires AsciiFolds(u) && (forall t :: t in tokens ==> Word(t)) && Tail(u, tokens, s, d)
    ensures Form(s) && |s| <= SumLen(Rest(tokens))
    decreases |tokens|
  {
    hide Form, FormChar, Spaces, Separators, Digits, SumLen, ByteLen;
    RestSum(tokens);
    if tokens == [] {
      EndSum();
      ClassesForm(d);
      ClassesForm(s[|d|..|s| - 1]);
      ClassesForm(">");
      CloseForm();
      EndShort(s, d);
      FormAppend(d, s[|d|..|s| - 1]);
      FormAppend(d + s[|d|..|s| - 1], ">");
      assert s == d + s[|d|..|s| - 1] + ">";
    } else {
      var n: nat :| TailAt(u, tokens, s, d, n);
      var k := |tokens[0]|;
      TailForm(u, tokens[1..], s[k + n..], d);
      VariantForm(u, tokens[0], s[..k]);
      ClassesForm(s[k..k + n]);
      SeparatorsShort(s[k..k + n]);
      FormAppend(s[..k], s[k..k + n]);
      FormAppend(s[..k] + s[k..k + n], s[k + n..]);
      assert s == s[..k] + s[k..k + n] + s[k + n..];
    }
  }

  lemma CloseForm()
    ensures Form(">")
  {
  }

  lemma SeparatorsShort(s: string)
    ensures Separators(s) || Spaces(s) ==> |s| <= 3
  {
  }

  lemma EndShort(s: string, d: string)
    requires Tail(UnicodeIdentity(), [], s, d)
    ensures |s| <= 13
  {
    SeparatorsShort(s[|d|..|s| - 1]);
  }

  lemma {:induction false} FieldsWord(s: string)
    requires Word(s)
    ensures forall t :: t in Fields(s) ==> Word(t)
    decreases |s|
  {
    if s != "" {
      if s[0] == '_' { FieldsWord(s[1..]); } else { FieldsWord(s[RunLen(s)..]); }
    }
  }

  /** Whatever a word type's pattern accepts is made of form characters and stays within the bound in runes. */
  lemma AcceptedForm(u: Unicode, typ: string, s: string, d: string)
    requires AsciiFolds(u) && WordType(typ) && Accepted(u, typ, s, d)
    ensures Form(s) && |s| <= MaxLen(Pattern(typ))
  {
    hide Form, FormChar, Spaces, Tail, Word, MaxLen, SumLen, Pattern;
    var n: nat :| AcceptedAt(u, typ, s, d, n);
    FieldsWord(typ);
    TokensWord(typ);
    TailForm(u, Tokens(typ), s[1 + n..], d);
    ClassesForm(s[1..1 + n]);
    SeparatorsShort(s[1..1 + n]);
    PatternSum(typ);
    OpenForm();
    FormAppend("<", s[1..1 + n]);
    FormAppend("<" + s[1..1 + n], s[1 + n..]);
    assert s == "<" + s[1..1 + n] + s[1 + n..];
  }

  lemma TokensWord(typ: string)
    requires WordType(typ) && forall t :: t in Fields(typ) ==> Word(t)
    ensures forall t :: t in Tokens(typ) ==> Word(t)
  {
  }

  lemma OpenForm()
    ensures Form("<")
  {
  }

  /** Placeholders are word characters between brackets. */
  lemma LiteralChars(w: string)
    requires LiteralShape(w)
    ensures forall i :: 0 <= i < |w| ==> w[i] == '<' || w[i] == '>' || IsWordChar(w[i])
  {
    var k :| 1 < k < |w| - 2 && LiteralAt(w, k);
    forall i | 0 <= i < |w|
      ensures w[i] == '<' || w[i] == '>' || IsWordChar(w[i])
    {
      if 1 <= i < k {
        assert IsWordChar(w[1..k][i - 1]);
      } else if k < i < |w| - 1 {
        assert IsDigit(w[k + 1..|w| - 1][i - k - 1]);
      }
    }
  }

  lemma LiteralForm(w: string)
    requires LiteralShape(w)
    ensures Form(w)
  {
    LiteralChars(w);
  }

  // ---- originals that tell themselves apart ----

  /** The original holds no angle bracket and some ASCII character no placeholder form holds. */
  predicate Telling(o: string) {
    AngleFree(o) && exists i :: 0 <= i < |o| && o[i] as int < 0x80 && !FormChar(o[i])
  }

  lemma FormOfRunes(runes: string -> string, w: string)
    requires ReadsBytes(runes) && Form(runes(w))
    ensures Form(w)
  {
    forall i | 0 <= i < |w| && w[i] as int < 0x80
      ensures FormChar(w[i])
    {
      assert OccursAt([w[i]], w, i) && Ascii([w[i]]);
      assert Occurs([w[i]], runes(w));
      var j: nat :| OccursAt([w[i]], runes(w), j);
      assert runes(w)[j..j + 1][0] == runes(w)[j];
    }
  }

  lemma TellingOutside(o: string, q: string)
    requires Telling(o) && Form(q)
    ensures !Occurs(o, q)
  {
    var i :| 0 <= i < |o| && o[i] as int < 0x80 && !FormChar(o[i]);
    NotInForm(o[i], q);
    if Occurs(o, q) { OccursMember(o, q, o[i]); }
  }

  lemma OccursShorter(o: string, q: string)
    ensures Occurs(o, q) ==> |o| <= |q|
  {
  }

  // ---- how many digits a form holds ----

  /** All digits of a text stand in a window of nine characters. */
  predicate Window(s: string, lo: int) {
    forall i :: 0 <= i < |s| && IsDigit(s[i]) ==> lo <= i < lo + INDEX_LEN
  }

  predicate FewDigits(s: string) {
    exists lo: int :: 0 <= lo <= |s| && Window(s, lo)
  }

  predicate DigitsAt(o: string, i: int) {
    0 <= i && i + 10 <= |o| && Digits(o[i..i + 10])
  }

  /** Ten digits in a row. */
  predicate TenDigits(o: string) {
    exists i :: 0 <= i < |o| && DigitsAt(o, i)
  }

  lemma TenDoNotFit(o: string, q: string)
    requires TenDigits(o) && FewDigits(q)
    ensures !Occurs(o, q)
  {
    hide OccursAt;
    var i :| 0 <= i < |o| && DigitsAt(o, i);
    var lo: int :| 0 <= lo <= |q| && Window(q, lo);
    forall k: nat
      ensures !OccursAt(o, q, k)
    {
      TenAt(o, q, i, k);
    }
  }

  lemma TenAt(o: string, q: string, i: int, k: nat)
    requires DigitsAt(o, i)
    ensures OccursAt(o, q, k) ==> k + i + 9 < |q| && IsDigit(q[k + i]) && IsDigit(q[k + i + 9])
  {
    assert IsDigit(o[i..i + 10][0]) && IsDigit(o[i..i + 10][9]);
    if OccursAt(o, q, k) {
      assert q[k..k + |o|][i] == o[i] && q[k..k + |o|][i + 9] == o[i + 9];
    }
  }

  /** Only digits are case variants of digits. */
  ghost predicate DigitFolds(u: Unicode) {
    forall r, c :: u.InOrbit(c, r) && IsDigit(c) ==> IsDigit(r)
  }

  predicate NoDigits(s: string) {
    forall i :: 0 <= i < |s| ==> !IsDigit(s[i])
  }

  lemma ClassesNoDigits(s: string)
    ensures Spaces(s) || Separators(s) ==> NoDigits(s)
  {
  }

  lemma VariantNoDigits(u: Unicode, t: string, s: string)
    requires DigitFolds(u) && NoDigits(t) && Variant(u, t, s)
    ensures NoDigits(s)
  {
    forall i | 0 <= i < |s|
      ensures !IsDigit(s[i])
    {
      assert u.InOrbit(s[i], t[i]);
    }
  }

  lemma WindowBehind(a: string, s: string)
    requires NoDigits(a) && FewDigits(s)
    ensures FewDigits(a + s)
  {
    var lo: int :| 0 <= lo <= |s| && Window(s, lo);
    assert forall i :: 0 <= i < |a| ==> (a + s)[i] == a[i];
    assert forall i :: |a| <= i < |a + s| ==> (a + s)[i] == s[i - |a|];
    assert Window(a + s, |a| + lo);
  }

  lemma {:induction false} TailDigits(u: Unicode, tokens: seq<string>, s: string, d: string)
    requires DigitFolds(u) && (forall t :: t in tokens ==> NoDigits(t)) && Tail(u, tokens, s, d)
    ensures FewDigits(s)
    decreases |tokens|
  {
    hide Spaces, Separators, FewDigits, NoDigits, Digits;
    if tokens == [] {
      EndDigits(u, s, d);
    } else {
      var n: nat :| TailAt(u, tokens, s, d, n);
      var k := |tokens[0]|;
      TailDigits(u, tokens[1..], s[k + n..], d);
      VariantNoDigits(u, tokens[0], s[..k]);
      ClassesNoDigits(s[k..k + n]);
      WindowBehind(s[k..k + n], s[k + n..]);
      WindowBehind(s[..k], s[k..k + n] + s[k + n..]);
      assert s == s[..k] + (s[k..k + n] + s[k + n..]);
    }
  }

  lemma EndDigits(u: Unicode, s: string, d: string)
    requires Tail(u, [], s, d)
    ensures FewDigits(s)
  {
    var spaces := s[|d|..|s| - 1];
    ClassesNoDigits(spaces);
    assert forall i :: |d| <= i < |s| - 1 ==> s[i] == spaces[i - |d|];
    assert Window(s, 0);
  }

  lemma {:induction false} FieldsNoDigits(s: string)
    requires NoDigits(s)
    ensures forall t :: t in Fields(s) ==> NoDigits(t)
    decreases |s|
  {
    if s != "" {
      if s[0] == '_' { FieldsNoDigits(s[1..]); } else { FieldsNoDigits(s[RunLen(s)..]); }
    }
  }

  /** For a type without digits no form holds more than the nine digits of an index. */
  lemma AcceptedDigits(u: Unicode, typ: string, s: string, d: string)
    requires DigitFolds(u) && NoDigits(typ) && Accepted(u, typ, s, d)
    ensures FewDigits(s)
  {
    hide Spaces, Tail, FewDigits, NoDigits;
    var n: nat :| AcceptedAt(u, typ, s, d, n);
    FieldsNoDigits(typ);
    TailDigits(u, Tokens(typ), s[1 + n..], d);
    ClassesNoDigits(s[1..1 + n]);
    OpenNoDigit();
    WindowBehind(s[1..1 + n], s[1 + n..]);
    WindowBehind("<", s[1..1 + n] + s[1 + n..]);
    assert s == "<" + (s[1..1 + n] + s[1 + n..]);
  }

  lemma OpenNoDigit()
    ensures NoDigits("<")
  {
  }

  // ---- a form with a space ----

  /** The placeholder with a space after its opening bracket. */
  function Spaced(w: string): string
    requires w != ""
  {
    "< " + w[1..]
  }

  lemma SpacedAccepted(u: Unicode, typ: string, w: string, d: string)
    requires WordFolds(u) && WordType(typ) && |w| >= 2 && w[0] == '<' && IsWordChar(w[1]) && !InClass(SPACES, w[1])
    ensures Accepted(u, typ, w, d) <==> Accepted(u, typ, Spaced(w), d)
  {
    hide Tail;
    var p := Spaced(w);
    SpaceIsSpace();
    assert p[2..] == w[1..] && p[1..2] == " " && w[1..1] == "" && p[1] == ' ' && p[2] == w[1];
    if Accepted(u, typ, w, d) {
      var n: nat :| AcceptedAt(u, typ, w, d, n);
      SpacesHead(w, n);
      assert AcceptedAt(u, typ, p, d, 1);
    }
    TokensStart(u, typ, p[1..], d);
    assert p[1..][0] == ' ' && w[1 + 0..] == w[1..];
    if Accepted(u, typ, p, d) {
      var n: nat :| AcceptedAt(u, typ, p, d, n);
      SpacesHead(p, n);
      assert n == 1;
      assert AcceptedAt(u, typ, w, d, 0);
    }
  }

  lemma SpacesHead(s: string, n: nat)
    requires 1 + n <= |s|
    ensures Spaces(s[1..1 + n]) && n > 0 ==> InClass(SPACES, s[1])
    ensures Spaces(s[1..1 + n]) && n > 1 ==> InClass(SPACES, s[2])
  {
    assert n > 0 ==> s[1..1 + n][0] == s[1];
    assert n > 1 ==> s[1..1 + n][1] == s[2];
  }

  lemma TailHead(u: Unicode, tokens: seq<string>, s: string, d: string) returns (n: nat)
    requires tokens != [] && Tail(u, tokens, s, d)
    ensures TailAt(u, tokens, s, d, n)
  {
    n :| TailAt(u, tokens, s, d, n);
  }

  lemma SpaceIsSpace()
    ensures InClass(SPACES, ' ') && Spaces(" ") && Spaces("") && InClass(SEPARATORS, ' ')
  {
    assert SPACES[2].0 <= ' ' <= SPACES[2].1 && SEPARATORS[2].0 <= ' ' <= SEPARATORS[2].1;
  }

  /** The tokens of a word type never start with a space. */
  lemma TokensStart(u: Unicode, typ: string, s: string, d: string)
    requires WordFolds(u) && WordType(typ) && s != ""
    ensures Tail(u, Tokens(typ), s, d) ==> s[0] != ' '
  {
    SpaceIsSpace();
    FieldsWord(typ);
    TokensWord(typ);
    TokensFilled(typ);
    var t := Tokens(typ)[0];
    assert t in Tokens(typ) && IsWordChar(t[0]);
    if Tail(u, Tokens(typ), s, d) {
      var n := TailHead(u, Tokens(typ), s, d);
      assert s[..|t|][0] == s[0] && u.InOrbit(s[0], t[0]);
    }
  }

  lemma TokensFilled(typ: string)
    requires typ != ""
    ensures Tokens(typ)[0] != ""
  {
    assert Fields(typ) != [] ==> Fields(typ)[0] in Fields(typ);
  }

  lemma SpacedCanon(u: Unicode, runes: string -> string, c: Compiled, w: string)
    requires WordFolds(u) && ReadsBytes(runes) && WordType(c.typ) && CompiledFor(u, runes, c.typ, c.rule) && LiteralShape(w)
    ensures c.rule.canon(w).Some? <==> c.rule.canon(Spaced(w)).Some?
    ensures u.Wf() && c.rule.canon(w) == Some(w) ==> c.rule.canon(Spaced(w)) == Some(w)
  {
    hide Accepted, LiteralAt, AsciiRunes, WordFolds;
    SpacedShape(w);
    RunesOf(runes, w);
    RunesOf(runes, Spaced(w));
    forall d
      ensures Names(u, runes, c.typ, w, d) <==> Names(u, runes, c.typ, Spaced(w), d)
    {
      SpacedAccepted(u, c.typ, w, d);
    }
    if u.Wf() && c.rule.canon(w) == Some(w) {
      var d :| Names(u, runes, c.typ, w, d) && w == Format(c.typ, Value(d));
      var e :| Names(u, runes, c.typ, w, e) && c.rule.canon(Spaced(w)) == Some(Format(c.typ, Value(e)));
      CanonicalAccepted(u, c.typ, Value(d), e);
      ValueOfDec(Value(d));
    }
  }

  lemma RunesOf(runes: string -> string, w: string)
    requires ReadsBytes(runes) && Ascii(w)
    ensures runes(w) == w
  {
  }

  lemma SpacedShape(w: string)
    requires LiteralShape(w)
    ensures |w| >= 2 && w[0] == '<' && IsWordChar(w[1]) && !InClass(SPACES, w[1])
    ensures Ascii(w) && Ascii(Spaced(w)) && IsToken(Spaced(w)) && !LiteralShape(Spaced(w))
  {
    hide InClass;
    LiteralChars(w);
    WordIsNoSpace();
    var k :| 1 < k < |w| - 2 && LiteralAt(w, k);
    assert w[1] == w[1..k][0];
    var p := Spaced(w);
    assert forall i :: 2 <= i < |p| ==> p[i] == w[i - 1];
    assert p[1..|p| - 1] == " " + w[1..|w| - 1];
    AngleFreeAppend(" ", w[1..|w| - 1]);
    assert p[1] == ' ';
    if LiteralShape(p) { LiteralChars(p); }
  }

  lemma WordIsNoSpace()
    ensures forall c :: IsWordChar(c) ==> !InClass(SPACES, c)
  {
  }

  lemma LiteralFilled(w: string)
    requires LiteralShape(w)
    ensures w != ""
  {
  }

  lemma NotInForm(c: char, x: string)
    requires Form(x) && c as int < 0x80 && !FormChar(c)
    ensures c !in x
  {
  }
}
