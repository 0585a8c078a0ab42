/**
 The drift pattern as a demasking rule: accepted strings are tokens, canonical placeholders map to
 themselves, and the compiled length bound is exact.
 */
module DriftRules {
  import opened Text
  import opened AngleRewrite
  import opened Placeholder
  import opened PlaceholderScan
  import opened RegexTree
  import opened MatchLength
  import opened DriftPattern

  // ---- accepted strings are tokens ----

  /** No case variant of another rune is an angle bracket. */
  ghost predicate AngleFolds(u: Unicode) {
    forall r, c :: u.InOrbit(c, r) && (c == '<' || c == '>') ==> r == c
  }

  lemma ClassesAngleFree(s: string)
    ensures Spaces(s) || Separators(s) || Digits(s) ==> AngleFree(s)
  {
  }

  lemma VariantAngleFree(u: Unicode, t: string, s: string)
    requires AngleFolds(u) && AngleFree(t) && Variant(u, t, s)
    ensures AngleFree(s)
  {
    forall i | 0 <= i < |s|
      ensures s[i] != '<' && s[i] != '>'
    {
      assert u.InOrbit(s[i], t[i]);
      assert t[i] in t;
    }
  }

  lemma AngleFreeAppend(a: string, b: string)
    ensures AngleFree(a + b) <==> AngleFree(a) && AngleFree(b)
  {
    assert forall i :: 0 <= i < |a| ==> (a + b)[i] == a[i];
    assert forall i :: 0 <= i < |b| ==> (a + b)[|a| + i] == b[i];
  }

  /** What follows the opening bracket is angle-free up to the closing bracket. */
  lemma {:induction false} TailIsBody(u: Unicode, tokens: seq<string>, s: string, d: string)
    requires AngleFolds(u) && (forall t :: t in tokens ==> AngleFree(t)) && Tail(u, tokens, s, d)
    ensures |s| >= 2 && s[|s| - 1] == '>' && AngleFree(s[..|s| - 1])
    decreases |tokens|
  {
    hide AngleFree, Spaces, Separators, Digits;
    if tokens == [] {
      ClassesAngleFree(d);
      ClassesAngleFree(s[|d|..|s| - 1]);
      AngleFreeAppend(d, s[|d|..|s| - 1]);
      assert s[..|s| - 1] == d + s[|d|..|s| - 1];
    } else {
      var n: nat :| TailAt(u, tokens, s, d, n);
      var k := |tokens[0]|;
      var rest := s[k + n..];
      TailIsBody(u, tokens[1..], rest, d);
      VariantAngleFree(u, tokens[0], s[..k]);
      ClassesAngleFree(s[k..k + n]);
      AngleFreeAppend(s[..k], s[k..k + n]);
      AngleFreeAppend(s[..k] + s[k..k + n], rest[..|rest| - 1]);
      assert s[..|s| - 1] == s[..k] + s[k..k + n] + rest[..|rest| - 1];
      assert s[|s| - 1] == rest[|rest| - 1];
    }
  }

  lemma {:induction false} FieldsAngleFree(s: string)
    requires AngleFree(s)
    ensures forall t :: t in Fields(s) ==> AngleFree(t)
    decreases |s|
  {
    if s != "" {
      if s[0] == '_' { FieldsAngleFree(s[1..]); } else { FieldsAngleFree(s[RunLen(s)..]); }
    }
  }

  /** For a type without angle brackets every accepted string is one token `<...>`. */
  lemma AcceptedIsToken(u: Unicode, typ: string, s: string, d: string)
    requires AngleFolds(u) && AngleFree(typ) && Accepted(u, typ, s, d)
    ensures IsToken(s)
  {
    hide AngleFree, Spaces, Tail;
    var n: nat :| AcceptedAt(u, typ, s, d, n);
    FieldsAngleFree(typ);
    var rest := s[1 + n..];
    TailIsBody(u, Tokens(typ), rest, d);
    ClassesAngleFree(s[1..1 + n]);
    AngleFreeAppend(s[1..1 + n], rest[..|rest| - 1]);
    assert s[1..|s| - 1] == s[1..1 + n] + rest[..|rest| - 1];
    assert s[|s| - 1] == rest[|rest| - 1];
  }

  // ---- the rule ----

  /**
   The rule compiled for a type: an accepted string with a positive index stands for the canonical
   placeholder of that index.  `runes` reads bytes as runes.
   */
  ghost predicate CompiledFor(u: Unicode, runes: string -> string, typ: string, r: DriftRule) {
    forall w :: match r.canon(w)
                case Some(p) => exists d :: Names(u, runes, typ, w, d) && p == Format(typ, Value(d))
                case None => forall d :: !Names(u, runes, typ, w, d)
  }

  ghost predicate Names(u: Unicode, runes: string -> string, typ: string, w: string, d: string) {
    Accepted(u, typ, runes(w), d) && Digits(d) && Value(d) > 0
  }

  /** ASCII bytes are their own runes. */
  ghost predicate AsciiRunes(runes: string -> string) {
    forall w :: (forall i :: 0 <= i < |w| ==> w[i] as int < 0x80) ==> runes(w) == w
  }

  lemma FormatAscii(typ: string, index: nat)
    requires WordType(typ)
    ensures var w := Format(typ, index); forall i :: 0 <= i < |w| ==> w[i] as int < 0x80
  {
  }

  /**
   A compiled rule maps a type's canonical placeholder to itself if and only if the type is regular
   and the index lies between 1 and 10^9 - 1; otherwise it does not recognise it.
   */
  lemma CanonicalMapsToItself(u: Unicode, runes: string -> string, typ: string, r: DriftRule, index: nat)
    requires u.Wf() && WordFolds(u) && AsciiRunes(runes) && WordType(typ) && CompiledFor(u, runes, typ, r)
    ensures var w := Format(typ, index);
            r.canon(w) == if Regular(typ) && 0 < index < INDEX_LIMIT then Some(w) else None
  {
    hide Accepted, Regular, Digits;
    var w := Format(typ, index);
    FormatAscii(typ, index);
    ValueOfDec(index);
    forall d
      ensures Names(u, runes, typ, w, d) <==> Regular(typ) && 0 < index < INDEX_LIMIT && d == Dec(index)
    {
      CanonicalAccepted(u, typ, index, d);
    }
    if Regular(typ) && 0 < index < INDEX_LIMIT {
      assert Names(u, runes, typ, w, Dec(index));
    }
  }

  // ---- the bound ----

  lemma {:induction false} RestLevel(u: Unicode, tokens: seq<string>, i: nat)
    requires (forall t :: t in tokens ==> NoLonger(u, t)) && i < |Rest(tokens)|
    ensures Level(u, Rest(tokens)[i])
    decreases tokens
  {
    hide NoLonger;
    if tokens == [] {
      assert Rest(tokens) == [INDEX, SPACE_RUN, CLOSE];
    } else if i >= 2 {
      RestLevel(u, tokens[1..], i - 2);
    } else {
      assert tokens[0] in tokens;
    }
  }

  lemma ClassMaxSnoc(ranges: seq<(char, char)>, r: (char, char))
    ensures ClassMax(ranges + [r]) == if r.1 > ClassMax(ranges) then r.1 else ClassMax(ranges)
  {
    assert (ranges + [r])[..|ranges|] == ranges;
  }

  /** Bytes a class contributes at most: all classes of the pattern are ASCII. */
  lemma ClassBytes()
    ensures MaxLen(SPACE_RUN) == 3 && MaxLen(SEPARATOR_RUN) == 3 && MaxLen(INDEX) == 9 && MaxLen(CLOSE) == 1
  {
    var none: seq<(char, char)> := [];
    ClassMaxSnoc(none, ('\t', '\n'));
    ClassMaxSnoc(none + [('\t', '\n')], (12 as char, '\r'));
    ClassMaxSnoc(none + [('\t', '\n')] + [(12 as char, '\r')], (' ', ' '));
    assert SPACES == none + [('\t', '\n')] + [(12 as char, '\r')] + [(' ', ' ')];
    ClassMaxSnoc(SPACES, ('-', '-'));
    ClassMaxSnoc(SPACES + [('-', '-')], ('_', '_'));
    assert SEPARATORS == SPACES + [('-', '-')] + [('_', '_')];
    assert DIGITS[..0] == [] && ClassMax(DIGITS) == '9';
    assert ">"[1..] == "";
  }

  lemma SumCons(re: Regex, rest: seq<Regex>)
    requires MaxLen(re) >= 0 && SumLen(rest) >= 0
    ensures SumLen([re] + rest) == MaxLen(re) + SumLen(rest)
  {
    assert ([re] + rest)[1..] == rest;
  }

  lemma EndSum()
    ensures SumLen(Rest([])) == 13
  {
    hide MaxLen;
    ClassBytes();
    SumCons(CLOSE, []);
    SumCons(SPACE_RUN, [CLOSE] + []);
    SumCons(INDEX, [SPACE_RUN] + ([CLOSE] + []));
    assert Rest([]) == [INDEX] + ([SPACE_RUN] + ([CLOSE] + []));
  }

  lemma LiteralMax(t: string)
    ensures MaxLen(Literal(t, true)) == ByteLen(t) && MaxLen(Literal("<", false)) == 1
  {
    assert "<"[1..] == "";
  }

  lemma {:induction false} RestSum(tokens: seq<string>)
    ensures SumLen(Rest(tokens)) >= 13
    ensures tokens != [] ==> SumLen(Rest(tokens)) == ByteLen(tokens[0]) + 3 + SumLen(Rest(tokens[1..]))
    decreases tokens
  {
    hide MaxLen, SumLen;
    if tokens == [] {
      EndSum();
    } else {
      RestSum(tokens[1..]);
      ClassBytes();
      LiteralMax(tokens[0]);
      var rest := Rest(tokens[1..]);
      SumCons(SEPARATOR_RUN, rest);
      SumCons(Literal(tokens[0], true), [SEPARATOR_RUN] + rest);
      assert Rest(tokens) == [Literal(tokens[0], true)] + ([SEPARATOR_RUN] + rest);
    }
  }

  lemma PatternSum(typ: string)
    ensures MaxLen(Pattern(typ)) == 4 + SumLen(Rest(Tokens(typ)))
  {
    hide SumLen;
    var rest := Rest(Tokens(typ));
    RestSum(Tokens(typ));
    ClassBytes();
    LiteralMax("");
    SumCons(SPACE_RUN, rest);
    SumCons(Literal("<", false), [SPACE_RUN] + rest);
    PatternParts(UnicodeIdentity(), typ);
  }

  /** Tables without any case variants. */
  function UnicodeIdentity(): Unicode {
    Unicode(c => c, c => c, _ => 1)
  }

  /** Some token has a case variant that takes more bytes. */
  ghost predicate SomeLonger(u: Unicode, tokens: seq<string>) {
    exists t :: t in tokens && !NoLonger(u, t)
  }

  /** A token's longest reading: itself, or a longer variant if there is one. */
  lemma LongToken(u: Unicode, t: string) returns (v: string)
    requires u.Wf()
    ensures Variant(u, t, v) && ByteLen(v) >= ByteLen(t) && (!NoLonger(u, t) ==> ByteLen(v) > ByteLen(t))
  {
    v := t;
    SelfVariant(u, t);
    if !NoLonger(u, t) {
      var k, c :| 0 <= k < |t| && u.InOrbit(c, t[k]) && RuneBytes(c) > RuneBytes(t[k]);
      v := LongerMatch(u, t, k, c);
    }
  }

  lemma LongEnd(u: Unicode)
    ensures Tail(u, [], "999999999" + "   " + ">", "999999999")
    ensures ByteLen("999999999" + "   " + ">") == 13
  {
    var d, s := "999999999", "999999999" + "   " + ">";
    assert s[..9] == d && s[9..|s| - 1] == "   ";
    assert InClass(SPACES, ' ') by { assert SPACES[2].0 <= ' ' <= SPACES[2].1; }
    AsciiBytes(s);
  }

  lemma {:induction false} AsciiBytes(s: string)
    requires forall i :: 0 <= i < |s| ==> s[i] as int < 0x80
    ensures ByteLen(s) == |s|
  {
    if s != "" { AsciiBytes(s[1..]); }
  }

  /** A match that reaches the bound, and passes it when some token has a longer variant. */
  lemma {:induction false} LongTail(u: Unicode, tokens: seq<string>) returns (s: string, d: string)
    requires u.Wf()
    ensures Tail(u, tokens, s, d) && ByteLen(s) >= SumLen(Rest(tokens))
    ensures SomeLonger(u, tokens) ==> ByteLen(s) > SumLen(Rest(tokens))
    decreases tokens
  {
    hide NoLonger, SumLen, ByteLen;
    RestSum(tokens);
    if tokens == [] {
      LongEnd(u);
      EndSum();
      s, d := "999999999" + "   " + ">", "999999999";
    } else {
      var v := LongToken(u, tokens[0]);
      var rest;
      rest, d := LongTail(u, tokens[1..]);
      s := v + ("___" + rest);
      ByteLenAppend(v, "___" + rest);
      ByteLenAppend("___", rest);
      AsciiBytes("___");
      ThreeUnderscores();
      assert s[..|v|] == v && s[|v|..|v| + 3] == "___" && s[|v| + 3..] == rest;
      assert TailAt(u, tokens, s, d, 3);
      LongerLater(u, tokens);
    }
  }

  lemma ThreeUnderscores()
    ensures Separators("___")
  {
    assert SEPARATORS[4] == ('_', '_');
    assert InClass(SEPARATORS, '_');
  }

  lemma LongerLater(u: Unicode, tokens: seq<string>)
    requires tokens != []
    ensures SomeLonger(u, tokens) ==> !NoLonger(u, tokens[0]) || SomeLonger(u, tokens[1..])
  {
    hide NoLonger;
    if t :| t in tokens && !NoLonger(u, t) {
      assert t == tokens[0] || t in tokens[1..];
    }
  }

  /**
   The compiled bound covers every string the pattern matches if and only if no token of the type
   has a case variant that takes more bytes: with the Unicode tables, no token with a k or an s.
   */
  lemma BoundExact(u: Unicode, typ: string)
    requires u.Wf()
    ensures (forall s :: Matches(u, Pattern(typ), s) ==> ByteLen(s) <= MaxLen(Pattern(typ)))
            <==> !SomeLonger(u, Tokens(typ))
  {
    hide Matches, NoLonger, ByteLen, SumLen, Level, Pattern, Tail, Spaces, MaxLen;
    PatternSum(typ);
    RestSum(Tokens(typ));
    if SomeLonger(u, Tokens(typ)) {
      var rest, d := LongTail(u, Tokens(typ));
      var s := "<" + ("   " + rest);
      ThreeSpaces();
      assert s[1..1 + 3] == "   " && s[1 + 3..] == rest;
      assert AcceptedAt(u, typ, s, d, 3);
      AcceptedToMatch(u, typ, s, d);
      ByteLenAppend("<", "   " + rest);
      ByteLenAppend("   ", rest);
      AsciiBytes("<");
      AsciiBytes("   ");
      assert Matches(u, Pattern(typ), s) && ByteLen(s) > MaxLen(Pattern(typ));
    } else {
      forall s | Matches(u, Pattern(typ), s)
        ensures ByteLen(s) <= MaxLen(Pattern(typ))
      {
        PatternLevel(u, typ);
        BoundSound(u, Pattern(typ), s);
      }
    }
  }

  lemma ThreeSpaces()
    ensures Spaces("   ")
  {
    assert SPACES[2] == (' ', ' ');
    assert InClass(SPACES, ' ');
  }

  lemma PatternLevel(u: Unicode, typ: string)
    requires !SomeLonger(u, Tokens(typ))
    ensures Level(u, Pattern(typ))
  {
    hide NoLonger, Rest;
    var rest := Rest(Tokens(typ));
    var subs := [Literal("<", false), SPACE_RUN] + rest;
    forall i | 0 <= i < |subs|
      ensures Level(u, subs[i])
    {
      if i >= 2 { RestLevel(u, Tokens(typ), i - 2); }
    }
  }

  /** Then every string the compiled rule recognises fits in the bound the stream holds back. */
  lemma RecognisedFits(u: Unicode, runes: string -> string, typ: string, r: DriftRule, w: string)
    requires u.Wf() && CompiledFor(u, runes, typ, r) && r.canon(w).Some?
    requires !SomeLonger(u, Tokens(typ)) && |w| <= ByteLen(runes(w))
    ensures |w| <= MaxLen(Pattern(typ))
  {
    hide Matches, Accepted, ByteLen, MaxLen, Pattern;
    var d :| Names(u, runes, typ, w, d);
    AcceptedToMatch(u, typ, runes(w), d);
    BoundExact(u, typ);
  }
}
