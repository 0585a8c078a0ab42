/**
 The demasker a factory builds from what masking recorded and from the rules that found something:
 when it may stream, and that it then gives every masked text back.
 */
module BuiltDemasker {
  import opened Text
  import opened AngleRewrite
  import opened Placeholder
  import opened PlaceholderScan
  import opened RegexTree
  import opened MatchLength
  import opened DriftPattern
  import opened DriftRules
  import opened DriftForms
  import opened DriftPass
  import opened Demasking
  import opened DemaskLimits
  import opened LongForms
  import Ordering
  import Factory
  import JsonEscape
  import JsonCommute
  import MaskUseCase
  import Utf8

  function RulesOf(cs: seq<Compiled>): (r: seq<DriftRule>)
    ensures |r| == |cs| && forall i :: 0 <= i < |cs| ==> r[i] == cs[i].rule
  {
    seq(|cs|, i requires 0 <= i < |cs| => cs[i].rule)
  }

  ghost predicate CompiledAll(u: Unicode, runes: string -> string, cs: seq<Compiled>) {
    && AsciiFolds(u) && ReadsBytes(runes) && DistinctIds(RulesOf(cs))
    && forall c :: c in cs ==> WordType(c.typ) && CompiledFor(u, runes, c.typ, c.rule)
  }

  /** The largest compiled bound, 0 when there is none. */
  method MaxPlaceholderLen(cs: seq<Compiled>) returns (m: nat)
    ensures Covers(m, cs)
    ensures m > 0 ==> exists c :: c in cs && m == MaxLen(Pattern(c.typ))
  {
    m := 0;
    for i := 0 to |cs|
      invariant forall j :: 0 <= j < i ==> MaxLen(Pattern(cs[j].typ)) <= m
      invariant m > 0 ==> exists c :: c in cs && m == MaxLen(Pattern(c.typ))
    {
      if MaxLen(Pattern(cs[i].typ)) > m {
        m := MaxLen(Pattern(cs[i].typ));
        assert cs[i] in cs;
      }
    }
  }

  ghost predicate Covers(m: nat, cs: seq<Compiled>) {
    forall c :: c in cs ==> MaxLen(Pattern(c.typ)) <= m
  }

  // ---- which originals a stream can bear ----

  ghost predicate Minted(m: map<string, string>) {
    forall w :: w in m ==> LiteralShape(w)
  }

  ghost predicate AllTelling(m: map<string, string>) {
    forall w :: w in m ==> Telling(m[w])
  }

  lemma RecognisedForm(u: Unicode, runes: string -> string, cs: seq<Compiled>, v: View, w: string)
    requires CompiledAll(u, runes, cs) && v.rules == RulesOf(cs) && Minted(v.originals) && Recognises(v.Whole(), w)
    ensures Form(w)
  {
    hide Form, FormChar, Accepted, AcceptedAt, LiteralShape;
    if w in v.originals {
      LiteralForm(w);
    } else {
      var c, d := Accepts(u, runes, cs, v, w);
      AcceptedForm(u, c.typ, runes(w), d);
      FormOfRunes(runes, w);
    }
  }

  /** A form that is no minted placeholder was accepted by some rule. */
  lemma Accepts(u: Unicode, runes: string -> string, cs: seq<Compiled>, v: View, w: string) returns (c: Compiled, d: string)
    requires CompiledAll(u, runes, cs) && v.rules == RulesOf(cs) && w !in v.originals && Recognises(v.Whole(), w)
    ensures c in cs && Accepted(u, c.typ, runes(w), d)
  {
    hide Accepted;
    var b := Best(v.rules, w).value;
    var i :| 0 <= i < |cs| && cs[i].rule == b;
    c := cs[i];
    assert CompiledFor(u, runes, c.typ, c.rule);
    d :| Names(u, runes, c.typ, w, d);
  }

  /** No original holds an angle bracket or is part of a recognised form. */
  ghost predicate OriginalsInert(v: View) {
    forall w :: w in v.originals ==>
      AngleFree(v.originals[w]) && forall q :: Recognises(v.Whole(), q) ==> !Occurs(v.originals[w], q)
  }

  /** The demasker built from minted placeholders may stream exactly when its originals are inert. */
  lemma BuiltIsSteady(u: Unicode, runes: string -> string, cs: seq<Compiled>, pairs: Factory.Pairs,
                      originals: map<string, string>, indexMax: nat, ruleMax: nat)
    requires CompiledAll(u, runes, cs) && Minted(originals)
    requires Factory.Agree(pairs, originals) && forall w :: w in originals ==> |w| <= indexMax
    ensures var v := Factory.MakeView(pairs, originals, RulesOf(cs), indexMax, ruleMax);
            Steady(v) <==> OriginalsInert(v)
  {
    hide View.Whole, LiteralAt, CompiledFor, AngleFree, Occurs;
    var v := Factory.MakeView(pairs, originals, RulesOf(cs), indexMax, ruleMax);
    BuiltWf(v, pairs, originals, cs);
    InertOriginals(v);
  }

  lemma InertOriginals(v: View)
    requires v.Wf()
    ensures InertIn(v.Whole(), v.Whole()) <==> OriginalsInert(v)
  {
    hide AngleFree, Occurs, IsToken, View.Whole;
    KeysRestored(v);
    if OriginalsInert(v) {
      forall w | Recognises(v.Whole(), w)
        ensures AngleFree(v.Whole()(w).value) && forall q :: Recognises(v.Whole(), q) ==> !Occurs(v.Whole()(w).value, q)
      {
        var k := RestoredIsOriginal(v, w);
      }
    }
  }

  lemma KeysRestored(v: View)
    requires v.Wf()
    ensures forall w :: w in v.originals ==> Recognises(v.Whole(), w) && v.Whole()(w).value == v.originals[w]
  {
  }

  /** Telling originals are inert. */
  lemma TellingIsInert(u: Unicode, runes: string -> string, cs: seq<Compiled>, v: View)
    requires CompiledAll(u, runes, cs) && v.rules == RulesOf(cs) && Minted(v.originals) && AllTelling(v.originals)
    ensures OriginalsInert(v)
  {
    hide Form, FormChar, View.Whole, LiteralAt, CompiledFor;
    forall w, q | w in v.originals && Recognises(v.Whole(), q)
      ensures !Occurs(v.originals[w], q)
    {
      RecognisedForm(u, runes, cs, v, q);
      TellingOutside(v.originals[w], q);
    }
  }

  // ---- originals no form has room for ----

  /** An ASCII original that is part of a form is no longer than the held-back tail. */
  lemma LongIsInert(u: Unicode, runes: string -> string, cs: seq<Compiled>, v: View, o: string, q: string)
    requires CompiledAll(u, runes, cs) && v.rules == RulesOf(cs) && Covers(v.maxPending, cs)
    requires (forall x :: x in v.originals ==> |x| <= v.maxPending) && Recognises(v.Whole(), q)
    requires Ascii(o) && |o| > v.maxPending
    ensures !Occurs(o, q)
  {
    hide Form, MaxLen, Pattern, Accepted, Occurs, Ascii, View.Whole;
    if q !in v.originals {
      var c, d := Accepts(u, runes, cs, v, q);
      AcceptedForm(u, c.typ, runes(q), d);
      OccursShorter(o, runes(q));
    } else {
      OccursShorter(o, q);
    }
  }

  /**
   An ASCII original with ten digits in a row, such as a card number, is part of no form when neither
   the types nor the minted placeholders bring more digits than an index.
   */
  lemma DigitsAreInert(u: Unicode, runes: string -> string, cs: seq<Compiled>, v: View, o: string, q: string)
    requires CompiledAll(u, runes, cs) && DigitFolds(u) && v.rules == RulesOf(cs) && Recognises(v.Whole(), q)
    requires (forall c :: c in cs ==> NoDigits(c.typ)) && (forall w :: w in v.originals ==> FewDigits(w))
    requires Ascii(o) && TenDigits(o)
    ensures !Occurs(o, q)
  {
    hide Accepted, Occurs, Ascii, View.Whole, NoDigits, TenDigits, FewDigits;
    if q !in v.originals {
      var c, d := Accepts(u, runes, cs, v, q);
      AcceptedDigits(u, c.typ, runes(q), d);
      TenDoNotFit(o, runes(q));
    } else {
      TenDoNotFit(o, q);
    }
  }

  // ---- exactly when the built demasker streams ----

  /** Every minted placeholder is read as itself by the rule that wins it. */
  ghost predicate ReadsOwn(v: View) {
    forall w :: w in v.originals ==> Best(v.rules, w).Some? && Best(v.rules, w).value.canon(w) == Some(w)
  }

  /**
   A rule reads its placeholders as themselves if its type is regular, the index is in range, and no
   rule with a smaller ID accepts them.
   */
  lemma OwnWhenFirst(u: Unicode, runes: string -> string, cs: seq<Compiled>, c: Compiled, index: nat)
    requires u.Wf() && WordFolds(u) && CompiledAll(u, runes, cs) && c in cs && Regular(c.typ) && 0 < index < INDEX_LIMIT
    requires forall x :: x in cs && x.rule.canon(Format(c.typ, index)).Some? ==> Ordering.StrLe(c.rule.id, x.rule.id)
    ensures var w := Format(c.typ, index);
            Best(RulesOf(cs), w).Some? && Best(RulesOf(cs), w).value.canon(w) == Some(w)
  {
    hide Regular, CompiledFor, Format, WordFolds;
    var w := Format(c.typ, index);
    CanonicalMapsToItself(u, runes, c.typ, c.rule, index);
    var i :| 0 <= i < |cs| && cs[i] == c;
    assert RulesOf(cs)[i] == c.rule;
    BestIsLeast(RulesOf(cs), w, c.rule);
    var b := Best(RulesOf(cs), w).value;
    var j :| 0 <= j < |RulesOf(cs)| && RulesOf(cs)[j] == b;
    assert cs[j] in cs && cs[j].rule == b;
    Ordering.StrLeTotal(b.id, c.rule.id);
  }

  /** If the rules read every minted placeholder as itself, each has a drift form as well. */
  lemma CompiledForms(u: Unicode, runes: string -> string, cs: seq<Compiled>, v: View)
    requires u.Wf() && WordFolds(u) && CompiledAll(u, runes, cs) && v.rules == RulesOf(cs) && Minted(v.originals) && ReadsOwn(v)
    ensures Forms(v)
  {
    hide LiteralShape, WordFolds, CompiledFor, Best, IsToken, Spaced, LateForm, ReadsBytes, AsciiFolds, Ascii, DistinctIds;
    forall w | w in v.originals
      ensures exists p :: LateForm(v, p, v.originals[w])
    {
      LiteralFilled(w);
      SpacedShape(w);
      SpacedBest(u, runes, cs, w);
      LateIs(v, Spaced(w), w);
    }
  }

  lemma LateIs(v: View, p: string, w: string)
    requires w in v.originals && p !in v.originals && IsToken(p)
    requires Best(v.rules, p).Some? && Best(v.rules, p).value.canon(p) == Some(w)
    ensures LateForm(v, p, v.originals[w])
  {
  }

  lemma {:induction false} SpacedBest(u: Unicode, runes: string -> string, cs: seq<Compiled>, w: string)
    requires u.Wf() && WordFolds(u) && ReadsBytes(runes) && LiteralShape(w)
    requires forall c :: c in cs ==> WordType(c.typ) && CompiledFor(u, runes, c.typ, c.rule)
    ensures w != "" && Best(RulesOf(cs), Spaced(w)) == Best(RulesOf(cs), w)
    ensures Best(RulesOf(cs), w).Some? && Best(RulesOf(cs), w).value.canon(w) == Some(w) ==>
              Best(RulesOf(cs), w).value.canon(Spaced(w)) == Some(w)
  {
    hide LiteralShape, WordFolds, CompiledFor, ReadsBytes, Spaced;
    LiteralFilled(w);
    if cs != [] {
      var rest := cs[1..];
      assert cs[0] in cs && forall c :: c in rest ==> c in cs;
      RulesTail(cs);
      SpacedBest(u, runes, rest, w);
      SpacedCanon(u, runes, cs[0], w);
    }
  }

  lemma RulesTail(cs: seq<Compiled>)
    requires cs != []
    ensures RulesOf(cs)[1..] == RulesOf(cs[1..]) && RulesOf(cs)[0] == cs[0].rule
  {
  }

  /**
   The built demasker, if its rules read the minted placeholders as themselves and no original holds
   a bracket, streams as in one shot for all texts and cuts if and only if no original is part of a
   recognised form and no form is out of reach.
   */
  lemma BuiltStreamsExactly(u: Unicode, runes: string -> string, cs: seq<Compiled>, pairs: Factory.Pairs,
                            originals: map<string, string>, indexMax: nat, ruleMax: nat)
    requires u.Wf() && WordFolds(u) && CompiledAll(u, runes, cs) && Minted(originals)
    requires Factory.Agree(pairs, originals) && forall w :: w in originals ==> AngleFree(originals[w])
    ensures var v := Factory.MakeView(pairs, originals, RulesOf(cs), indexMax, ruleMax);
            ReadsOwn(v) ==> (StreamsAsOneShot(v) <==> OriginalsInert(v) && Bounded(v.Whole(), v.Reach()))
  {
    hide View.Whole, LiteralShape, CompiledFor, AngleFree, Occurs, WordFolds, OneShot, Stream, OriginalsInert;
    var v := Factory.MakeView(pairs, originals, RulesOf(cs), indexMax, ruleMax);
    BuiltWf(v, pairs, originals, cs);
    InertOriginals(v);
    if ReadsOwn(v) {
      CompiledForms(u, runes, cs, v);
      StreamsExactlyWhenInert(v);
    }
  }

  lemma BuiltWf(v: View, pairs: Factory.Pairs, originals: map<string, string>, cs: seq<Compiled>)
    requires v.pairs == pairs && v.originals == originals && v.rules == RulesOf(cs) && DistinctIds(RulesOf(cs))
    requires Minted(originals) && Factory.Agree(pairs, originals)
    ensures v.Wf()
  {
    forall w | w in originals
      ensures IsToken(w) && exists i :: 0 <= i < |pairs| && pairs[i].0 == w
    {
      assert LiteralShape(w) && Factory.HasKey(pairs, w);
    }
  }

  // ---- in a JSON context ----

  /** Escaping keeps an original telling: what it writes for such a character is telling itself. */
  lemma {:induction false} EscapeTells(o: string)
    ensures AngleFree(o) ==> AngleFree(JsonEscape.Escape(o))
    ensures Tells(o) ==> Tells(JsonEscape.Escape(o))
    decreases |o|
  {
    hide JsonEscape.Escape, Tells, EscapeHead, AngleFree, UnitLen;
    EscapeNothing();
    if o != "" {
      var k := UnitLen(o);
      EscapeTells(o[k..]);
      EscapeUnfolds(o);
      EscapedUnit(o);
      var e := EscapeHead(o);
      assert o == o[..k] + o[k..];
      TellsAppend(o[..k], o[k..]);
      TellsAppend(e, JsonEscape.Escape(o[k..]));
      AngleFreeAppend(o[..k], o[k..]);
      AngleFreeAppend(e, JsonEscape.Escape(o[k..]));
    }
  }

  lemma EscapeNothing()
    ensures JsonEscape.Escape("") == ""
  {
  }

  predicate Tells(o: string) {
    exists i :: 0 <= i < |o| && o[i] as int < 0x80 && !FormChar(o[i])
  }

  lemma TellsAppend(a: string, b: string)
    ensures Tells(a + b) <==> Tells(a) || Tells(b)
  {
    hide FormChar;
    if Tells(a) {
      var i :| 0 <= i < |a| && a[i] as int < 0x80 && !FormChar(a[i]);
      assert (a + b)[i] == a[i];
    }
    if Tells(b) {
      var i :| 0 <= i < |b| && b[i] as int < 0x80 && !FormChar(b[i]);
      assert (a + b)[|a| + i] == b[i];
    }
  }

  /** What is written for the first character of a text. */
  function EscapeHead(o: string): string
    requires o != ""
  {
    var n := Utf8.RuneLen(o);
    if n == 0 then "\\ufffd"
    else if n == 1 then JsonEscape.EscapeAscii(o[0])
    else if o[..n] == JsonEscape.LINE_SEPARATOR then "\\u2028"
    else if o[..n] == JsonEscape.PARAGRAPH_SEPARATOR then "\\u2029"
    else o[..n]
  }

  lemma EscapeUnfolds(o: string)
    requires o != ""
    ensures JsonEscape.Escape(o) == EscapeHead(o) + JsonEscape.Escape(o[UnitLen(o)..])
  {
    hide JsonEscape.EscapeAscii, Utf8.StartsRune, Utf8.Width;
  }

  /** Bytes of the first character of a text, ill-formed input taken byte by byte. */
  function UnitLen(o: string): (n: nat)
    requires o != ""
    ensures 0 < n <= |o|
  {
    if Utf8.RuneLen(o) == 0 then 1 else Utf8.RuneLen(o)
  }

  lemma EscapedUnit(o: string)
    requires o != ""
    ensures AngleFree(o[..UnitLen(o)]) ==> AngleFree(EscapeHead(o))
    ensures Tells(o[..UnitLen(o)]) ==> Tells(EscapeHead(o))
  {
    hide JsonEscape.EscapeAscii, FormChar, Tells, AngleFree, Utf8.RuneLen;
    SpellingTells();
    if Utf8.RuneLen(o) == 1 {
      ShortUnit(o);
      AsciiUnit(o[0]);
      assert o[..1] == [o[0]];
    }
  }

  /** The fixed spellings hold no bracket, and the backslash tells. */
  lemma SpellingTells()
    ensures forall e :: e in {"\\ufffd", "\\u2028", "\\u2029"} ==> AngleFree(e) && Tells(e)
  {
    BackslashTells("ufffd");
    BackslashTells("u2028");
    BackslashTells("u2029");
    assert "\\" + "ufffd" == "\\ufffd" && "\\" + "u2028" == "\\u2028" && "\\" + "u2029" == "\\u2029";
  }

  lemma ShortUnit(o: string)
    requires o != "" && Utf8.RuneLen(o) == 1
    ensures o[0] as int < 0x80
  {
  }

  lemma BackslashTells(rest: string)
    ensures Tells("\\" + rest)
  {
    assert ("\\" + rest)[0] == '\\' && !FormChar('\\');
  }

  lemma AsciiUnit(c: char)
    requires c as int < 0x80
    ensures var e := JsonEscape.EscapeAscii(c); (AngleFree([c]) ==> AngleFree(e)) && (Tells([c]) ==> Tells(e))
  {
    var e := JsonEscape.EscapeAscii(c);
    if e != [c] {
      assert e[0] == '\\' && !FormChar('\\');
    }
  }

  /** The JSON-context demasker of the same originals may stream as well. */
  lemma EscapedTelling(m: map<string, string>)
    requires AllTelling(m)
    ensures AllTelling(JsonCommute.Escaped(m))
  {
    hide AngleFree, JsonEscape.Escape, FormChar;
    forall w | w in m
      ensures Telling(JsonEscape.Escape(m[w]))
    {
      EscapeTells(m[w]);
      assert Telling(m[w]);
      assert Tells(m[w]);
    }
  }

  // ---- long forms ----

  /** The forms that hold a byte outside ASCII. */
  function Exotic(f: Recognizer): Recognizer {
    w => if Ascii(w) then None else f(w)
  }

  /** Only forms with a byte outside ASCII can be longer than the held-back tail. */
  lemma FitsWithoutExotic(u: Unicode, runes: string -> string, cs: seq<Compiled>, v: View, text: string)
    requires CompiledAll(u, runes, cs) && v.rules == RulesOf(cs) && Covers(v.maxPending, cs)
    requires (forall w :: w in v.originals ==> |w| <= v.maxPending) && Clean(Exotic(v.Whole()), text)
    ensures Fits(v, text)
  {
    hide Clean, View.Whole, CompiledAll, Covers, Form, MaxLen, Pattern;
    forall w | Recognises(Long(v.Whole(), v.Reach()), w)
      ensures Recognises(Exotic(v.Whole()), w)
    {
      if Ascii(w) {
        AsciiFormShort(u, runes, cs, v, w);
      }
    }
    CleanOfFewer(Exotic(v.Whole()), Long(v.Whole(), v.Reach()), text);
  }

  lemma AsciiFormShort(u: Unicode, runes: string -> string, cs: seq<Compiled>, v: View, w: string)
    requires CompiledAll(u, runes, cs) && v.rules == RulesOf(cs) && Covers(v.maxPending, cs)
    requires (forall x :: x in v.originals ==> |x| <= v.maxPending) && Recognises(v.Whole(), w) && Ascii(w)
    ensures |w| <= v.maxPending
  {
    hide Form, MaxLen, Pattern, Accepted;
    if w !in v.originals {
      var c, d := Accepts(u, runes, cs, v, w);
      AcceptedForm(u, c.typ, runes(w), d);
    }
  }

  /** When moreover no type has a longer case variant, every text fits. */
  lemma BuiltIsStreamable(u: Unicode, runes: string -> string, cs: seq<Compiled>, v: View)
    requires u.Wf() && CompiledAll(u, runes, cs) && Steady(v) && v.rules == RulesOf(cs) && Covers(v.maxPending, cs)
    requires (forall w :: |w| <= ByteLen(runes(w))) && forall c :: c in cs ==> !SomeLonger(u, Tokens(c.typ))
    ensures v.Streamable() && forall text :: Fits(v, text)
  {
    hide Form, MaxLen, Pattern, Accepted, ByteLen, SomeLonger, CompiledFor, InertIn, Fits;
    forall w | Recognises(v.Whole(), w)
      ensures |w| <= v.Reach()
    {
      if w !in v.originals {
        var b := Best(v.rules, w).value;
        var i :| 0 <= i < |cs| && cs[i].rule == b;
        assert cs[i] in cs;
        RecognisedFits(u, runes, cs[i].typ, b, w);
      }
    }
    forall text
      ensures Fits(v, text)
    {
      StreamableFits(v, text);
    }
  }

  // ---- masked, streamed, restored ----

  /** What the exact pass leaves clean was clean before, for forms the exact pass does not know. */
  lemma {:induction false} CleanBefore(f: Recognizer, h: Recognizer, y: string)
    requires Clean(h, Rewrite(f, y)) && forall w :: Recognises(h, w) ==> f(w).None?
    ensures Clean(h, y)
    decreases |y|
  {
    hide Rewrite, HeadLen, TokenLen;
    if y != "" {
      var n, k := HeadLen(f, y), HeadLen(h, y);
      if k > 0 {
        TakeDrop(y, k);
        assert Recognises(h, y[..k]);
        RewriteUnrecognisedToken(f, y[..k], y[k..]);
        SameHead(h, y[..k], y[k..], Rewrite(f, y[k..]));
        NotClean(h, y[..k] + Rewrite(f, y[k..]));
      } else if n > 0 {
        RewriteHead(f, y);
        CleanTake(h, f(y[..n]).value, Rewrite(f, y[n..]));
        CleanBefore(f, h, y[n..]);
        AfterToken(h, y, n);
      } else {
        RewriteStep(f, y);
        CleanTake(h, [y[0]], Rewrite(f, y[1..]));
        CleanBefore(f, h, y[1..]);
      }
    }
  }

  lemma NotClean(h: Recognizer, t: string)
    requires HeadLen(h, t) > 0
    ensures !Clean(h, t)
  {
  }

  lemma AfterToken(h: Recognizer, y: string, n: nat)
    requires 0 < n <= |y| && IsToken(y[..n]) && Clean(h, y[n..]) && HeadLen(h, y) == 0
    ensures Clean(h, y)
  {
    hide HeadLen;
    NoOpenInside(y[..n]);
    assert y[1..] == y[..n][1..] + y[n..];
    CleanAngleFree(h, y[..n][1..], y[n..]);
  }

  lemma NoOpenInside(w: string)
    requires IsToken(w)
    ensures '<' !in w[1..]
  {
    assert w[1..] == w[1..|w| - 1] + [w[|w| - 1]];
  }

  /** Neither minted placeholders nor drift forms stand in the source: then no form at all. */
  lemma {:induction false} NoFormInside(v: View, text: string)
    requires Clean(Drift(v.rules, v.originals), text) && forall w :: w in v.originals ==> !Occurs(w, text)
    ensures Clean(v.Whole(), text)
  {
    if text != "" {
      var n := HeadLen(v.Whole(), text);
      if n > 0 {
        assert text[0..] == text && text == text[..n] + text[n..];
        assert OccursAt(text[..n], text, 0);
        assert text[..n] in v.originals ==> Occurs(text[..n], text);
      }
      forall w | w in v.originals
        ensures !Occurs(w, text[1..])
      {
        if Occurs(w, text[1..]) {
          OccursInSuffix(w, text, 1);
        }
      }
      NoFormInside(v, text[1..]);
    }
  }

  /**
   Round trip: whatever the word types, a text masked by the service, cut up in any way and streamed
   through the demasker built for it comes back as it was, if no original is part of a recognised
   form and it holds no drift form of a minted placeholder.
   */
  lemma MaskedStreamsBack(u: Unicode, runes: string -> string, cs: seq<Compiled>, texts: seq<string>, r: MaskUseCase.Response,
                          pairs: Factory.Pairs, indexMax: nat, ruleMax: nat, i: nat, chunks: seq<string>, last: string)
    requires CompiledAll(u, runes, cs) && Covers(ruleMax, cs)
    requires r.Masked? && MaskUseCase.Faithful(texts, r.texts, r.reps) && i < |texts|
    requires Factory.Agree(pairs, Factory.Originals(r.reps)) && Factory.LongestKey(indexMax, Factory.Originals(r.reps))
    requires OriginalsInert(Factory.MakeView(pairs, Factory.Originals(r.reps), RulesOf(cs), indexMax, ruleMax))
    requires Clean(Drift(RulesOf(cs), Factory.Originals(r.reps)), texts[i])
    requires Join(chunks) + last == r.texts[i]
    ensures var v := Factory.MakeView(pairs, Factory.Originals(r.reps), RulesOf(cs), indexMax, ruleMax);
            Stream(v, Feed(chunks, last)) == (texts[i], "")
  {
    hide Rewrite, Clean, View.Whole, CompiledAll, OriginalsInert, LiteralShape, Stream, Factory.Originals, Drift, Steady, Fits, OneShot, Occurs;
    var originals := Factory.Originals(r.reps);
    var v := Factory.MakeView(pairs, originals, RulesOf(cs), indexMax, ruleMax);
    assert MaskUseCase.Restored(texts[i], r.texts[i], r.reps);
    BuiltIsSteady(u, runes, cs, pairs, originals, indexMax, ruleMax);
    NoFormInside(v, texts[i]);
    ExoticBefore(v, r.texts[i], texts[i]);
    FitsWithoutExotic(u, runes, cs, v, r.texts[i]);
    ChunkIndependenceWhereFits(v, chunks, last);
    SteadyIsWf(v);
    MaskUseCase.OneShotRestores(v, r.reps, r.texts[i], texts[i]);
  }

  lemma SteadyIsWf(v: View)
    requires Steady(v)
    ensures v.Wf()
  {
  }

  lemma ExoticBefore(v: View, masked: string, text: string)
    requires Clean(v.Whole(), text) && Rewrite(Lookup(v.originals), masked) == text
    requires forall w :: w in v.originals ==> LiteralShape(w)
    ensures Clean(Exotic(v.Whole()), masked)
  {
    hide Rewrite, Clean, View.Whole;
    forall w | w in v.originals
      ensures Ascii(w)
    {
      LiteralAscii(w);
    }
    CleanOfFewer(v.Whole(), Exotic(v.Whole()), text);
    CleanBefore(Lookup(v.originals), Exotic(v.Whole()), masked);
  }

  lemma LiteralAscii(w: string)
    requires LiteralShape(w)
    ensures Ascii(w)
  {
    LiteralChars(w);
  }
}
