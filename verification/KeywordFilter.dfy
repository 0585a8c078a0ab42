/**
 The keyword pre-filter: when a rule's regex guarantees one of its keywords in every match, texts
 without any of them need not be scanned for the rule.
 */
module KeywordFilter {
  import opened Text
  import opened RegexTree

  /** Rune-wise lower-casing. */
  function ToLower(u: Unicode, s: string): (r: string)
    ensures |r| == |s|
  {
    seq(|s|, i requires 0 <= i < |s| => u.lower(s[i]))
  }

  predicate Contains(hay: string, needle: string) {
    exists i :: 0 <= i <= |hay| && OccursAt(needle, hay, i)
  }

  predicate ContainsAny(hay: string, keywords: seq<string>) {
    exists k :: 0 <= k < |keywords| && Contains(hay, keywords[k])
  }

  /** Every case variant the regex engine accepts lowers to the same rune. */
  predicate FoldSafe(u: Unicode, runes: string, foldCase: bool) {
    foldCase ==> forall k, i :: 0 <= k < |runes| && 0 <= i < u.period(runes[k]) ==>
                   u.lower(u.Spin(runes[k], i)) == u.lower(runes[k])
  }

  method FoldSafeForToLower(u: Unicode, runes: string, foldCase: bool) returns (safe: bool)
    requires u.Wf()
    ensures safe == FoldSafe(u, runes, foldCase)
  {
    if !foldCase {
      return true;
    }
    for k := 0 to |runes|
      invariant forall j, i :: 0 <= j < k && 0 <= i < u.period(runes[j]) ==>
                  u.lower(u.Spin(runes[j], i)) == u.lower(runes[j])
    {
      var r := runes[k];
      var lower := u.lower(r);
      var f := u.fold(r);
      ghost var n := 1;
      assert u.Spin(r, 1) == f;
      while f != r
        invariant 1 <= n <= u.period(r) && f == u.Spin(r, n)
        invariant forall i :: 0 <= i < n ==> u.lower(u.Spin(r, i)) == lower
        decreases u.period(r) - n
      {
        if u.lower(f) != lower {
          return false;
        }
        f := u.fold(f);
        n := n + 1;
      }
      assert n == u.period(r);
    }
    return true;
  }

  /** Every string matched by `re` holds a keyword, as far as the tree shows. */
  predicate Guarantees(u: Unicode, re: Regex, keywords: seq<string>) {
    match re
    case Literal(runes, foldCase) => FoldSafe(u, runes, foldCase) && ContainsAny(ToLower(u, runes), keywords)
    case Concat(subs) => exists i :: 0 <= i < |subs| && Guarantees(u, subs[i], keywords)
    case Alternate(subs) => subs != [] && forall i :: 0 <= i < |subs| ==> Guarantees(u, subs[i], keywords)
    case Plus(sub) => Guarantees(u, sub, keywords)
    case Repeat(sub, min, _) => min != 0 && Guarantees(u, sub, keywords)
    case Capture(subs) => subs != [] && Guarantees(u, subs[0], keywords)
    case _ => false
  }

  // ---- soundness ----

  lemma ContainsWithin(before: string, hay: string, after: string, needle: string)
    requires Contains(hay, needle)
    ensures Contains(before + hay + after, needle)
  {
    var i :| 0 <= i <= |hay| && OccursAt(needle, hay, i);
    var all, j := before + hay + after, |before| + i;
    assert all[j..j + |needle|] == hay[i..i + |needle|];
    assert OccursAt(needle, all, j);
  }

  lemma LowerAppend(u: Unicode, a: string, b: string)
    ensures ToLower(u, a + b) == ToLower(u, a) + ToLower(u, b)
  {
  }

  lemma LiteralLowers(u: Unicode, runes: string, foldCase: bool, s: string)
    requires FoldSafe(u, runes, foldCase) && Matches(u, Literal(runes, foldCase), s)
    ensures ToLower(u, s) == ToLower(u, runes)
  {
    forall i | 0 <= i < |s|
      ensures u.lower(s[i]) == u.lower(runes[i])
    {
      if foldCase { assert u.InOrbit(s[i], runes[i]); }
    }
  }

  lemma PartHasKeyword(u: Unicode, parts: seq<string>, i: nat, keywords: seq<string>)
    requires i < |parts| && ContainsAny(ToLower(u, parts[i]), keywords)
    ensures ContainsAny(ToLower(u, Join(parts)), keywords)
  {
    hide Contains;
    var k :| 0 <= k < |keywords| && Contains(ToLower(u, parts[i]), keywords[k]);
    var before, after := JoinAt(parts, i);
    LowerAppend(u, before, parts[i]);
    LowerAppend(u, before + parts[i], after);
    ContainsWithin(ToLower(u, before), ToLower(u, parts[i]), ToLower(u, after), keywords[k]);
  }

  /** If the tree guarantees a keyword, every string in its language holds one after lower-casing. */
  lemma {:induction false} GuaranteeSound(u: Unicode, re: Regex, keywords: seq<string>, s: string)
    requires Guarantees(u, re, keywords) && Matches(u, re, s)
    ensures ContainsAny(ToLower(u, s), keywords)
    decreases re, 0
  {
    hide Contains, ContainsAny, FoldSafe, ToLower, Join;
    match re
    case Literal(runes, foldCase) =>
      LiteralLowers(u, runes, foldCase, s);
    case Concat(subs) =>
      var parts: seq<string> :| Join(parts) == s && |parts| == |subs| && forall i :: 0 <= i < |subs| ==> Matches(u, subs[i], parts[i]);
      var i :| 0 <= i < |subs| && Guarantees(u, subs[i], keywords);
      GuaranteeSound(u, subs[i], keywords, parts[i]);
      PartHasKeyword(u, parts, i, keywords);
    case Alternate(subs) =>
      var i :| 0 <= i < |subs| && Matches(u, subs[i], s);
      GuaranteeSound(u, subs[i], keywords, s);
    case Plus(sub) =>
      RepeatedSound(u, sub, keywords, s, 1, -1);
    case Repeat(sub, min, max) =>
      RepeatedSound(u, sub, keywords, s, min, max);
    case Capture(subs) =>
      GuaranteeSound(u, subs[0], keywords, s);
  }

  lemma {:induction false} RepeatedSound(u: Unicode, re: Regex, keywords: seq<string>, s: string, min: nat, max: int)
    requires Guarantees(u, re, keywords) && Repeated(u, re, s, min, max) && min >= 1
    ensures ContainsAny(ToLower(u, s), keywords)
    decreases re, 1
  {
    hide Contains, ContainsAny, ToLower, Join;
    var parts: seq<string> :| Join(parts) == s && min <= |parts| && forall i :: 0 <= i < |parts| ==> Matches(u, re, parts[i]);
    GuaranteeSound(u, re, keywords, parts[0]);
    PartHasKeyword(u, parts, 0, keywords);
  }

  /**
   The fold test is exact: a case-insensitive literal passes it if and only if every string the
   literal matches holds the lowered literal after lower-casing.
   */
  lemma FoldTestExact(u: Unicode, runes: string)
    requires u.Wf()
    ensures FoldSafe(u, runes, true) <==>
            forall s :: Matches(u, Literal(runes, true), s) ==> Contains(ToLower(u, s), ToLower(u, runes))
  {
    var re := Literal(runes, true);
    if FoldSafe(u, runes, true) {
      forall s | Matches(u, re, s)
        ensures Contains(ToLower(u, s), ToLower(u, runes))
      {
        LiteralLowers(u, runes, true, s);
        SelfContained(ToLower(u, s));
      }
    } else {
      var k, i :| 0 <= k < |runes| && 0 <= i < u.period(runes[k]) && u.lower(u.Spin(runes[k], i)) != u.lower(runes[k]);
      var s := VariantMatches(u, runes, k, i);
      SameLengthContained(ToLower(u, s), ToLower(u, runes));
      assert ToLower(u, s)[k] != ToLower(u, runes)[k];
    }
  }

  lemma SelfContained(s: string)
    ensures Contains(s, s)
  {
    assert s[0..|s|] == s;
    assert OccursAt(s, s, 0);
  }

  lemma SameLengthContained(hay: string, needle: string)
    requires |hay| == |needle|
    ensures Contains(hay, needle) ==> hay == needle
  {
    if Contains(hay, needle) {
      var i :| 0 <= i <= |hay| && OccursAt(needle, hay, i);
      assert hay[0..|hay|] == hay;
    }
  }

  lemma VariantMatches(u: Unicode, runes: string, k: nat, i: nat) returns (s: string)
    requires u.Wf() && k < |runes| && i < u.period(runes[k])
    ensures Matches(u, Literal(runes, true), s) && |s| == |runes| && s[k] == u.Spin(runes[k], i)
  {
    s := runes[k := u.Spin(runes[k], i)];
    forall j | 0 <= j < |s|
      ensures u.InOrbit(s[j], runes[j])
    {
      assert u.period(runes[j]) >= 1 && u.Spin(runes[j], 0) == runes[j];
    }
  }

  // ---- the compiled keywords ----

  function Lowered(u: Unicode, keywords: seq<string>): seq<string> {
    seq(|keywords|, i requires 0 <= i < |keywords| => ToLower(u, keywords[i]))
  }

  /** The keywords a rule may be filtered by: all of them, lowered, or none. */
  function PrefilterKeywords(u: Unicode, re: Regex, keywords: seq<string>): (r: seq<string>)
    ensures r == [] || |r| == |keywords|
  {
    var lowered := Lowered(u, keywords);
    if keywords == [] || !Guarantees(u, re, lowered) then [] else lowered
  }

  /** The rule keeps its keywords for pre-filtering. */
  predicate Prefiltered(u: Unicode, re: Regex, keywords: seq<string>) {
    PrefilterKeywords(u, re, keywords) != []
  }

  /**
   What may be pre-filtered is: a literal taken as written exactly when each of its matches holds a keyword,
   a concatenation with any such part, alternatives when all are, repetitions and groups with their content.
   */
  lemma PrefilteredTrees(u: Unicode, keywords: seq<string>, re: Regex)
    requires keywords != []
    ensures re.Literal? && !re.foldCase ==>
              (Prefiltered(u, re, keywords) <==> forall s :: Matches(u, re, s) ==> ContainsAny(ToLower(u, s), Lowered(u, keywords)))
    ensures re.Concat? ==> (Prefiltered(u, re, keywords) <==> exists i :: 0 <= i < |re.subs| && Prefiltered(u, re.subs[i], keywords))
    ensures re.Alternate? && re.subs != [] ==>
              (Prefiltered(u, re, keywords) <==> forall i :: 0 <= i < |re.subs| ==> Prefiltered(u, re.subs[i], keywords))
    ensures re.Plus? || (re.Repeat? && re.min > 0) ==> (Prefiltered(u, re, keywords) <==> Prefiltered(u, re.sub, keywords))
    ensures re.Capture? && re.subs != [] ==> (Prefiltered(u, re, keywords) <==> Prefiltered(u, re.subs[0], keywords))
  {
    hide ContainsAny, ToLower;
    if re.Literal? && !re.foldCase {
      assert Matches(u, re, re.runes);
      assert forall s :: Matches(u, re, s) ==> s == re.runes;
    }
  }

  /** A text with a part the regex matches holds one of the keywords. */
  lemma MatchHasKeyword(u: Unicode, re: Regex, keywords: seq<string>, text: string, before: string, s: string, after: string)
    requires PrefilterKeywords(u, re, keywords) != [] && text == before + s + after && Matches(u, re, s)
    ensures ContainsAny(ToLower(u, text), PrefilterKeywords(u, re, keywords))
  {
    hide Contains, Guarantees, Matches, ToLower;
    var kws := PrefilterKeywords(u, re, keywords);
    GuaranteeSound(u, re, kws, s);
    var k :| 0 <= k < |kws| && Contains(ToLower(u, s), kws[k]);
    LowerAppend(u, before, s);
    LowerAppend(u, before + s, after);
    ContainsWithin(ToLower(u, before), ToLower(u, s), ToLower(u, after), kws[k]);
  }
}
