/**
 The request use case end to end: scan every text, mask them through one masker, and get every
 source text back, in one shot or in a stream.
 */
module RoundTrip {
  import opened Text
  import opened AngleRewrite
  import opened Masking
  import opened Placeholder
  import Demasking
  import Factory

  // ---- restoring the pieces ----

  lemma {:induction false} CleanIfAbsent(f: Recognizer, u: string)
    requires forall w :: Recognises(f, w) ==> !Occurs(w, u)
    ensures Clean(f, u)
    decreases |u|
  {
    hide TokenLen;
    if u != "" {
      HeadOccurs(f, u);
      forall w | Recognises(f, w)
        ensures !Occurs(w, u[1..])
      {
        if Occurs(w, u[1..]) { OccursInSuffix(w, u, 1); }
      }
      CleanIfAbsent(f, u[1..]);
    }
  }

  lemma HeadOccurs(f: Recognizer, u: string)
    ensures var n := HeadLen(f, u); n > 0 ==> Recognises(f, u[..n]) && Occurs(u[..n], u)
  {
    hide TokenLen;
    assert OccursAt(u[..HeadLen(f, u)], u, 0);
  }

  /** A token cannot run over the opening bracket of the next one. */
  lemma HeadStopsAtOpen(f: Recognizer, u: string, rest: string)
    requires u != "" && HeadLen(f, u) == 0 && (rest == "" || rest[0] == '<')
    ensures HeadLen(f, u + rest) == 0
  {
    HeadLenAppend(f, u, rest);
    if rest == "" {
      assert u + rest == u;
    } else if u[0] == '<' && AngleFree(u[1..]) {
      NoTokenBeforeOpen(u[1..], rest);
      assert "<" + u[1..] == u;
    }
  }

  lemma {:induction false} CleanThenOpen(f: Recognizer, u: string, rest: string)
    requires Clean(f, u) && (rest == "" || rest[0] == '<')
    ensures Rewrite(f, u + rest) == u + Rewrite(f, rest)
    decreases |u|
  {
    hide HeadLen;
    if u == "" {
      assert u + rest == rest;
    } else {
      HeadStopsAtOpen(f, u, rest);
      AppendDrop(u, rest, 1);
      CleanThenOpen(f, u[1..], rest);
      HeadTail(u);
      Reassociate([u[0]], u[1..], Rewrite(f, rest));
    }
  }

  /** `f` restores every piece and finds nothing in the text between the pieces. */
  ghost predicate Restores(f: Recognizer, pieces: seq<Piece>, tail: string) {
    && (forall i :: 0 <= i < |pieces| ==> Recognises(f, pieces[i].placeholder) && f(pieces[i].placeholder).value == pieces[i].original)
    && (forall i :: 0 <= i < |pieces| ==> Clean(f, pieces[i].plain))
    && Clean(f, tail)
  }

  lemma {:induction false} RestorePieces(f: Recognizer, pieces: seq<Piece>, tail: string)
    requires Restores(f, pieces, tail)
    ensures Rewrite(f, Rendered(pieces, tail)) == Source(pieces, tail)
  {
    hide Rewrite, Clean;
    if pieces == [] {
      RewriteClean(f, tail);
    } else {
      var p, rest := pieces[0], Rendered(pieces[1..], tail);
      RestorePieces(f, pieces[1..], tail);
      Reassociate(p.plain, p.placeholder, rest);
      CleanThenOpen(f, p.plain, p.placeholder + rest);
      RewriteToken(f, p.placeholder, rest);
      Reassociate(p.plain, p.original, Source(pieces[1..], tail));
    }
  }

  lemma {:induction false} PlainOccurs(pieces: seq<Piece>, tail: string, w: string, i: nat)
    requires i <= |pieces|
    requires Occurs(w, if i < |pieces| then pieces[i].plain else tail)
    ensures Occurs(w, Source(pieces, tail))
  {
    if pieces != [] {
      var p, rest := pieces[0], Source(pieces[1..], tail);
      var s := p.plain + p.original + rest;
      if i == 0 {
        assert s[..|p.plain|] == p.plain;
        OccursInPrefix(w, s, |p.plain|);
      } else {
        PlainOccurs(pieces[1..], tail, w, i - 1);
        assert s[|p.plain| + |p.original|..] == rest;
        OccursInSuffix(w, s, |p.plain| + |p.original|);
      }
    }
  }

  /** Tokens absent from the source are absent from everything masking copied. */
  lemma CopiedIsClean(f: Recognizer, pieces: seq<Piece>, tail: string)
    requires forall w :: Recognises(f, w) ==> !Occurs(w, Source(pieces, tail))
    ensures forall i :: 0 <= i < |pieces| ==> Clean(f, pieces[i].plain)
    ensures Clean(f, tail)
  {
    hide Clean, Recognises, Occurs;
    forall i | 0 <= i < |pieces|
      ensures Clean(f, pieces[i].plain)
    {
      PartIsClean(f, pieces, tail, i);
    }
    PartIsClean(f, pieces, tail, |pieces|);
  }

  lemma PartIsClean(f: Recognizer, pieces: seq<Piece>, tail: string, i: nat)
    requires forall w :: Recognises(f, w) ==> !Occurs(w, Source(pieces, tail))
    requires i <= |pieces|
    ensures Clean(f, if i < |pieces| then pieces[i].plain else tail)
  {
    hide Clean, Recognises, Occurs;
    var u := if i < |pieces| then pieces[i].plain else tail;
    forall w | Recognises(f, w)
      ensures !Occurs(w, u)
    {
      if Occurs(w, u) { PlainOccurs(pieces, tail, w, i); }
    }
    CleanIfAbsent(f, u);
  }

  // ---- minted placeholders and the sources ----

  /** All types minted from consist of word characters. */
  ghost predicate WordTypes(minted: map<string, Mint>) {
    forall o :: o in minted ==> WordType(minted[o].0)
  }

  /** A minted placeholder is a token that occurs in none of the source texts. */
  lemma MintedIsAbsent(
    recorded: map<string, string>, minted: map<string, Mint>, counters: map<string, nat>,
    texts: seq<string>, o: string, i: nat)
    requires Bijective(recorded, minted, counters, Reserved(texts)) && WordTypes(minted)
    requires o in recorded && i < |texts|
    ensures LiteralShape(recorded[o]) && !Occurs(recorded[o], texts[i])
  {
    hide Format, LiteralAt;
    assert MintedFrom(recorded[o], minted[o], counters, Reserved(texts));
    FormatShape(minted[o].0, minted[o].1);
    ReservedHolds(texts, i);
    if Occurs(recorded[o], texts[i]) {
      OccurrenceIsLiteral(recorded[o], texts[i]);
    }
  }

  /** The index inverts the record. */
  lemma IndexInverts(
    recorded: map<string, string>, minted: map<string, Mint>, counters: map<string, nat>, reserved: set<string>,
    reps: seq<Replacement>)
    requires Bijective(recorded, minted, counters, reserved) && Listed(reps, recorded)
    ensures forall o :: o in recorded ==> recorded[o] in Factory.Originals(reps) && Factory.Originals(reps)[recorded[o]] == o
    ensures forall w :: w in Factory.Originals(reps) ==> exists o :: o in recorded && recorded[o] == w
  {
    hide Factory.Originals, Bijective;
    PlaceholdersDistinct(recorded, minted, counters, reserved);
    PlaceholdersNonEmpty(recorded, minted, counters, reserved);
    Factory.OriginalsLists(reps);
    forall o | o in recorded
      ensures recorded[o] in Factory.Originals(reps) && Factory.Originals(reps)[recorded[o]] == o
    {
      assert Lists(reps, o);
      var i :| 0 <= i < |reps| && reps[i].original == o;
      assert reps[i].placeholder == recorded[o];
    }
  }

  lemma PlaceholdersNonEmpty(
    recorded: map<string, string>, minted: map<string, Mint>, counters: map<string, nat>, reserved: set<string>)
    requires Bijective(recorded, minted, counters, reserved)
    ensures forall o :: o in recorded ==> recorded[o] != ""
  {
    forall o | o in recorded
      ensures recorded[o] != ""
    {
      assert MintedFrom(recorded[o], minted[o], counters, reserved);
    }
  }

  /** The exact pass restores every masked text to its source. */
  lemma ExactPassRestores(
    recorded: map<string, string>, minted: map<string, Mint>, counters: map<string, nat>, reps: seq<Replacement>,
    texts: seq<string>, i: nat, pieces: seq<Piece>, tail: string)
    requires Bijective(recorded, minted, counters, Reserved(texts)) && Listed(reps, recorded)
    requires WordTypes(minted) && i < |texts|
    requires Source(pieces, tail) == texts[i] && Recorded(pieces, recorded)
    ensures Rewrite(Demasking.Lookup(Factory.Originals(reps)), Rendered(pieces, tail)) == texts[i]
    ensures forall w :: w in Factory.Originals(reps) ==> LiteralShape(w) && !Occurs(w, texts[i])
  {
    hide Bijective, Listed, Factory.Originals, WordTypes, Occurs, Clean;
    var originals := Factory.Originals(reps);
    var f := Demasking.Lookup(originals);
    IndexInverts(recorded, minted, counters, Reserved(texts), reps);
    forall w | w in originals
      ensures LiteralShape(w) && !Occurs(w, texts[i])
    {
      var o :| o in recorded && recorded[o] == w;
      MintedIsAbsent(recorded, minted, counters, texts, o, i);
    }
    CopiedIsClean(f, pieces, tail);
    RestorePieces(f, pieces, tail);
  }
}
