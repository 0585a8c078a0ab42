/**
 Masking: sensitive spans are replaced by minted placeholders that avoid every placeholder-shaped
 literal of the source texts, with one placeholder per distinct original.
 */
module Masking {
  import opened Text
  import opened Placeholder
  import Scan = SensitiveScan

  datatype Replacement = Replacement(ruleId: string, original: string, placeholder: string)

  /** Literals of all source texts; minted placeholders avoid them. */
  function Reserved(texts: seq<string>): set<string> {
    if texts == [] then {} else Literals(texts[0]) + Reserved(texts[1..])
  }

  method ReservedPlaceholders(texts: seq<string>) returns (reserved: set<string>)
    ensures reserved == Reserved(texts)
  {
    reserved := {};
    for i := 0 to |texts|
      invariant reserved + Reserved(texts[i..]) == Reserved(texts)
    {
      DropDrop(texts, i, 1);
      if '<' in texts[i] {
        reserved := reserved + Literals(texts[i]);
      } else {
        NoOpenNoLiterals(texts[i]);
      }
    }
  }

  lemma {:induction false} NoOpenNoLiterals(t: string)
    requires '<' !in t
    ensures Literals(t) == {}
    decreases |t|
  {
    if t != "" {
      assert t[0] in t;
      NoOpenNoLiterals(t[1..]);
    }
  }

  lemma {:induction false} ReservedHolds(texts: seq<string>, i: nat)
    requires i < |texts|
    ensures Literals(texts[i]) <= Reserved(texts)
  {
    if i > 0 {
      ReservedHolds(texts[1..], i - 1);
    }
  }

  // ---- what masking does to one text ----

  /** Unmasked text followed by one masked original. */
  datatype Piece = Piece(plain: string, original: string, placeholder: string)

  function Source(pieces: seq<Piece>, tail: string): string {
    if pieces == [] then tail else pieces[0].plain + pieces[0].original + Source(pieces[1..], tail)
  }

  function Rendered(pieces: seq<Piece>, tail: string): string {
    if pieces == [] then tail else pieces[0].plain + pieces[0].placeholder + Rendered(pieces[1..], tail)
  }

  lemma {:induction false} PiecesSnoc(pieces: seq<Piece>, p: Piece, tail: string)
    ensures Source(pieces + [p], tail) == Source(pieces, p.plain + p.original + tail)
    ensures Rendered(pieces + [p], tail) == Rendered(pieces, p.plain + p.placeholder + tail)
  {
    if pieces == [] {
      assert [] + [p] == [p];
      assert [p][1..] == [];
    } else {
      AppendDrop(pieces, [p], 1);
      PiecesSnoc(pieces[1..], p, tail);
    }
  }

  lemma {:induction false} PiecesTail(pieces: seq<Piece>, a: string, b: string)
    ensures Source(pieces, a + b) == Source(pieces, a) + b
    ensures Rendered(pieces, a + b) == Rendered(pieces, a) + b
  {
    if pieces != [] {
      var p := pieces[0];
      PiecesTail(pieces[1..], a, b);
      Reassociate(p.plain + p.original, Source(pieces[1..], a), b);
      Reassociate(p.plain + p.placeholder, Rendered(pieces[1..], a), b);
    }
  }

  /** Every piece shows the placeholder recorded for its original. */
  ghost predicate Recorded(pieces: seq<Piece>, recorded: map<string, string>) {
    forall i :: 0 <= i < |pieces| ==>
      pieces[i].original in recorded && recorded[pieces[i].original] == pieces[i].placeholder
  }

  /** The matches as they come out of overlap resolution: in order, disjoint, all named. */
  predicate Resolved(ms: seq<Scan.Match>) {
    Scan.Disjoint(ms) && forall i :: 0 <= i < |ms| ==> ms[i].placeholder != ""
  }

  /** Where the text after the first `i` matches begins. */
  function After(ms: seq<Scan.Match>, i: nat): nat
    requires i <= |ms|
  {
    if i == 0 then 0 else ms[i - 1].end
  }

  function Between(text: string, a: nat, b: nat): string {
    if a <= b <= |text| then text[a..b] else ""
  }

  /** The matches that get masked: in order, without those that overlap an earlier one or are unnamed. */
  function Kept(ms: seq<Scan.Match>): (r: seq<Scan.Match>) {
    if ms == [] then [] else
      var before, m := Kept(ms[..|ms| - 1]), ms[|ms| - 1];
      if m.start < End(before) || m.fullText == "" || m.placeholder == "" then before else before + [m]
  }

  function End(ms: seq<Scan.Match>): nat {
    After(ms, |ms|)
  }

  /** Resolved matches are all masked. */
  lemma {:induction false} ResolvedAllKept(text: string, ms: seq<Scan.Match>)
    requires Scan.InText(text, ms) && Resolved(ms)
    ensures Kept(ms) == ms
  {
    hide Scan.InText, Resolved;
    if ms != [] {
      var before, m := ms[..|ms| - 1], ms[|ms| - 1];
      ResolvedPrefix(text, ms);
      ResolvedAllKept(text, before);
      assert before + [m] == ms;
    }
  }

  lemma ResolvedPrefix(text: string, ms: seq<Scan.Match>)
    requires Scan.InText(text, ms) && Resolved(ms) && ms != []
    ensures var before, m := ms[..|ms| - 1], ms[|ms| - 1];
            && Scan.InText(text, before) && Resolved(before)
            && End(before) <= m.start && m.fullText != "" && m.placeholder != ""
  {
    var before := ms[..|ms| - 1];
    assert forall i :: 0 <= i < |before| ==> before[i] == ms[i];
    if before != [] {
      assert ms[|ms| - 2].end <= ms[|ms| - 1].start;
    }
  }

  /** The pieces mask exactly the given matches and keep exactly what lies between them. */
  ghost predicate Follows(text: string, kept: seq<Scan.Match>, pieces: seq<Piece>) {
    |pieces| == |kept| && forall i :: 0 <= i < |kept| ==>
      pieces[i].plain == Between(text, After(kept, i), kept[i].start) && pieces[i].original == kept[i].fullText
  }

  function RuleIds(ms: seq<Scan.Match>): set<string> {
    set m | m in ms :: m.ruleId
  }

  // ---- the records ----

  /** Type and counter value a placeholder was minted from. */
  type Mint = (string, nat)

  function CounterOf(counters: map<string, nat>, typ: string): nat {
    if typ in counters then counters[typ] else 0
  }

  ghost predicate MintedFrom(placeholder: string, mint: Mint, counters: map<string, nat>, reserved: set<string>) {
    placeholder == Format(mint.0, mint.1) && placeholder !in reserved && 1 <= mint.1 <= CounterOf(counters, mint.0)
  }

  /** Originals and placeholders are in bijection, and placeholders avoid the reserved literals. */
  ghost predicate Bijective(
    recorded: map<string, string>, minted: map<string, Mint>, counters: map<string, nat>, reserved: set<string>)
  {
    && minted.Keys == recorded.Keys
    && (forall o :: o in recorded ==> MintedFrom(recorded[o], minted[o], counters, reserved))
    && (forall o, q :: o in minted && q in minted && minted[o] == minted[q] ==> o == q)
  }

  lemma BijectiveAdd(
    recorded: map<string, string>, minted: map<string, Mint>, counters: map<string, nat>, reserved: set<string>,
    later: map<string, nat>, o: string, w: string, typ: string)
    requires Bijective(recorded, minted, counters, reserved) && o !in recorded
    requires CounterOf(counters, typ) < CounterOf(later, typ)
    requires forall u :: u != typ ==> CounterOf(later, u) == CounterOf(counters, u)
    requires w == Format(typ, CounterOf(later, typ)) && w !in reserved
    ensures Bijective(recorded[o := w], minted[o := (typ, CounterOf(later, typ))], later, reserved)
  {
    hide Format, CounterOf;
    forall q | q in recorded
      ensures MintedFrom(recorded[q], minted[q], later, reserved)
    {
      assert MintedFrom(recorded[q], minted[q], counters, reserved);
      assert minted[q].0 == typ || CounterOf(later, minted[q].0) == CounterOf(counters, minted[q].0);
    }
  }

  /** Two distinct originals never share a placeholder. */
  lemma PlaceholdersDistinct(
    recorded: map<string, string>, minted: map<string, Mint>, counters: map<string, nat>, reserved: set<string>)
    requires Bijective(recorded, minted, counters, reserved)
    ensures forall o, q :: o in recorded && q in recorded && recorded[o] == recorded[q] ==> o == q
  {
    hide Format, CounterOf;
    forall o, q | o in recorded && q in recorded && recorded[o] == recorded[q]
      ensures o == q
    {
      assert MintedFrom(recorded[o], minted[o], counters, reserved);
      assert MintedFrom(recorded[q], minted[q], counters, reserved);
      FormatInjective(minted[o].0, minted[o].1, minted[q].0, minted[q].1);
    }
  }

  /** The replacement list is the record, each original once. */
  ghost predicate Listed(reps: seq<Replacement>, recorded: map<string, string>) {
    && (forall i :: 0 <= i < |reps| ==> reps[i].original in recorded && reps[i].placeholder == recorded[reps[i].original])
    && (forall o :: o in recorded ==> Lists(reps, o))
    && (forall i, j :: 0 <= i < j < |reps| ==> reps[i].original != reps[j].original)
  }

  ghost predicate Lists(reps: seq<Replacement>, o: string) {
    exists i :: 0 <= i < |reps| && reps[i].original == o
  }

  lemma ListedAdd(reps: seq<Replacement>, recorded: map<string, string>, r: Replacement)
    requires Listed(reps, recorded) && r.original !in recorded
    ensures Listed(reps + [r], recorded[r.original := r.placeholder])
  {
    var longer := reps + [r];
    forall o | o in recorded[r.original := r.placeholder]
      ensures Lists(longer, o)
    {
      if o == r.original {
        assert longer[|reps|].original == o;
      } else {
        assert Lists(reps, o);
        var i :| 0 <= i < |reps| && reps[i].original == o;
        assert longer[i].original == o;
      }
    }
  }

  class Masker {
    var originalToPlaceholder: map<string, string>
    var reps: seq<Replacement>
    var placeholderCounters: map<string, nat>
    const reserved: set<string>
    var seenRules: set<string>
    ghost var minted: map<string, Mint>

    constructor (reserved: set<string>)
      ensures Valid() && this.reserved == reserved
      ensures originalToPlaceholder == map[] && reps == [] && seenRules == {} && Types() == {}
    {
      this.reserved := reserved;
      originalToPlaceholder, reps, placeholderCounters := map[], [], map[];
      seenRules := {};
      minted := map[];
    }

    function Counter(typ: string): nat
      reads this
    {
      CounterOf(placeholderCounters, typ)
    }

    /** The placeholder types minted from so far. */
    ghost function Types(): set<string>
      reads this
    {
      set o | o in minted :: minted[o].0
    }

    ghost predicate Consistent()
      reads this
    {
      Bijective(originalToPlaceholder, minted, placeholderCounters, reserved)
    }

    ghost predicate Valid()
      reads this
    {
      Consistent() && Listed(reps, originalToPlaceholder)
    }

    /** The next counter value whose printed placeholder is not reserved. */
    method NextPlaceholder(typ: string) returns (placeholder: string)
      modifies this`placeholderCounters
      ensures Counter(typ) > old(Counter(typ))
      ensures placeholder == Format(typ, Counter(typ)) && placeholder !in reserved
      ensures forall k :: old(Counter(typ)) < k < Counter(typ) ==> Format(typ, k) in reserved
      ensures forall u :: u != typ ==> CounterOf(placeholderCounters, u) == CounterOf(old(placeholderCounters), u)
    {
      hide Format, Printed;
      ghost var start := Counter(typ);
      PrintedHolds(typ, start, start);
      while true
        invariant Counter(typ) >= start && Printed(typ, start, Counter(typ)) <= reserved
        invariant forall u :: u != typ ==> CounterOf(placeholderCounters, u) == CounterOf(old(placeholderCounters), u)
        decreases |reserved - Printed(typ, start, Counter(typ))|
      {
        var n := Counter(typ) + 1;
        placeholderCounters := placeholderCounters[typ := n];
        placeholder := Format(typ, n);
        PrintedHolds(typ, start, n - 1);
        if placeholder !in reserved {
          return;
        }
        PrintedGrows(typ, start, n);
        Shrinks(reserved, Printed(typ, start, n - 1), placeholder);
      }
    }

    method PlaceholderForOriginal(original: string, typ: string) returns (placeholder: string, created: bool)
      requires Consistent()
      modifies this`originalToPlaceholder, this`placeholderCounters, this`minted
      ensures Consistent()
      ensures created == (original !in old(originalToPlaceholder))
      ensures originalToPlaceholder == old(originalToPlaceholder)[original := placeholder]
      ensures if created then placeholder == Format(typ, Counter(typ))
              else placeholder == old(originalToPlaceholder)[original] && placeholderCounters == old(placeholderCounters)
      ensures Types() <= old(Types()) + {typ}
    {
      hide Format, Bijective;
      if original in originalToPlaceholder {
        placeholder := originalToPlaceholder[original];
        assert originalToPlaceholder == originalToPlaceholder[original := placeholder];
        return placeholder, false;
      }
      placeholder := NextPlaceholder(typ);
      BijectiveAdd(originalToPlaceholder, minted, old(placeholderCounters), reserved,
                   placeholderCounters, original, placeholder, typ);
      originalToPlaceholder := originalToPlaceholder[original := placeholder];
      minted := minted[original := (typ, Counter(typ))];
      return placeholder, true;
    }

    /** Mints or reuses the placeholder of one match and records what it stands for. */
    method Record(m: Scan.Match) returns (placeholder: string)
      requires Valid()
      modifies this
      ensures Valid() && originalToPlaceholder == old(originalToPlaceholder)[m.fullText := placeholder]
      ensures placeholder == if m.fullText in old(originalToPlaceholder) then old(originalToPlaceholder)[m.fullText]
                             else Format(m.placeholder, Counter(m.placeholder))
      ensures reps == old(reps) + if m.fullText in old(originalToPlaceholder) then []
                                  else [Replacement(m.ruleId, m.fullText, placeholder)]
      ensures seenRules == old(seenRules) + {m.ruleId}
      ensures Types() <= old(Types()) + {m.placeholder}
    {
      hide Bijective, Listed, Format;
      var created;
      placeholder, created := PlaceholderForOriginal(m.fullText, m.placeholder);
      if created {
        ListedAdd(reps, old(originalToPlaceholder), Replacement(m.ruleId, m.fullText, placeholder));
        reps := reps + [Replacement(m.ruleId, m.fullText, placeholder)];
      } else {
        assert originalToPlaceholder == old(originalToPlaceholder);
        assert reps + [] == reps;
      }
      seenRules := seenRules + {m.ruleId};
    }

    /**
     Replaces the kept matches by their placeholders.  The pieces say what became of each part of the
     text: they mask exactly these matches and keep all the rest.
     */
    method MaskText(text: string, matches: seq<Scan.Match>) returns (masked: string, ghost pieces: seq<Piece>, ghost tail: string)
      requires Valid() && Slices(text, matches)
      modifies this
      ensures Valid() && Extends(old(originalToPlaceholder), originalToPlaceholder)
      ensures Types() <= old(Types()) + Names(matches)
      ensures Source(pieces, tail) == text && Rendered(pieces, tail) == masked
      ensures Recorded(pieces, originalToPlaceholder)
      ensures Follows(text, Kept(matches), pieces) && tail == Between(text, End(Kept(matches)), |text|)
      ensures seenRules == old(seenRules) + RuleIds(Kept(matches))
      ensures Kept(matches) == [] ==> reps == old(reps)
    {
      pieces, tail := [], text;
      Begin(text, matches, originalToPlaceholder);
      NotedNothing(Types(), seenRules, reps);
      if |matches| == 0 {
        return text, [], text;
      }
      hide *;
      var b, pos: nat := "", 0;
      for i := 0 to |matches|
        invariant Valid() && Extends(old(originalToPlaceholder), originalToPlaceholder)
        invariant Noted(old(Types()), Types(), old(seenRules), seenRules, old(reps), reps, matches[..i])
        invariant pos <= |text| && Progress(text, Kept(matches[..i]), pos, b, pieces, originalToPlaceholder)
      {
        var m := matches[i];
        SliceAt(text, matches, i);
        KeptSnoc(matches, i);
        ProgressAt(text, Kept(matches[..i]), pos, b, pieces, originalToPlaceholder);
        if m.start < pos || m.fullText == "" || m.placeholder == "" {
          NotedSkip(old(Types()), Types(), old(seenRules), seenRules, old(reps), reps, matches, i);
          continue;
        }
        ghost var before, types, rules, listed := originalToPlaceholder, Types(), seenRules, reps;
        var placeholder := Record(m);
        ProgressStep(text, Kept(matches[..i]), m, pos, b, pieces, before, placeholder);
        NotedStep(old(Types()), types, Types(), old(seenRules), rules, old(reps), listed, reps, matches, i);
        ExtendsBy(old(originalToPlaceholder), before, m.fullText, placeholder);
        pieces := pieces + [Piece(text[pos..m.start], m.fullText, placeholder)];
        b := b + text[pos..m.start];
        b := b + placeholder;
        pos := m.end;
      }
      tail := text[pos..];
      assert matches[..|matches|] == matches;
      NotedMeans(old(Types()), Types(), old(seenRules), seenRules, old(reps), reps, matches);
      ProgressEnd(text, Kept(matches), pos, b, pieces, originalToPlaceholder);
      masked := b + text[pos..];
    }
  }

  /** Every match carries the slice of the text it spans. */
  predicate Slices(text: string, ms: seq<Scan.Match>) {
    forall i :: 0 <= i < |ms| ==> ms[i].start <= ms[i].end <= |text| && ms[i].fullText == text[ms[i].start..ms[i].end]
  }

  /** The non-empty placeholder names of the matches. */
  function Names(ms: seq<Scan.Match>): set<string> {
    set m | m in ms && m.placeholder != "" :: m.placeholder
  }

  lemma NamesSnoc(ms: seq<Scan.Match>, i: nat)
    requires i < |ms|
    ensures Names(ms[..i + 1]) == Names(ms[..i]) + if ms[i].placeholder == "" then {} else {ms[i].placeholder}
  {
    TakeSnoc(ms, i);
  }

  /** What a run over matches adds to the types, the rules and the replacements. */
  ghost predicate Noted(types0: set<string>, types: set<string>, rules0: set<string>, rules: set<string>,
                        reps0: seq<Replacement>, reps: seq<Replacement>, ms: seq<Scan.Match>) {
    types <= types0 + Names(ms) && rules == rules0 + RuleIds(Kept(ms)) && (Kept(ms) == [] ==> reps == reps0)
  }

  lemma NotedNothing(types: set<string>, rules: set<string>, reps: seq<Replacement>)
    ensures Noted(types, types, rules, rules, reps, reps, [])
  {
  }

  lemma NotedMeans(types0: set<string>, types: set<string>, rules0: set<string>, rules: set<string>,
                   reps0: seq<Replacement>, reps: seq<Replacement>, ms: seq<Scan.Match>)
    requires Noted(types0, types, rules0, rules, reps0, reps, ms)
    ensures types <= types0 + Names(ms) && rules == rules0 + RuleIds(Kept(ms)) && (Kept(ms) == [] ==> reps == reps0)
  {
  }

  lemma NotedSkip(types0: set<string>, types: set<string>, rules0: set<string>, rules: set<string>,
                  reps0: seq<Replacement>, reps: seq<Replacement>, ms: seq<Scan.Match>, i: nat)
    requires i < |ms| && Noted(types0, types, rules0, rules, reps0, reps, ms[..i])
    requires ms[i].start < End(Kept(ms[..i])) || ms[i].fullText == "" || ms[i].placeholder == ""
    ensures Noted(types0, types, rules0, rules, reps0, reps, ms[..i + 1])
  {
    hide Names, RuleIds, Kept, End;
    NamesSnoc(ms, i);
    KeptSnoc(ms, i);
  }

  lemma NotedStep(types0: set<string>, types: set<string>, types2: set<string>, rules0: set<string>, rules: set<string>,
                  reps0: seq<Replacement>, reps: seq<Replacement>, reps2: seq<Replacement>, ms: seq<Scan.Match>, i: nat)
    requires i < |ms| && Noted(types0, types, rules0, rules, reps0, reps, ms[..i])
    requires !(ms[i].start < End(Kept(ms[..i])) || ms[i].fullText == "" || ms[i].placeholder == "")
    requires types2 <= types + {ms[i].placeholder}
    ensures Noted(types0, types2, rules0, rules + {ms[i].ruleId}, reps0, reps2, ms[..i + 1])
  {
    hide Names, RuleIds, Kept, End;
    NamesSnoc(ms, i);
    KeptSnoc(ms, i);
    OneMoreRule(Kept(ms[..i]), ms[i]);
  }

  predicate Extends(a: map<string, string>, b: map<string, string>) {
    forall o :: o in a ==> o in b && b[o] == a[o]
  }

  lemma PieceAdds(pieces: seq<Piece>, p: Piece)
    ensures Source(pieces + [p], "") == Source(pieces, "") + p.plain + p.original
    ensures Rendered(pieces + [p], "") == Rendered(pieces, "") + p.plain + p.placeholder
  {
    PiecesSnoc(pieces, p, "");
    PiecesTail(pieces, "", p.plain + p.original);
    PiecesTail(pieces, "", p.plain + p.placeholder);
    assert "" + (p.plain + p.original) == p.plain + p.original + "";
    assert "" + (p.plain + p.placeholder) == p.plain + p.placeholder + "";
    Reassociate(Source(pieces, ""), p.plain, p.original);
    Reassociate(Rendered(pieces, ""), p.plain, p.placeholder);
  }

  /** How far masking got: the matches in `kept` masked, text up to `pos` rendered as `b`. */
  ghost predicate Progress(
    text: string, kept: seq<Scan.Match>, pos: nat, b: string, pieces: seq<Piece>, recorded: map<string, string>)
    requires pos <= |text|
  {
    && Source(pieces, "") == text[..pos] && Rendered(pieces, "") == b
    && Recorded(pieces, recorded) && Follows(text, kept, pieces) && pos == End(kept)
  }

  lemma Begin(text: string, ms: seq<Scan.Match>, recorded: map<string, string>)
    ensures Kept(ms[..0]) == [] && RuleIds([]) == {} && Progress(text, [], 0, "", [], recorded)
    ensures Names(ms[..0]) == {} && Extends(recorded, recorded)
    ensures ms == [] ==> Kept(ms) == [] && Follows(text, [], []) && text == Between(text, End([]), |text|)
    ensures Source([], text) == text && Rendered([], text) == text && Recorded([], recorded)
  {
  }

  lemma KeptSnoc(ms: seq<Scan.Match>, i: nat)
    requires i < |ms|
    ensures Kept(ms[..i + 1]) ==
            if ms[i].start < End(Kept(ms[..i])) || ms[i].fullText == "" || ms[i].placeholder == "" then Kept(ms[..i])
            else Kept(ms[..i]) + [ms[i]]
  {
    assert ms[..i + 1][..i] == ms[..i];
  }

  lemma ProgressAt(
    text: string, kept: seq<Scan.Match>, pos: nat, b: string, pieces: seq<Piece>, recorded: map<string, string>)
    requires pos <= |text| && Progress(text, kept, pos, b, pieces, recorded)
    ensures pos == End(kept)
  {
  }

  lemma OneMoreRule(ms: seq<Scan.Match>, m: Scan.Match)
    ensures RuleIds(ms + [m]) == RuleIds(ms) + {m.ruleId} && ms + [m] != []
  {
    forall x | x in RuleIds(ms) + {m.ruleId}
      ensures x in RuleIds(ms + [m])
    {
      if x == m.ruleId {
        assert m in ms + [m];
      } else {
        var y :| y in ms && y.ruleId == x;
        assert y in ms + [m];
      }
    }
  }

  lemma ExtendsBy(a: map<string, string>, b: map<string, string>, o: string, w: string)
    requires Extends(a, b) && (o in b ==> b[o] == w)
    ensures Extends(a, b[o := w])
  {
  }

  lemma RecordedAdd(pieces: seq<Piece>, recorded: map<string, string>, p: Piece)
    requires Recorded(pieces, recorded)
    requires p.original in recorded ==> recorded[p.original] == p.placeholder
    ensures Recorded(pieces + [p], recorded[p.original := p.placeholder])
  {
  }

  lemma ProgressStep(
    text: string, kept: seq<Scan.Match>, m: Scan.Match, pos: nat, b: string, pieces: seq<Piece>,
    recorded: map<string, string>, w: string)
    requires pos <= |text| && Progress(text, kept, pos, b, pieces, recorded)
    requires pos <= m.start <= m.end <= |text| && m.fullText == text[m.start..m.end]
    requires m.fullText in recorded ==> recorded[m.fullText] == w
    ensures Progress(text, kept + [m], m.end, b + text[pos..m.start] + w,
                     pieces + [Piece(text[pos..m.start], m.fullText, w)], recorded[m.fullText := w])
  {
    hide Source, Rendered, Recorded, Follows;
    var p := Piece(text[pos..m.start], m.fullText, w);
    PieceAdds(pieces, p);
    TextUpTo(text, pos, m.start, m.end);
    RecordedAdd(pieces, recorded, p);
    FollowsSnoc(text, kept, m, pieces, w);
  }

  lemma ProgressEnd(
    text: string, kept: seq<Scan.Match>, pos: nat, b: string, pieces: seq<Piece>, recorded: map<string, string>)
    requires pos <= |text| && Progress(text, kept, pos, b, pieces, recorded)
    ensures Source(pieces, text[pos..]) == text && Rendered(pieces, text[pos..]) == b + text[pos..]
    ensures Recorded(pieces, recorded) && Follows(text, kept, pieces)
    ensures text[pos..] == Between(text, End(kept), |text|)
  {
    hide Source, Rendered, Recorded, Follows;
    PiecesTail(pieces, "", text[pos..]);
    assert "" + text[pos..] == text[pos..];
    TakeDrop(text, pos);
  }

  lemma SliceAt(text: string, ms: seq<Scan.Match>, i: nat)
    requires Slices(text, ms) && i < |ms|
    ensures ms[i].start <= ms[i].end <= |text| && ms[i].fullText == text[ms[i].start..ms[i].end]
  {
  }

  lemma TextUpTo(text: string, a: nat, b: nat, c: nat)
    requires a <= b <= c <= |text|
    ensures text[..c] == text[..a] + text[a..b] + text[b..c]
  {
  }

  lemma FollowsSnoc(text: string, kept: seq<Scan.Match>, m: Scan.Match, pieces: seq<Piece>, w: string)
    requires m.start <= |text| && End(kept) <= m.start && Follows(text, kept, pieces)
    ensures Follows(text, kept + [m], pieces + [Piece(text[End(kept)..m.start], m.fullText, w)])
  {
    hide Between;
    var longer, all := pieces + [Piece(text[End(kept)..m.start], m.fullText, w)], kept + [m];
    assert Between(text, End(kept), m.start) == text[End(kept)..m.start] by {
      BetweenIs(text, End(kept), m.start);
    }
    forall k | 0 <= k < |all|
      ensures longer[k].plain == Between(text, After(all, k), all[k].start) && longer[k].original == all[k].fullText
    {
      assert After(all, k) == After(kept, k);
      if k < |kept| { assert longer[k] == pieces[k] && all[k] == kept[k]; }
    }
  }

  lemma BetweenIs(text: string, a: nat, b: nat)
    requires a <= b <= |text|
    ensures Between(text, a, b) == text[a..b]
  {
  }

  /** The placeholders of `typ` with counter values above `lo` up to `hi`. */
  ghost function Printed(typ: string, lo: nat, hi: nat): set<string> {
    if hi <= lo then {} else Printed(typ, lo, hi - 1) + {Format(typ, hi)}
  }

  lemma {:induction false} PrintedHolds(typ: string, lo: nat, hi: nat)
    ensures forall k :: lo < k <= hi ==> Format(typ, k) in Printed(typ, lo, hi)
    ensures hi <= lo ==> Printed(typ, lo, hi) == {}
  {
    hide Format;
    if lo < hi { PrintedHolds(typ, lo, hi - 1); }
  }

  lemma {:induction false} PrintedBelow(typ: string, lo: nat, hi: nat, n: nat)
    requires hi < n
    ensures Format(typ, n) !in Printed(typ, lo, hi)
  {
    hide Format;
    if lo < hi {
      PrintedBelow(typ, lo, hi - 1, n);
      if Format(typ, n) == Format(typ, hi) { FormatInjective(typ, n, typ, hi); }
    }
  }

  lemma PrintedGrows(typ: string, lo: nat, n: nat)
    requires lo < n
    ensures Format(typ, n) !in Printed(typ, lo, n - 1)
    ensures Printed(typ, lo, n) == Printed(typ, lo, n - 1) + {Format(typ, n)}
  {
    PrintedBelow(typ, lo, n - 1, n);
  }

  lemma Shrinks(a: set<string>, b: set<string>, x: string)
    requires x in a && x !in b
    ensures |a - (b + {x})| < |a - b|
  {
    assert a - (b + {x}) == (a - b) - {x};
  }
}
