/**
 The demasker's second pass: scan for drifted placeholders, look each canonical form up, splice
 the originals in.  Its effect is one `Rewrite` of the text.
 */
module DriftPass {
  import opened Text
  import opened AngleRewrite
  import opened Ordering
  import opened PlaceholderScan
  import Fanout

  /** Rule IDs are unique in a registry. */
  ghost predicate DistinctIds(rules: seq<DriftRule>) {
    forall r, q :: r in rules && q in rules && r.id == q.id ==> r == q
  }

  /** The rule that wins a token: the smallest ID among the rules that accept it. */
  function Best(rules: seq<DriftRule>, w: string): (b: Option<DriftRule>)
    ensures b.None? <==> forall r :: r in rules ==> r.canon(w).None?
    ensures b.Some? ==> b.value in rules && b.value.canon(w).Some?
  {
    if rules == [] then None else
      var b := Best(rules[1..], w);
      if rules[0].canon(w).None? then b
      else if b.None? || StrLe(rules[0].id, b.value.id) then Some(rules[0])
      else b
  }

  lemma {:induction false} BestIsLeast(rules: seq<DriftRule>, w: string, r: DriftRule)
    requires r in rules && r.canon(w).Some?
    ensures Best(rules, w).Some? && StrLe(Best(rules, w).value.id, r.id)
  {
    var b := Best(rules[1..], w);
    StrLeTotal(rules[0].id, rules[0].id);
    if r in rules[1..] {
      BestIsLeast(rules[1..], w, r);
      StrLeTotal(rules[0].id, b.value.id);
      if StrLe(rules[0].id, b.value.id) {
        StrLeTransitive(rules[0].id, b.value.id, r.id);
      }
    } else {
      assert r == rules[0];
      if b.Some? { StrLeTotal(rules[0].id, b.value.id); }
    }
  }

  /** What the whole pass does to a token. */
  function Drift(rules: seq<DriftRule>, originals: map<string, string>): Recognizer {
    w =>
      var b := Best(rules, w);
      if b.None? then None else
        var p := b.value.canon(w).value;
        if p in originals then Some(originals[p]) else None
  }

  /** The match the winning rule reports at position `p`. */
  function BestMatch(text: string, rules: seq<DriftRule>, p: nat): Option<Match>
    requires p <= |text|
  {
    var n := TokenLen(text[p..]);
    if n == 0 then None else
      var b := Best(rules, text[p..][..n]);
      if b.None? then None
      else Some(Match(b.value.id, p, p + n, b.value.canon(text[p..][..n]).value))
  }

  function AllMatches(text: string, rules: seq<DriftRule>): seq<Match> {
    Fanout.ScanAll(ScanRuleIn(text), rules)
  }

  lemma AllHits(text: string, rules: seq<DriftRule>)
    ensures forall m :: m in AllMatches(text, rules) ==> m.start < m.end && exists r :: r in rules && Hit(text, r, m)
  {
    forall m | m in AllMatches(text, rules)
      ensures m.start < m.end && exists r :: r in rules && Hit(text, r, m)
    {
      ScanAllHits(text, rules, m);
    }
  }

  lemma HitHasBest(text: string, rules: seq<DriftRule>, r: DriftRule, m: Match)
    requires r in rules && Hit(text, r, m)
    ensures m.start <= |text| && BestMatch(text, rules, m.start).Some?
    ensures BestMatch(text, rules, m.start).value.end == m.end
    ensures StrLe(BestMatch(text, rules, m.start).value.ruleId, m.ruleId)
  {
    hide AngleRewrite.TokenLen;
    BestIsLeast(rules, text[m.start..][..m.end - m.start], r);
  }

  lemma BestMatchHits(text: string, rules: seq<DriftRule>, p: nat)
    requires p <= |text| && BestMatch(text, rules, p).Some?
    ensures BestMatch(text, rules, p).value in AllMatches(text, rules)
  {
    hide AngleRewrite.TokenLen, Best;
    var m := BestMatch(text, rules, p).value;
    var r := Best(rules, text[p..][..TokenLen(text[p..])]).value;
    assert Hit(text, r, m);
    ScanAllHits(text, rules, m);
  }

  /** Two matches of one scan that overlap cover the same token. */
  lemma OverlapIsSameToken(text: string, rules: seq<DriftRule>, a: Match, b: Match)
    requires a in AllMatches(text, rules) && b in AllMatches(text, rules)
    requires a.start <= b.start < a.end
    ensures a.start == b.start && a.end == b.end
  {
    ScanAllHits(text, rules, a);
    ScanAllHits(text, rules, b);
    var r :| r in rules && Hit(text, r, a);
    var q :| q in rules && Hit(text, q, b);
    hide AngleRewrite.TokenLen;
    NoTokenInside(q.canon, text, a.start, a.end - a.start, b.start);
  }

  lemma SameIdSameMatch(text: string, rules: seq<DriftRule>, a: Match, b: Match)
    requires DistinctIds(rules)
    requires a in AllMatches(text, rules) && b in AllMatches(text, rules)
    requires a.start == b.start && a.end == b.end && a.ruleId == b.ruleId
    ensures a == b
  {
    ScanAllHits(text, rules, a);
    ScanAllHits(text, rules, b);
    var r :| r in rules && Hit(text, r, a);
    var q :| q in rules && Hit(text, q, b);
    assert r == q;
  }

  lemma KeyTellsMatches(text: string, rules: seq<DriftRule>)
    requires DistinctIds(rules)
    ensures KeyDetermines(MatchKey, multiset(AllMatches(text, rules)))
  {
    forall a, b | a in multiset(AllMatches(text, rules)) && b in multiset(AllMatches(text, rules)) && MatchKey(a) == MatchKey(b)
      ensures a == b
    {
      SameIdSameMatch(text, rules, a, b);
    }
  }

  /** Some kept match covers the token of `m` with a rule ID no larger. */
  lemma TokenIsKept(text: string, rules: seq<DriftRule>, m: Match) returns (o: Match)
    requires m in AllMatches(text, rules)
    ensures o in Resolve(AllMatches(text, rules)) && o in AllMatches(text, rules)
    ensures o.start == m.start && o.end == m.end && StrLe(o.ruleId, m.ruleId)
  {
    hide *;
    var all := AllMatches(text, rules);
    AllHits(text, rules);
    ResolveSound(all);
    o := WhatBeats(m, Resolve(all));
    OverlapIsSameToken(text, rules, o, m);
  }

  lemma WhatBeats(m: Match, kept: seq<Match>) returns (o: Match)
    requires Beaten(m, kept)
    ensures o in kept && o.start <= m.start < o.end
    ensures o.start == m.start && o.end == m.end ==> StrLe(o.ruleId, m.ruleId)
  {
    o :| o in kept && KeyLe(MatchKey(o), MatchKey(m)) && m.start < o.end;
  }

  /** No match of a token has a smaller rule ID than the winner. */
  lemma WinnerIsLeast(text: string, rules: seq<DriftRule>, o: Match)
    requires o in AllMatches(text, rules)
    ensures o.start <= |text| && BestMatch(text, rules, o.start).Some?
    ensures BestMatch(text, rules, o.start).value.end == o.end
    ensures StrLe(BestMatch(text, rules, o.start).value.ruleId, o.ruleId)
  {
    ScanAllHits(text, rules, o);
    var r :| r in rules && Hit(text, r, o);
    HitHasBest(text, rules, r, o);
  }

  /** The winning match at `p` survives overlap resolution. */
  lemma BestIsKept(text: string, rules: seq<DriftRule>, p: nat)
    requires DistinctIds(rules) && p <= |text| && BestMatch(text, rules, p).Some?
    ensures BestMatch(text, rules, p).value in Resolve(AllMatches(text, rules))
    ensures BestMatch(text, rules, p).value.start == p < BestMatch(text, rules, p).value.end
  {
    hide AllMatches, Resolve, AngleRewrite.TokenLen, Best, StrLe;
    var m := BestMatch(text, rules, p).value;
    BestMatchHits(text, rules, p);
    var o := TokenIsKept(text, rules, m);
    WinnerIsLeast(text, rules, o);
    StrLeTotal(o.ruleId, m.ruleId);
    SameIdSameMatch(text, rules, o, m);
  }

  /** Overlap resolution keeps exactly the winning match of each token. */
  lemma KeptIsBest(text: string, rules: seq<DriftRule>, o: Match)
    requires DistinctIds(rules)
    ensures o in Resolve(AllMatches(text, rules)) <==>
            o.start <= |text| && BestMatch(text, rules, o.start) == Some(o)
  {
    hide AllMatches, Resolve, BestMatch;
    var all := AllMatches(text, rules);
    AllHits(text, rules);
    ResolveSound(all);
    if o in Resolve(all) {
      MatchInText(text, rules, o);
      WinnerIsLeast(text, rules, o);
      BestIsKept(text, rules, o.start);
      OnlyOneAtStart(Resolve(all), o, BestMatch(text, rules, o.start).value);
    } else if o.start <= |text| && BestMatch(text, rules, o.start) == Some(o) {
      BestIsKept(text, rules, o.start);
    }
  }

  lemma MatchInText(text: string, rules: seq<DriftRule>, o: Match)
    requires o in AllMatches(text, rules)
    ensures o.start < o.end <= |text|
  {
    ScanAllHits(text, rules, o);
  }

  lemma DisjointAt(s: seq<Match>, i: nat, j: nat)
    requires Disjoint(s) && i < |s| && j < |s|
    ensures i < j ==> s[i].end <= s[j].start
  {
  }

  lemma OnlyOneAtStart(s: seq<Match>, a: Match, b: Match)
    requires Disjoint(s) && a in s && b in s
    requires a.start == b.start && a.start < a.end && b.start < b.end
    ensures a == b
  {
    var i :| 0 <= i < |s| && s[i] == a;
    var j :| 0 <= j < |s| && s[j] == b;
    DisjointAt(s, i, j);
    DisjointAt(s, j, i);
  }

  // ---- splicing ----

  datatype TextReplacement = TextReplacement(start: nat, end: nat, original: string)

  function ReplacementKey(r: TextReplacement): Key {
    Key(r.start, r.end - r.start, "")
  }

  /** Every replacement lies in the text. */
  predicate InText(text: string, reps: seq<TextReplacement>) {
    forall i :: 0 <= i < |reps| ==> reps[i].start <= reps[i].end <= |text|
  }

  function Applied(text: string, reps: seq<TextReplacement>, pos: nat): string
    requires pos <= |text| && InText(text, reps)
  {
    if reps == [] then text[pos..]
    else if reps[0].start < pos then Applied(text, reps[1..], pos)
    else text[pos..reps[0].start] + reps[0].original + Applied(text, reps[1..], reps[0].end)
  }

  method ApplyTextReplacements(text: string, reps: seq<TextReplacement>) returns (r: string)
    requires InText(text, reps)
    ensures InText(text, SortOn(ReplacementKey, reps))
    ensures r == Applied(text, SortOn(ReplacementKey, reps), 0)
  {
    var sorted := SortOn(ReplacementKey, reps);
    SameElements(sorted, reps);
    AllInText(text, reps, sorted);
    if reps == [] {
      assert text[0..] == text;
      return text;
    }
    hide SortOn, Applied, InText;
    assert sorted[0..] == sorted;
    var b, pos: nat := "", 0;
    for i := 0 to |sorted|
      invariant pos <= |text| && InText(text, sorted[i..])
      invariant b + Applied(text, sorted[i..], pos) == Applied(text, sorted, 0)
    {
      AppliedStep(text, sorted, i, pos, b);
      if sorted[i].start >= pos {
        b := b + text[pos..sorted[i].start];
        b := b + sorted[i].original;
        pos := sorted[i].end;
      }
    }
    AppliedEnd(text, sorted, pos);
    b := b + text[pos..];
    return b;
  }

  lemma AppliedEnd(text: string, reps: seq<TextReplacement>, pos: nat)
    requires pos <= |text|
    ensures InText(text, reps[|reps|..]) && Applied(text, reps[|reps|..], pos) == text[pos..]
  {
  }

  lemma AllInText(text: string, a: seq<TextReplacement>, b: seq<TextReplacement>)
    requires InText(text, a) && forall x :: x in b <==> x in a
    ensures InText(text, b)
  {
    forall i | 0 <= i < |b|
      ensures b[i].start <= b[i].end <= |text|
    {
      assert b[i] in a;
    }
  }

  lemma AppliedStep(text: string, reps: seq<TextReplacement>, i: nat, pos: nat, b: string)
    requires pos <= |text| && InText(text, reps) && i < |reps|
    ensures reps[i].start <= reps[i].end <= |text|
    ensures InText(text, reps[i..]) && InText(text, reps[i + 1..])
    ensures reps[i].start < pos ==> b + Applied(text, reps[i..], pos) == b + Applied(text, reps[i + 1..], pos)
    ensures reps[i].start >= pos ==>
            b + Applied(text, reps[i..], pos)
            == b + text[pos..reps[i].start] + reps[i].original + Applied(text, reps[i + 1..], reps[i].end)
  {
    DropDrop(reps, i, 1);
  }

  // ---- the whole pass ----

  /** The replacements for the matches whose canonical placeholder was minted. */
  function Known(ms: seq<Match>, originals: map<string, string>): seq<TextReplacement> {
    if ms == [] then []
    else if ms[0].placeholder in originals then
      [TextReplacement(ms[0].start, ms[0].end, originals[ms[0].placeholder])] + Known(ms[1..], originals)
    else Known(ms[1..], originals)
  }

  /** `reps` holds, in order, exactly the recognised tokens of `text` from `pos` on. */
  ghost predicate Tracks(text: string, f: Recognizer, reps: seq<TextReplacement>, pos: nat) {
    && Ordered(text, f, reps, pos)
    && (forall p: nat :: pos <= p <= |text| && HeadLen(f, text[p..]) > 0 ==> Listed(reps, p))
  }

  predicate Token(text: string, f: Recognizer, r: TextReplacement) {
    && r.start < r.end <= |text|
    && HeadLen(f, text[r.start..]) == r.end - r.start
    && f(text[r.start..][..r.end - r.start]) == Some(r.original)
  }

  predicate Listed(reps: seq<TextReplacement>, p: nat) {
    exists i :: 0 <= i < |reps| && reps[i].start == p
  }

  lemma {:induction false} AppliedIsRewrite(text: string, f: Recognizer, reps: seq<TextReplacement>, pos: nat)
    requires pos <= |text| && Tracks(text, f, reps, pos) && InText(text, reps)
    ensures Applied(text, reps, pos) == Rewrite(f, text[pos..])
    decreases |text| - pos
  {
    hide *;
    if pos == |text| {
      AppliedAtEnd(text, f, reps);
    } else if reps != [] && reps[0].start == pos {
      TracksTail(text, f, reps, pos);
      AppliedIsRewrite(text, f, reps[1..], reps[0].end);
      AppliedHead(text, f, reps, pos);
    } else {
      TracksSkip(text, f, reps, pos);
      AppliedIsRewrite(text, f, reps, pos + 1);
      RewriteStep(f, text[pos..]);
      DropDrop(text, pos, 1);
      AppliedSkip(text, reps, pos);
    }
  }

  lemma AppliedAtEnd(text: string, f: Recognizer, reps: seq<TextReplacement>)
    requires Tracks(text, f, reps, |text|) && InText(text, reps)
    ensures Applied(text, reps, |text|) == Rewrite(f, text[|text|..])
  {
    hide HeadLen;
    assert forall i :: 0 <= i < |reps| ==> Token(text, f, reps[i]);
  }

  lemma AppliedHead(text: string, f: Recognizer, reps: seq<TextReplacement>, pos: nat)
    requires reps != [] && Token(text, f, reps[0]) && reps[0].start == pos && InText(text, reps)
    ensures Applied(text, reps, pos) == reps[0].original + Applied(text, reps[1..], reps[0].end)
    ensures Rewrite(f, text[pos..]) == reps[0].original + Rewrite(f, text[reps[0].end..])
  {
    hide HeadLen, IsToken, Rewrite, Token;
    TokenNonEmpty(text, f, reps[0]);
    assert text[pos..pos] == "";
    RewriteAtToken(text, f, reps[0]);
  }

  lemma RewriteAtToken(text: string, f: Recognizer, r: TextReplacement)
    requires Token(text, f, r)
    ensures Rewrite(f, text[r.start..]) == r.original + Rewrite(f, text[r.end..])
  {
    hide HeadLen, IsToken, Rewrite;
    RewriteHead(f, text[r.start..]);
    DropDrop(text, r.start, r.end - r.start);
  }

  lemma TracksTail(text: string, f: Recognizer, reps: seq<TextReplacement>, pos: nat)
    requires Tracks(text, f, reps, pos) && reps != [] && InText(text, reps)
    ensures Tracks(text, f, reps[1..], reps[0].end) && InText(text, reps[1..])
    ensures Token(text, f, reps[0]) && pos <= reps[0].start < reps[0].end <= |text|
  {
    hide Token, HeadLen;
    TokenNonEmpty(text, f, reps[0]);
    forall p: nat | reps[0].end <= p <= |text| && HeadLen(f, text[p..]) > 0
      ensures Listed(reps[1..], p)
    {
      assert Listed(reps, p);
      var i :| 0 <= i < |reps| && reps[i].start == p;
      assert reps[1..][i - 1].start == p;
    }
  }

  lemma TokenNonEmpty(text: string, f: Recognizer, r: TextReplacement)
    ensures Token(text, f, r) ==> r.start < r.end <= |text|
  {
  }

  lemma TracksSkip(text: string, f: Recognizer, reps: seq<TextReplacement>, pos: nat)
    requires pos < |text| && Tracks(text, f, reps, pos) && InText(text, reps)
    requires reps == [] || reps[0].start != pos
    ensures Tracks(text, f, reps, pos + 1) && HeadLen(f, text[pos..]) == 0
    ensures reps == [] || reps[0].start > pos
  {
    hide HeadLen;
    forall i | 0 <= i < |reps|
      ensures reps[i].start > pos
    {
      assert i == 0 || reps[0].end <= reps[i].start;
      assert Token(text, f, reps[0]);
    }
    assert HeadLen(f, text[pos..]) > 0 ==> Listed(reps, pos);
  }

  lemma AppliedSkip(text: string, reps: seq<TextReplacement>, pos: nat)
    requires pos < |text| && InText(text, reps) && (reps == [] || reps[0].start > pos)
    ensures Applied(text, reps, pos) == [text[pos]] + Applied(text, reps, pos + 1)
  {
    if reps != [] {
      assert text[pos..reps[0].start] == [text[pos]] + text[pos + 1..reps[0].start];
    }
  }

  ghost predicate Winners(text: string, rules: seq<DriftRule>, ms: seq<Match>) {
    forall i :: 0 <= i < |ms| ==> ms[i].start <= |text| && BestMatch(text, rules, ms[i].start) == Some(ms[i])
  }

  lemma WinnerToken(text: string, rules: seq<DriftRule>, originals: map<string, string>, m: Match)
    requires m.start <= |text| && BestMatch(text, rules, m.start) == Some(m)
    ensures m.placeholder in originals ==>
            Token(text, Drift(rules, originals), TextReplacement(m.start, m.end, originals[m.placeholder]))
  {
    hide TokenLen, Best;
  }

  /** Tokens of `f` in order, none before `pos`. */
  ghost predicate Ordered(text: string, f: Recognizer, reps: seq<TextReplacement>, pos: nat) {
    && (forall i :: 0 <= i < |reps| ==> Token(text, f, reps[i]) && reps[i].start >= pos)
    && (forall i, j :: 0 <= i < j < |reps| ==> reps[i].end <= reps[j].start)
  }

  lemma OrderedCons(text: string, f: Recognizer, r: TextReplacement, reps: seq<TextReplacement>, pos: nat)
    requires Ordered(text, f, reps, r.end) && Token(text, f, r) && pos <= r.start
    ensures Ordered(text, f, [r] + reps, pos)
  {
    hide Token;
    TokenNonEmpty(text, f, r);
  }

  lemma {:induction false} KnownSound(
    text: string, rules: seq<DriftRule>, originals: map<string, string>, ms: seq<Match>, pos: nat)
    requires Winners(text, rules, ms) && Disjoint(ms)
    requires ms == [] || pos <= ms[0].start
    ensures Ordered(text, Drift(rules, originals), Known(ms, originals), pos)
    ensures forall m :: m in ms && m.placeholder in originals ==> Listed(Known(ms, originals), m.start)
  {
    hide Token, BestMatch, Ordered;
    if ms == [] {
      assert Ordered(text, Drift(rules, originals), [], pos) by { OrderedNil(text, Drift(rules, originals), pos); }
    } else {
      var f, rest := Drift(rules, originals), Known(ms[1..], originals);
      WinnerToken(text, rules, originals, ms[0]);
      WinnerSpan(text, rules, ms);
      KnownSound(text, rules, originals, ms[1..], ms[0].end);
      if ms[0].placeholder in originals {
        OrderedCons(text, f, TextReplacement(ms[0].start, ms[0].end, originals[ms[0].placeholder]), rest, pos);
        ListedCons(TextReplacement(ms[0].start, ms[0].end, originals[ms[0].placeholder]), rest);
      } else {
        OrderedFrom(text, f, rest, pos, ms[0].end);
      }
      HeadTail(ms);
    }
  }

  lemma OrderedNil(text: string, f: Recognizer, pos: nat)
    ensures Ordered(text, f, [], pos)
  {
  }

  lemma OrderedFrom(text: string, f: Recognizer, reps: seq<TextReplacement>, pos: nat, later: nat)
    requires Ordered(text, f, reps, later) && pos <= later
    ensures Ordered(text, f, reps, pos)
  {
    hide Token;
  }

  lemma ListedCons(r: TextReplacement, reps: seq<TextReplacement>)
    ensures Listed([r] + reps, r.start)
    ensures forall p :: Listed(reps, p) ==> Listed([r] + reps, p)
  {
    assert ([r] + reps)[0].start == r.start;
    forall p | Listed(reps, p)
      ensures Listed([r] + reps, p)
    {
      var i :| 0 <= i < |reps| && reps[i].start == p;
      assert ([r] + reps)[i + 1].start == p;
    }
  }

  lemma WinnerSpan(text: string, rules: seq<DriftRule>, ms: seq<Match>)
    requires Winners(text, rules, ms) && Disjoint(ms) && ms != []
    ensures ms[0].start < ms[0].end && (|ms| > 1 ==> ms[0].end <= ms[1].start)
  {
    hide TokenLen;
    assert BestMatch(text, rules, ms[0].start) == Some(ms[0]);
  }

  lemma KeptWins(text: string, rules: seq<DriftRule>)
    requires DistinctIds(rules)
    ensures Disjoint(Resolve(AllMatches(text, rules))) && Winners(text, rules, Resolve(AllMatches(text, rules)))
  {
    hide AllMatches, Resolve, BestMatch;
    var ms := Resolve(AllMatches(text, rules));
    AllHits(text, rules);
    ResolveSound(AllMatches(text, rules));
    forall i | 0 <= i < |ms|
      ensures ms[i].start <= |text| && BestMatch(text, rules, ms[i].start) == Some(ms[i])
    {
      KeptIsBest(text, rules, ms[i]);
    }
  }

  lemma KnownTracks(text: string, rules: seq<DriftRule>, originals: map<string, string>)
    requires DistinctIds(rules)
    ensures Tracks(text, Drift(rules, originals), Known(Resolve(AllMatches(text, rules)), originals), 0)
  {
    hide AllMatches, Resolve, BestMatch, HeadLen, Known, Ordered;
    var ms := Resolve(AllMatches(text, rules));
    KeptWins(text, rules);
    KnownSound(text, rules, originals, ms, 0);
    forall p: nat | p <= |text| && HeadLen(Drift(rules, originals), text[p..]) > 0
      ensures Listed(Known(ms, originals), p)
    {
      TokenHasWinner(text, rules, originals, p);
      KeptIsBest(text, rules, BestMatch(text, rules, p).value);
    }
  }

  lemma TokenHasWinner(text: string, rules: seq<DriftRule>, originals: map<string, string>, p: nat)
    requires p <= |text| && HeadLen(Drift(rules, originals), text[p..]) > 0
    ensures BestMatch(text, rules, p).Some?
    ensures BestMatch(text, rules, p).value.start == p && BestMatch(text, rules, p).value.placeholder in originals
  {
    hide TokenLen, Best;
  }

  /** The pass: scan, keep the minted placeholders, splice the originals in. */
  method ApplyPlaceholderRegex(text: string, rules: seq<DriftRule>, originals: map<string, string>, cpus: nat)
    returns (r: string)
    requires DistinctIds(rules) && cpus > 0
    ensures r == Rewrite(Drift(rules, originals), text)
  {
    hide Known, Applied, Resolve, AllMatches, Tracks, Rewrite;
    var matches := ScanRules(text, rules, cpus);
    var reps: seq<TextReplacement> := [];
    assert matches[0..] == matches;
    for i := 0 to |matches|
      invariant reps + Known(matches[i..], originals) == Known(matches, originals)
    {
      KnownStep(matches, originals, i, reps);
      if matches[i].placeholder in originals {
        reps := reps + [TextReplacement(matches[i].start, matches[i].end, originals[matches[i].placeholder])];
      }
    }
    KnownEnd(matches, originals);
    assert reps + [] == reps;
    KnownTracks(text, rules, originals);
    TrackedIsSorted(text, Drift(rules, originals), reps);
    r := ApplyTextReplacements(text, reps);
    AppliedIsRewrite(text, Drift(rules, originals), reps, 0);
    assert text[0..] == text;
  }

  lemma KnownStep(ms: seq<Match>, originals: map<string, string>, i: nat, reps: seq<TextReplacement>)
    requires i < |ms|
    ensures ms[i].placeholder in originals ==>
            reps + Known(ms[i..], originals)
            == reps + [TextReplacement(ms[i].start, ms[i].end, originals[ms[i].placeholder])] + Known(ms[i + 1..], originals)
    ensures ms[i].placeholder !in originals ==> Known(ms[i..], originals) == Known(ms[i + 1..], originals)
  {
    DropDrop(ms, i, 1);
  }

  lemma KnownEnd(ms: seq<Match>, originals: map<string, string>)
    ensures Known(ms[|ms|..], originals) == []
  {
  }

  lemma TrackedIsSorted(text: string, f: Recognizer, reps: seq<TextReplacement>)
    requires Tracks(text, f, reps, 0)
    ensures InText(text, reps) && SortOn(ReplacementKey, reps) == reps
  {
    hide HeadLen;
    forall i, j | 0 <= i < j < |reps|
      ensures KeyLe(ReplacementKey(reps[i]), ReplacementKey(reps[j]))
    {
      assert Token(text, f, reps[i]);
      assert reps[i].end <= reps[j].start;
    }
    SortedUnchanged(ReplacementKey, reps);
  }

  /** The fan-out gates: only a large text and more than four rules are scanned in parallel. */
  const PARALLEL_TEXT_THRESHOLD := 4 * 1024
  const PARALLEL_RULE_THRESHOLD := 4

  /** Sequential or fanned out over any number of workers, a scan reports the same matches. */
  method ScanRules(text: string, rules: seq<DriftRule>, cpus: nat) returns (ms: seq<Match>)
    requires DistinctIds(rules) && cpus > 0
    ensures ms == Resolve(AllMatches(text, rules))
  {
    var all := AllMatches(text, rules);
    if |text| >= PARALLEL_TEXT_THRESHOLD && |rules| > PARALLEL_RULE_THRESHOLD {
      KeyTellsMatches(text, rules);
      var found := Fanout.ScanParallel(ScanRuleIn(text), rules, cpus);
      SortIgnoresOrder(MatchKey, all, found);
      all := found;
    }
    ms := ResolveConflicts(all);
  }
}
