/**
 The placeholder scanner: every rule finds its drifted placeholders in a text, overlaps are
 resolved leftmost-longest, and each surviving match names a canonical placeholder.
 */
module PlaceholderScan {
  import opened Text
  import opened AngleRewrite
  import opened Ordering
  import Fanout

  datatype Match = Match(ruleId: string, start: nat, end: nat, placeholder: string)

  /**
   A rule as the scanner uses it: `canon` maps a token its drift pattern accepts, with a positive
   index, to the canonical placeholder, and every other string to None.
   */
  datatype DriftRule = DriftRule(id: string, canon: Recognizer)

  function MatchKey(m: Match): Key {
    Key(m.start, m.end - m.start, m.ruleId)
  }

  /** All matches of one rule from position `i` on. */
  function ScanRule(text: string, r: DriftRule, i: nat): seq<Match>
    requires i <= |text|
    decreases |text| - i
  {
    if i == |text| then [] else
      var n := HeadLen(r.canon, text[i..]);
      if n > 0 then [Match(r.id, i, i + n, r.canon(text[i..][..n]).value)] + ScanRule(text, r, i + n)
      else ScanRule(text, r, i + 1)
  }

  function ScanRuleIn(text: string): DriftRule -> seq<Match> {
    (r: DriftRule) => ScanRule(text, r, 0)
  }

  /** `m` is what rule `r` reports for the token at `m.start`. */
  ghost predicate Hit(text: string, r: DriftRule, m: Match) {
    && m.start < m.end <= |text| && m.ruleId == r.id
    && HeadLen(r.canon, text[m.start..]) == m.end - m.start
    && r.canon(text[m.start..][..m.end - m.start]) == Some(m.placeholder)
  }

  /** Where the search goes on after position `i`. */
  function Next(text: string, r: DriftRule, i: nat): (j: nat)
    requires i < |text|
    ensures i < j <= |text|
  {
    var n := HeadLen(r.canon, text[i..]);
    if n > 0 then i + n else i + 1
  }

  lemma ScanRuleStep(text: string, r: DriftRule, i: nat, m: Match)
    requires i < |text|
    ensures m in ScanRule(text, r, i) <==>
            (m.start == i && Hit(text, r, m)) || m in ScanRule(text, r, Next(text, r, i))
  {
    hide AngleRewrite.TokenLen;
    var n := HeadLen(r.canon, text[i..]);
    if n > 0 {
      var found := Match(r.id, i, i + n, r.canon(text[i..][..n]).value);
      assert m.start == i && Hit(text, r, m) <==> m == found;
    }
  }

  lemma {:induction false} ScanRuleFinds(text: string, r: DriftRule, i: nat, m: Match)
    requires i <= |text|
    ensures m in ScanRule(text, r, i) <==> i <= m.start && Hit(text, r, m)
    decreases |text| - i
  {
    hide AngleRewrite.HeadLen, AngleRewrite.TokenLen;
    if i < |text| {
      ScanRuleStep(text, r, i, m);
      ScanRuleFinds(text, r, Next(text, r, i), m);
      HitOutside(text, r, i, m);
    }
  }

  lemma HitOutside(text: string, r: DriftRule, i: nat, m: Match)
    requires i < |text|
    ensures i < m.start && Hit(text, r, m) ==> Next(text, r, i) <= m.start
  {
    hide AngleRewrite.TokenLen;
    var n := HeadLen(r.canon, text[i..]);
    if n > 0 {
      NoTokenInside(r.canon, text, i, n, m.start);
    }
  }

  /** Nothing recognisable starts inside a token. */
  lemma NoTokenInside(g: Recognizer, text: string, i: nat, n: nat, k: nat)
    requires i + n <= |text| && IsToken(text[i..][..n])
    ensures i < k < i + n ==> HeadLen(g, text[k..]) == 0
  {
    var w := text[i..][..n];
    if i < k < i + n {
      assert text[k] == w[k - i];
      assert k < i + n - 1 ==> w[1..n - 1][k - i - 1] == w[k - i];
      assert text[k..][0] == text[k] != '<';
    }
  }

  lemma {:induction false} ScanAllHits(text: string, rules: seq<DriftRule>, m: Match)
    ensures m in Fanout.ScanAll(ScanRuleIn(text), rules) <==> exists r :: r in rules && Hit(text, r, m)
  {
    if rules != [] {
      ScanAllHits(text, rules[1..], m);
      ScanRuleFinds(text, rules[0], 0, m);
      assert rules == [rules[0]] + rules[1..];
    }
  }

  // ---- overlap resolution ----

  function Greedy(s: seq<Match>, maxEnd: int): seq<Match> {
    if s == [] then []
    else if s[0].start < maxEnd then Greedy(s[1..], maxEnd)
    else [s[0]] + Greedy(s[1..], if s[0].end > maxEnd then s[0].end else maxEnd)
  }

  function Resolve(ms: seq<Match>): seq<Match> {
    Greedy(SortOn(MatchKey, ms), -1)
  }

  lemma GreedyStep(s: seq<Match>, i: nat, maxEnd: int)
    requires i < |s|
    ensures s[i].start < maxEnd ==> Greedy(s[i..], maxEnd) == Greedy(s[i + 1..], maxEnd)
    ensures s[i].start >= maxEnd ==>
            Greedy(s[i..], maxEnd) == [s[i]] + Greedy(s[i + 1..], if s[i].end > maxEnd then s[i].end else maxEnd)
  {
    DropDrop(s, i, 1);
  }

  lemma ResolveShort(ms: seq<Match>)
    requires |ms| <= 1
    ensures Resolve(ms) == ms
  {
    SortedUnchanged(MatchKey, ms);
    if ms != [] {
      assert Greedy(ms[1..], ms[0].end) == [] && ms == [ms[0]];
    }
  }

  method ResolveConflicts(ms: seq<Match>) returns (resolved: seq<Match>)
    ensures resolved == Resolve(ms)
  {
    if |ms| <= 1 {
      ResolveShort(ms);
      return ms;
    }
    hide SortOn, MatchKey, Greedy;
    var sorted := SortOn(MatchKey, ms);
    resolved := [];
    var maxEnd: int := -1;
    assert sorted[0..] == sorted;
    for i := 0 to |sorted|
      invariant resolved + Greedy(sorted[i..], maxEnd) == Greedy(sorted, -1)
    {
      var m := sorted[i];
      GreedyStep(sorted, i, maxEnd);
      Reassociate(resolved, [m], Greedy(sorted[i + 1..], if m.end > maxEnd then m.end else maxEnd));
      if m.start >= maxEnd {
        resolved := resolved + [m];
        if m.end > maxEnd {
          maxEnd := m.end;
        }
      }
    }
  }

  /** Ascending and pairwise disjoint. */
  ghost predicate Disjoint(s: seq<Match>) {
    forall i, j :: 0 <= i < j < |s| ==> s[i].end <= s[j].start
  }

  lemma {:induction false} GreedySound(s: seq<Match>, maxEnd: int)
    ensures forall o :: o in Greedy(s, maxEnd) ==> o in s && o.start >= maxEnd
    ensures Disjoint(Greedy(s, maxEnd))
  {
    if s != [] {
      if s[0].start < maxEnd {
        GreedySound(s[1..], maxEnd);
      } else {
        var e := if s[0].end > maxEnd then s[0].end else maxEnd;
        GreedySound(s[1..], e);
        var rest := Greedy(s[1..], e);
        forall j | 0 <= j < |rest|
          ensures s[0].end <= rest[j].start
        {
          assert rest[j] in rest;
        }
      }
    }
  }

  /** Every match that is dropped overlaps a kept one that precedes it in the order. */
  ghost predicate Beaten(m: Match, kept: seq<Match>) {
    exists o :: o in kept && KeyLe(MatchKey(o), MatchKey(m)) && m.start < o.end
  }

  lemma {:induction false} GreedyMaximal(s: seq<Match>, maxEnd: int, m: Match)
    requires SortedOn(MatchKey, s) && m in s && m.start >= maxEnd
    requires forall x :: x in s ==> x.start < x.end
    ensures Beaten(m, Greedy(s, maxEnd))
  {
    var h := s[0];
    KeyLeTotal(MatchKey(h), MatchKey(h));
    var i :| 0 <= i < |s| && s[i] == m;
    if h.start < maxEnd {
      assert s[1..][i - 1] == m;
      GreedyMaximal(s[1..], maxEnd, m);
    } else {
      var e := if h.end > maxEnd then h.end else maxEnd;
      if m.start < h.end {
        assert i == 0 || KeyLe(MatchKey(s[0]), MatchKey(s[i]));
        assert h in Greedy(s, maxEnd);
      } else {
        assert s[1..][i - 1] == m;
        GreedyMaximal(s[1..], e, m);
        var o :| o in Greedy(s[1..], e) && KeyLe(MatchKey(o), MatchKey(m)) && m.start < o.end;
        assert o in Greedy(s, maxEnd);
      }
    }
  }

  /** Leftmost-longest: kept matches are disjoint, and each dropped one lost to a kept one. */
  lemma ResolveSound(ms: seq<Match>)
    requires forall m :: m in ms ==> m.start < m.end
    ensures Disjoint(Resolve(ms))
    ensures forall o :: o in Resolve(ms) ==> o in ms
    ensures forall m :: m in ms ==> Beaten(m, Resolve(ms))
  {
    var s := SortOn(MatchKey, ms);
    SortOnSorts(MatchKey, ms);
    GreedySound(s, -1);
    SameElements(s, ms);
    forall m | m in ms
      ensures Beaten(m, Resolve(ms))
    {
      GreedyMaximal(s, -1, m);
    }
  }

  lemma SameElements<T>(a: seq<T>, b: seq<T>)
    requires multiset(a) == multiset(b)
    ensures forall x :: x in a <==> x in b
  {
    forall x
      ensures x in a <==> x in b
    {
      assert x in a <==> x in multiset(a);
      assert x in b <==> x in multiset(b);
    }
  }
}
