/**
 Scanning a text with a set of compiled rules: what one rule reports, the keyword pre-filter, and
 the choice between the sequential and the parallel scan.  None of these choices shows in the result.
 */
module SensitiveRules {
  import opened Text
  import opened Ordering
  import opened RegexTree
  import opened KeywordFilter
  import opened SensitiveScan
  import Fanout

  /**
   A compiled rule.  `locs` is the regex engine's search: for each match in a text the byte offsets
   of the match and of its capture groups, -1 for a group that did not take part.
   */
  datatype Rule = Rule(
    id: string, dataType: int, placeholder: string, groups: seq<nat>, minLength: int,
    locs: string -> seq<seq<int>>, valid: string -> bool, keywords: seq<string>)

  /** The case tables, and the runes of a text. */
  datatype Engine = Engine(u: Unicode, runes: string -> string)

  /** What the regex engine guarantees: in-bounds, disjoint matches from left to right, groups inside. */
  ghost predicate Search(text: string, locs: seq<seq<int>>) {
    && (forall i :: 0 <= i < |locs| ==> |locs[i]| >= 2 && 0 <= locs[i][0] <= locs[i][1] <= |text|)
    && (forall i, j :: 0 <= i < j < |locs| ==> locs[i][1] <= locs[j][0])
    && (forall i, g: nat :: 0 <= i < |locs| && 2 * g + 1 < |locs[i]| && locs[i][2 * g] >= 0 ==>
          locs[i][0] <= locs[i][2 * g] <= locs[i][2 * g + 1] <= locs[i][1])
  }

  /** The first capture group that took part with a non-empty span, or -1. */
  function FirstGroup(text: string, loc: seq<int>, groups: seq<nat>): (g: int)
    ensures g >= 0 ==> 2 * g + 1 < |loc| && 0 <= loc[2 * g] < loc[2 * g + 1] <= |text|
  {
    if groups == [] then -1
    else
      var g := groups[0];
      if 2 * g + 1 < |loc| && 0 <= loc[2 * g] < loc[2 * g + 1] <= |text| then g
      else FirstGroup(text, loc, groups[1..])
  }

  /** The span to replace: the whole match, or the first capture group that took part. */
  function SensitiveSpan(text: string, loc: seq<int>, r: Rule): (s: Option<(nat, nat)>)
    ensures s.Some? ==> s.value.0 < s.value.1 <= |text|
  {
    if |loc| < 2 || loc[0] < 0 || loc[1] < loc[0] || loc[1] > |text| then None
    else if r.groups == [] then if loc[0] < loc[1] then Some((loc[0], loc[1])) else None
    else
      var g := FirstGroup(text, loc, r.groups);
      if g < 0 then None else Some((loc[2 * g], loc[2 * g + 1]))
  }

  /** What the rule reports for one engine match. */
  function Report(text: string, loc: seq<int>, r: Rule): (m: Option<Match>)
    ensures m.Some? ==> InText(text, [m.value])
  {
    match SensitiveSpan(text, loc, r)
    case None => None
    case Some((start, end)) =>
      var value := text[start..end];
      if (r.minLength > 0 && |value| < r.minLength) || !r.valid(value) then None
      else Some(Match(r.id, r.dataType, start, end, value, r.placeholder))
  }

  function Reports(text: string, locs: seq<seq<int>>, r: Rule): (ms: seq<Match>)
    ensures InText(text, ms)
  {
    if locs == [] then [] else
      var before := Reports(text, locs[..|locs| - 1], r);
      match Report(text, locs[|locs| - 1], r)
      case None => before
      case Some(m) => before + [m]
  }

  function ScanRuleIn(text: string): Rule -> seq<Match> {
    (r: Rule) => Reports(text, r.locs(text), r)
  }

  method ScanRule(text: string, r: Rule) returns (ms: seq<Match>)
    ensures ms == ScanRuleIn(text)(r)
  {
    var locs := r.locs(text);
    ms := [];
    assert locs[..0] == [];
    for i := 0 to |locs|
      invariant ms == Reports(text, locs[..i], r)
    {
      assert locs[..i + 1][..i] == locs[..i];
      var m := Report(text, locs[i], r);
      if m.Some? {
        ms := ms + [m.value];
      }
    }
    assert locs[..|locs|] == locs;
  }

  // ---- what a rule reports ----

  /** Capture group `g` took part in the engine's match with at least one byte. */
  predicate TookPart(text: string, loc: seq<int>, g: nat) {
    2 * g + 1 < |loc| && 0 <= loc[2 * g] < loc[2 * g + 1] <= |text|
  }

  /** The sensitive part of a match: the first listed group that took part, or all of it if none is listed. */
  predicate Sensitive(text: string, loc: seq<int>, groups: seq<nat>, start: int, end: int)
    requires |loc| >= 2
  {
    if groups == [] then start == loc[0] && end == loc[1] && start < end
    else exists i :: 0 <= i < |groups| && TookPart(text, loc, groups[i])
                     && start == loc[2 * groups[i]] && end == loc[2 * groups[i] + 1]
                     && forall j :: 0 <= j < i ==> !TookPart(text, loc, groups[j])
  }

  /** The rule's match for one of the engine's: its sensitive part, long enough and valid, with the rule's labels. */
  predicate Reported(text: string, loc: seq<int>, r: Rule, m: Match)
    requires |loc| >= 2
  {
    && Sensitive(text, loc, r.groups, m.start, m.end) && m.end <= |text| && m.fullText == text[m.start..m.end]
    && |m.fullText| >= r.minLength && r.valid(m.fullText)
    && m.ruleId == r.id && m.dataType == r.dataType && m.placeholder == r.placeholder
  }

  lemma {:induction false} FirstGroupFound(text: string, loc: seq<int>, groups: seq<nat>) returns (i: nat)
    ensures var g := FirstGroup(text, loc, groups);
            if g < 0 then forall j :: 0 <= j < |groups| ==> !TookPart(text, loc, groups[j])
            else i < |groups| && groups[i] == g && TookPart(text, loc, g)
                 && forall j :: 0 <= j < i ==> !TookPart(text, loc, groups[j])
    decreases |groups|
  {
    i := 0;
    if groups != [] && !TookPart(text, loc, groups[0]) {
      i := FirstGroupFound(text, loc, groups[1..]);
      assert forall j :: 0 < j < |groups| ==> groups[j] == groups[1..][j - 1];
      i := i + 1;
    }
  }

  lemma FirstGroupIs(text: string, loc: seq<int>, groups: seq<nat>, start: int, end: int)
    requires |loc| >= 2 && groups != []
    ensures var g := FirstGroup(text, loc, groups);
            Sensitive(text, loc, groups, start, end) <==> g >= 0 && start == loc[2 * g] && end == loc[2 * g + 1]
  {
    hide FirstGroup;
    var i := FirstGroupFound(text, loc, groups);
  }

  /** An engine match is reported by its sensitive part, and not at all without one. */
  lemma ReportExactly(text: string, locs: seq<seq<int>>, i: nat, r: Rule, m: Match)
    requires Search(text, locs) && i < |locs|
    ensures Report(text, locs[i], r) == Some(m) <==> Reported(text, locs[i], r, m)
  {
    hide FirstGroup;
    if r.groups != [] {
      FirstGroupIs(text, locs[i], r.groups, m.start, m.end);
      var g := FirstGroup(text, locs[i], r.groups);
      if g >= 0 { FirstGroupIs(text, locs[i], r.groups, locs[i][2 * g], locs[i][2 * g + 1]); }
    }
  }

  /** A rule reports exactly the sensitive parts, long enough and valid, of the engine's matches. */
  lemma {:induction false} ReportsExactly(text: string, locs: seq<seq<int>>, r: Rule, m: Match)
    requires Search(text, locs)
    ensures m in Reports(text, locs, r) <==> exists i :: 0 <= i < |locs| && Reported(text, locs[i], r, m)
  {
    hide Report, Reported;
    if locs != [] {
      var before, n := locs[..|locs| - 1], |locs| - 1;
      SearchPrefix(text, locs);
      ReportsExactly(text, before, r, m);
      ReportExactly(text, locs, n, r, m);
      assert forall i :: 0 <= i < n ==> before[i] == locs[i];
    }
  }

  /** Byte `p` lies in the sensitive part of a match of one of the rules. */
  ghost predicate Sensed(text: string, rules: seq<Rule>, p: nat) {
    exists r, i, m :: r in rules && 0 <= i < |r.locs(text)| && |r.locs(text)[i]| >= 2
                      && Reported(text, r.locs(text)[i], r, m) && Covers(m, p)
  }

  /** The bytes a scan singles out are those in the sensitive part of a match of some rule. */
  lemma ScanCoversExactly(text: string, rules: seq<Rule>, p: nat)
    requires Snapshot(rules)
    ensures InText(text, Fanout.ScanAll(ScanRuleIn(text), rules))
    ensures Covered(Resolve(text, Fanout.ScanAll(ScanRuleIn(text), rules)), p) <==> Sensed(text, rules, p)
  {
    hide Reported, Resolve, Reports, Covers, Search;
    var all := Fanout.ScanAll(ScanRuleIn(text), rules);
    AllInText(text, rules);
    ResolveMerges(text, all);
    if Covered(all, p) {
      var x :| 0 <= x < |all| && Covers(all[x], p);
      assert all[x] in all;
      var r :| r in rules && all[x] in ScanRuleIn(text)(r);
      ReportsExactly(text, r.locs(text), r, all[x]);
      SearchPairs(text, r.locs(text));
    }
    if Sensed(text, rules, p) {
      var r, i, m :| r in rules && 0 <= i < |r.locs(text)| && |r.locs(text)[i]| >= 2
                     && Reported(text, r.locs(text)[i], r, m) && Covers(m, p);
      ReportsExactly(text, r.locs(text), r, m);
      ScanHasAll(text, rules, r, m);
    }
  }

  lemma SearchPairs(text: string, locs: seq<seq<int>>)
    requires Search(text, locs)
    ensures forall i :: 0 <= i < |locs| ==> |locs[i]| >= 2
  {
  }

  lemma {:induction false} ScanHasAll(text: string, rules: seq<Rule>, r: Rule, m: Match)
    requires r in rules && m in ScanRuleIn(text)(r)
    ensures m in Fanout.ScanAll(ScanRuleIn(text), rules)
  {
    hide ScanRuleIn;
    if r != rules[0] { ScanHasAll(text, rules[1..], r, m); }
  }

  // ---- one rule reports distinct spans ----

  /** A reported span lies inside its engine match. */
  lemma ReportInside(text: string, locs: seq<seq<int>>, i: nat, r: Rule)
    requires Search(text, locs) && i < |locs|
    ensures var m := Report(text, locs[i], r);
            m.Some? ==> locs[i][0] <= m.value.start < m.value.end <= locs[i][1] && m.value.ruleId == r.id
  {
  }

  /** All reports lie before the engine's next match, and equal spans are equal reports. */
  lemma {:induction false} ReportsApart(text: string, locs: seq<seq<int>>, r: Rule)
    requires Search(text, locs)
    ensures forall m :: m in Reports(text, locs, r) ==> locs != [] && m.end <= locs[|locs| - 1][1] && m.ruleId == r.id
    ensures forall m, o :: m in Reports(text, locs, r) && o in Reports(text, locs, r) && m.start == o.start ==> m == o
  {
    hide Report;
    if locs != [] {
      var before := locs[..|locs| - 1];
      SearchPrefix(text, locs);
      ReportsApart(text, before, r);
      ReportInside(text, locs, |locs| - 1, r);
      if before != [] {
        assert locs[|locs| - 2] == before[|before| - 1];
        assert locs[|locs| - 2][1] <= locs[|locs| - 1][0];
      }
    }
  }

  lemma SearchPrefix(text: string, locs: seq<seq<int>>)
    requires Search(text, locs) && locs != []
    ensures Search(text, locs[..|locs| - 1])
  {
  }

  /** Within a snapshot a rule ID names one rule, and every rule's search behaves. */
  ghost predicate Snapshot(rules: seq<Rule>) {
    && (forall r, s :: r in rules && s in rules && r.id == s.id ==> r == s)
    && (forall r, text :: r in rules ==> Search(text, r.locs(text)))
  }

  lemma {:induction false} AllInText(text: string, rules: seq<Rule>)
    ensures InText(text, Fanout.ScanAll(ScanRuleIn(text), rules))
    ensures forall m :: m in Fanout.ScanAll(ScanRuleIn(text), rules) ==>
              exists r :: r in rules && m in ScanRuleIn(text)(r)
  {
    if rules != [] {
      AllInText(text, rules[1..]);
      var first := ScanRuleIn(text)(rules[0]);
      assert first == Reports(text, rules[0].locs(text), rules[0]);
      assert forall m :: m in first ==> rules[0] in rules && m in ScanRuleIn(text)(rules[0]);
    }
  }

  /** The sort key tells all matches of a scan apart. */
  lemma KeyTellsMatches(text: string, rules: seq<Rule>)
    requires Snapshot(rules)
    ensures KeyDetermines(MatchKey, multiset(Fanout.ScanAll(ScanRuleIn(text), rules)))
  {
    hide InText, Reports;
    var all := Fanout.ScanAll(ScanRuleIn(text), rules);
    AllInText(text, rules);
    forall m, o | m in multiset(all) && o in multiset(all) && MatchKey(m) == MatchKey(o)
      ensures m == o
    {
      assert m in all && o in all;
      var r :| r in rules && m in ScanRuleIn(text)(r);
      var s :| s in rules && o in ScanRuleIn(text)(s);
      ReportsApart(text, r.locs(text), r);
      ReportsApart(text, s.locs(text), s);
    }
  }

  // ---- the pre-filter ----

  /** What compilation establishes: the regex finds nothing in a text without any of the keywords. */
  ghost predicate Filterable(e: Engine, r: Rule) {
    r.keywords != [] ==> forall text :: r.locs(text) != [] ==> ContainsAny(ToLower(e.u, e.runes(text)), r.keywords)
  }

  /** A rule whose engine matches are strings of its regex is filterable by its compiled keywords. */
  lemma CompiledIsFilterable(e: Engine, r: Rule, re: Regex, declared: seq<string>)
    requires r.keywords == PrefilterKeywords(e.u, re, declared)
    requires forall text :: r.locs(text) != [] ==>
               exists before: string, s: string, after: string :: e.runes(text) == before + s + after && Matches(e.u, re, s)
    ensures Filterable(e, r)
  {
    hide Guarantees, Matches, ContainsAny, ToLower, PrefilterKeywords;
    if r.keywords != [] {
      forall text | r.locs(text) != []
        ensures ContainsAny(ToLower(e.u, e.runes(text)), r.keywords)
      {
        var before: string, s: string, after: string :| e.runes(text) == before + s + after && Matches(e.u, re, s);
        MatchHasKeyword(e.u, re, declared, e.runes(text), before, s, after);
      }
    }
  }

  predicate Kept(e: Engine, text: string, r: Rule) {
    r.keywords == [] || ContainsAny(ToLower(e.u, e.runes(text)), r.keywords)
  }

  function Filtered(e: Engine, text: string, rules: seq<Rule>): (r: seq<Rule>) {
    if rules == [] then [] else
      var before := Filtered(e, text, rules[..|rules| - 1]);
      if Kept(e, text, rules[|rules| - 1]) then before + [rules[|rules| - 1]] else before
  }

  /** Lowers the text when the first eligible rule asks for it, once. */
  method FilterByKeywords(e: Engine, text: string, rules: seq<Rule>) returns (kept: seq<Rule>)
    ensures kept == Filtered(e, text, rules)
  {
    var lower: string, lowered := "", false;
    kept := [];
    assert rules[..0] == [];
    for i := 0 to |rules|
      invariant kept == Filtered(e, text, rules[..i])
      invariant lowered ==> lower == ToLower(e.u, e.runes(text))
    {
      var r := rules[i];
      assert rules[..i + 1][..i] == rules[..i];
      if r.keywords == [] {
        kept := kept + [r];
        continue;
      }
      if !lowered {
        lower := ToLower(e.u, e.runes(text));
        lowered := true;
      }
      if ContainsAny(lower, r.keywords) {
        kept := kept + [r];
      }
    }
    assert rules[..|rules|] == rules;
  }

  /** The filter keeps the rules without keywords and those with a keyword that stands in the lowered text. */
  lemma {:induction false} FilteredExactly(e: Engine, text: string, rules: seq<Rule>, r: Rule)
    ensures r in Filtered(e, text, rules)
            <==> r in rules && (r.keywords == [] || exists k :: k in r.keywords && Contains(ToLower(e.u, e.runes(text)), k))
  {
    hide ToLower, Contains;
    if rules != [] { FilteredExactly(e, text, rules[..|rules| - 1], r); }
  }

  /** Rules the filter drops would have found nothing. */
  lemma {:induction false} FilterKeepsMatches(e: Engine, text: string, rules: seq<Rule>)
    requires forall r :: r in rules ==> Filterable(e, r)
    ensures Fanout.ScanAll(ScanRuleIn(text), Filtered(e, text, rules)) == Fanout.ScanAll(ScanRuleIn(text), rules)
    ensures forall r :: r in Filtered(e, text, rules) ==> r in rules
  {
    hide Kept, Reports, ScanRuleIn;
    if rules != [] {
      var before, last := rules[..|rules| - 1], rules[|rules| - 1];
      FilterKeepsMatches(e, text, before);
      assert rules == before + [last];
      Fanout.ScanAllAppend(ScanRuleIn(text), before, [last]);
      Fanout.ScanAllAppend(ScanRuleIn(text), Filtered(e, text, before), [last]);
      OneRule(text, last);
      DroppedFindsNothing(e, text, last);
      assert Fanout.ScanAll(ScanRuleIn(text), before) + [] == Fanout.ScanAll(ScanRuleIn(text), before);
    }
  }

  lemma DroppedFindsNothing(e: Engine, text: string, r: Rule)
    requires Filterable(e, r)
    ensures Kept(e, text, r) || r.locs(text) == []
  {
    hide ContainsAny, ToLower;
  }

  lemma OneRule(text: string, r: Rule)
    ensures Fanout.ScanAll(ScanRuleIn(text), [r]) == ScanRuleIn(text)(r)
    ensures r.locs(text) == [] ==> ScanRuleIn(text)(r) == []
  {
    assert ScanRuleIn(text)(r) + [] == ScanRuleIn(text)(r);
    assert [r][1..] == [];
  }

  // ---- the whole scan ----

  const PARALLEL_TEXT_THRESHOLD := 4 * 1024
  const PARALLEL_RULE_THRESHOLD := 4

  /** Small texts or rule sets are scanned in sequence, others by a worker per processor. */
  method ScanAllRules(text: string, rules: seq<Rule>, cpus: nat) returns (ms: seq<Match>)
    requires cpus > 0
    ensures multiset(ms) == multiset(Fanout.ScanAll(ScanRuleIn(text), rules))
  {
    if |text| < PARALLEL_TEXT_THRESHOLD || |rules| <= PARALLEL_RULE_THRESHOLD {
      ms := [];
      assert rules[..0] == [];
      for i := 0 to |rules|
        invariant ms == Fanout.ScanAll(ScanRuleIn(text), rules[..i])
      {
        Fanout.ScanAllSnoc(ScanRuleIn(text), rules, i);
        var found := ScanRule(text, rules[i]);
        ms := ms + found;
      }
      assert rules[..|rules|] == rules;
    } else {
      ms := Fanout.ScanParallel(ScanRuleIn(text), rules, cpus);
    }
  }

  /**
   With the pre-filter on or off, in sequence or on any number of workers, the result is that of
   resolving the matches of all rules scanned one after another.
   */
  method ScanRules(e: Engine, text: string, rules: seq<Rule>, prefilter: bool, cpus: nat) returns (ms: seq<Match>)
    requires cpus > 0 && Snapshot(rules) && forall r :: r in rules ==> Filterable(e, r)
    ensures InText(text, Fanout.ScanAll(ScanRuleIn(text), rules))
    ensures ms == Resolve(text, Fanout.ScanAll(ScanRuleIn(text), rules))
  {
    hide *;
    AllInText(text, rules);
    ResolveNothing(text);
    if |rules| == 0 {
      NoRules(text, rules);
      return [];
    }
    var kept := rules;
    if prefilter {
      kept := FilterByKeywords(e, text, rules);
      FilterKeepsMatches(e, text, rules);
      if |kept| == 0 {
        NoRules(text, kept);
        return [];
      }
    }
    var found := ScanAllRules(text, kept, cpus);
    KeyTellsMatches(text, rules);
    ResolveIgnoresOrder(text, Fanout.ScanAll(ScanRuleIn(text), rules), found);
    ms := ResolveConflicts(text, found);
  }

  lemma NoRules(text: string, rules: seq<Rule>)
    requires |rules| == 0
    ensures Fanout.ScanAll(ScanRuleIn(text), rules) == []
  {
  }

  lemma ResolveNothing(text: string)
    ensures InText(text, []) && Resolve(text, []) == []
  {
  }
}
