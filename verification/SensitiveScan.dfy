/**
 The sensitive scanner's overlap resolution: overlapping matches are merged into one span so that no
 detected byte is left unmasked.
 */
module SensitiveScan {
  import opened Text
  import opened Ordering

  datatype Match = Match(
    ruleId: string, dataType: int, start: nat, end: nat, fullText: string, placeholder: string)

  function MatchKey(m: Match): Key {
    Key(m.start, m.end - m.start, m.ruleId)
  }

  predicate PreferAsPrimary(m: Match, cur: Match) {
    if m.end - m.start != cur.end - cur.start then m.end - m.start > cur.end - cur.start
    else if m.start != cur.start then m.start < cur.start
    else m.ruleId != cur.ruleId && StrLe(m.ruleId, cur.ruleId)
  }

  /** The constituent a merged span is attributed to. */
  function Primary(run: seq<Match>): (p: Match)
    requires run != []
    ensures p in run
  {
    if |run| == 1 then run[0] else
      var p := Primary(run[..|run| - 1]);
      if PreferAsPrimary(run[|run| - 1], p) then run[|run| - 1] else p
  }

  function Coalesced(text: string, start: nat, end: nat, run: seq<Match>): Match
    requires run != [] && start <= end <= |text|
  {
    if |run| == 1 then run[0] else
      var p := Primary(run);
      Match(p.ruleId, p.dataType, start, end, text[start..end], p.placeholder)
  }

  method Coalesce(text: string, start: nat, end: nat, run: seq<Match>) returns (m: Match)
    requires run != [] && start <= end <= |text|
    ensures m == Coalesced(text, start, end, run)
  {
    if |run| == 1 {
      return run[0];
    }
    var primary := run[0];
    assert run[..1] == [run[0]];
    for i := 1 to |run|
      invariant primary == Primary(run[..i])
    {
      TakeSnoc(run, i);
      assert run[..i + 1][..i] == run[..i];
      if PreferAsPrimary(run[i], primary) {
        primary := run[i];
      }
    }
    assert run[..|run|] == run;
    m := Match(primary.ruleId, primary.dataType, start, end, text[start..end], primary.placeholder);
  }

  predicate InText(text: string, ms: seq<Match>) {
    forall i :: 0 <= i < |ms| ==> ms[i].start < ms[i].end <= |text| && ms[i].fullText == text[ms[i].start..ms[i].end]
  }

  /** The sweep over start-sorted matches, with one open run. */
  function Sweep(text: string, start: nat, end: nat, run: seq<Match>, rest: seq<Match>): seq<Match>
    requires run != [] && start <= end <= |text| && InText(text, rest)
    decreases |rest|
  {
    if rest == [] then [Coalesced(text, start, end, run)]
    else
      var m := rest[0];
      if m.start < end then Sweep(text, start, if m.end > end then m.end else end, run + [m], rest[1..])
      else [Coalesced(text, start, end, run)] + Sweep(text, m.start, m.end, [m], rest[1..])
  }

  function Resolve(text: string, ms: seq<Match>): seq<Match>
    requires InText(text, ms)
  {
    if |ms| <= 1 then ms else
      var sorted := SortOn(MatchKey, ms);
      SortedInText(text, ms);
      Sweep(text, sorted[0].start, sorted[0].end, [sorted[0]], sorted[1..])
  }

  lemma SortedInText(text: string, ms: seq<Match>)
    requires InText(text, ms)
    ensures InText(text, SortOn(MatchKey, ms)) && |SortOn(MatchKey, ms)| == |ms|
  {
    var sorted := SortOn(MatchKey, ms);
    assert |multiset(sorted)| == |multiset(ms)|;
    forall i | 0 <= i < |sorted|
      ensures sorted[i] in ms
    {
      assert sorted[i] in multiset(sorted);
    }
  }

  method ResolveConflicts(text: string, ms: seq<Match>) returns (resolved: seq<Match>)
    requires InText(text, ms)
    ensures resolved == Resolve(text, ms)
  {
    if |ms| <= 1 {
      return ms;
    }
    SortedInText(text, ms);
    hide SortOn, Sweep, InText;
    var sorted := SortOn(MatchKey, ms);
    resolved := SweepRuns(text, sorted);
  }

  method SweepRuns(text: string, sorted: seq<Match>) returns (resolved: seq<Match>)
    requires sorted != [] && InText(text, sorted)
    ensures sorted[0].start <= sorted[0].end <= |text| && InText(text, sorted[1..])
    ensures resolved == Sweep(text, sorted[0].start, sorted[0].end, [sorted[0]], sorted[1..])
  {
    InTextTail(text, sorted);
    hide Coalesced, Sweep, InText;
    resolved := [];
    var runStart: nat, runEnd: nat, run := sorted[0].start, sorted[0].end, [sorted[0]];
    ghost var whole := Sweep(text, runStart, runEnd, run, sorted[1..]);
    assert [] + whole == whole;
    for i := 1 to |sorted|
      invariant run != [] && runStart <= runEnd <= |text| && InText(text, sorted[i..])
      invariant resolved + Sweep(text, runStart, runEnd, run, sorted[i..]) == whole
    {
      var m := sorted[i];
      SweepStep(text, runStart, runEnd, run, sorted, i);
      if m.start < runEnd {
        run := run + [m];
        if m.end > runEnd {
          runEnd := m.end;
        }
      } else {
        var merged := Coalesce(text, runStart, runEnd, run);
        Reassociate(resolved, [merged], Sweep(text, m.start, m.end, [m], sorted[i + 1..]));
        resolved := resolved + [merged];
        runStart, runEnd, run := m.start, m.end, [m];
      }
    }
    SweepEnd(text, runStart, runEnd, run, sorted);
    var merged := Coalesce(text, runStart, runEnd, run);
    resolved := resolved + [merged];
  }

  lemma SweepStep(text: string, start: nat, end: nat, run: seq<Match>, sorted: seq<Match>, i: nat)
    requires run != [] && start <= end <= |text| && i < |sorted| && InText(text, sorted[i..])
    ensures InText(text, sorted[i + 1..]) && sorted[i].start < sorted[i].end <= |text|
    ensures var m := sorted[i];
            Sweep(text, start, end, run, sorted[i..])
            == if m.start < end then Sweep(text, start, if m.end > end then m.end else end, run + [m], sorted[i + 1..])
               else [Coalesced(text, start, end, run)] + Sweep(text, m.start, m.end, [m], sorted[i + 1..])
  {
    DropDrop(sorted, i, 1);
    assert sorted[i..][0] == sorted[i];
    InTextTail(text, sorted[i..]);
  }

  lemma InTextTail(text: string, ms: seq<Match>)
    requires ms != [] && InText(text, ms)
    ensures ms[0].start < ms[0].end <= |text| && InText(text, ms[1..])
  {
  }

  lemma SweepEnd(text: string, start: nat, end: nat, run: seq<Match>, sorted: seq<Match>)
    requires run != [] && start <= end <= |text|
    ensures Sweep(text, start, end, run, sorted[|sorted|..]) == [Coalesced(text, start, end, run)]
  {
  }

  // ---- what the result is ----

  predicate Covers(m: Match, p: nat) {
    m.start <= p < m.end
  }

  /** Byte `p` lies in one of the matches. */
  predicate Covered(ms: seq<Match>, p: nat) {
    exists i :: 0 <= i < |ms| && Covers(ms[i], p)
  }

  predicate Disjoint(s: seq<Match>) {
    forall i, j :: 0 <= i < j < |s| ==> s[i].end <= s[j].start
  }

  /** The open run of the sweep: every byte of its span is covered, nothing sticks out. */
  ghost predicate Run(text: string, start: nat, end: nat, run: seq<Match>) {
    && run != [] && start < end <= |text| && InText(text, run)
    && (forall i :: 0 <= i < |run| ==> start <= run[i].start && run[i].end <= end)
    && (forall p: nat :: start <= p < end ==> Covered(run, p))
    && (|run| == 1 ==> run[0].start == start && run[0].end == end)
  }

  lemma CoveredAppend(a: seq<Match>, b: seq<Match>, p: nat)
    ensures Covered(a + b, p) <==> Covered(a, p) || Covered(b, p)
  {
    if Covered(a, p) {
      var i :| 0 <= i < |a| && Covers(a[i], p);
      assert (a + b)[i] == a[i];
    }
    if Covered(b, p) {
      var i :| 0 <= i < |b| && Covers(b[i], p);
      assert (a + b)[|a| + i] == b[i];
    }
  }

  lemma RunGrows(text: string, start: nat, end: nat, run: seq<Match>, m: Match)
    requires Run(text, start, end, run) && InText(text, [m]) && start <= m.start < end
    ensures Run(text, start, if m.end > end then m.end else end, run + [m])
  {
    assert [m][0] == m;
    forall p | start <= p < if m.end > end then m.end else end
      ensures Covered(run + [m], p)
    {
      CoveredAppend(run, [m], p);
      if p >= end { assert Covers([m][0], p); }
    }
  }

  lemma RunStarts(text: string, m: Match)
    requires InText(text, [m])
    ensures Run(text, m.start, m.end, [m])
  {
    assert [m][0] == m;
    forall p | m.start <= p < m.end
      ensures Covered([m], p)
    {
      assert Covers([m][0], p);
    }
  }

  lemma CoalescedSpan(text: string, start: nat, end: nat, run: seq<Match>)
    requires Run(text, start, end, run)
    ensures var c := Coalesced(text, start, end, run);
            c.start == start && c.end == end && c.fullText == text[start..end]
    ensures forall p :: Covered([Coalesced(text, start, end, run)], p) <==> Covered(run, p)
  {
    var c := Coalesced(text, start, end, run);
    forall p
      ensures Covered([c], p) <==> Covered(run, p)
    {
      assert Covered([c], p) <==> Covers([c][0], p);
    }
  }

  /** Merged spans are disjoint, carry their slice of the text and cover what the inputs cover. */
  ghost predicate Merged(text: string, ms: seq<Match>, out: seq<Match>) {
    && InText(text, out) && Disjoint(out)
    && forall p :: Covered(out, p) <==> Covered(ms, p)
  }

  lemma {:induction false} SweepMerges(text: string, start: nat, end: nat, run: seq<Match>, rest: seq<Match>)
    requires Run(text, start, end, run) && InText(text, rest) && SortedOn(MatchKey, rest)
    requires rest != [] ==> start <= rest[0].start
    ensures Merged(text, run + rest, Sweep(text, start, end, run, rest))
    ensures forall i :: 0 <= i < |Sweep(text, start, end, run, rest)| ==> Sweep(text, start, end, run, rest)[i].start >= start
    decreases |rest|
  {
    hide Run, Coalesced, Covered;
    if rest == [] {
      CoalescedSpan(text, start, end, run);
      RunSpan(text, start, end, run);
      assert run + rest == run;
    } else {
      var m := rest[0];
      HeadTail(rest);
      FirstIsLeast(rest);
      assert InText(text, [m]);
      if m.start < end {
        RunGrows(text, start, end, run, m);
        Reassociate(run, [m], rest[1..]);
        SweepMerges(text, start, if m.end > end then m.end else end, run + [m], rest[1..]);
      } else {
        RunStarts(text, m);
        SweepMerges(text, m.start, m.end, [m], rest[1..]);
        CoalescedSpan(text, start, end, run);
        RunSpan(text, start, end, run);
        MergedCons(text, run, rest, Coalesced(text, start, end, run), Sweep(text, m.start, m.end, [m], rest[1..]));
      }
    }
  }

  lemma RunSpan(text: string, start: nat, end: nat, run: seq<Match>)
    requires Run(text, start, end, run)
    ensures start < end <= |text| && run != []
  {
  }

  lemma FirstIsLeast(s: seq<Match>)
    requires s != [] && SortedOn(MatchKey, s)
    ensures SortedOn(MatchKey, s[1..])
    ensures |s| > 1 ==> s[0].start <= s[1].start
  {
    if |s| > 1 { assert KeyLe(MatchKey(s[0]), MatchKey(s[1])); }
  }

  lemma MergedCons(text: string, run: seq<Match>, rest: seq<Match>, c: Match, out: seq<Match>)
    requires Merged(text, rest, out) && InText(text, [c])
    requires forall p :: Covered([c], p) <==> Covered(run, p)
    requires forall i :: 0 <= i < |out| ==> out[i].start >= c.end
    ensures Merged(text, run + rest, [c] + out)
  {
    hide Covered;
    assert [c][0] == c;
    forall p
      ensures Covered([c] + out, p) <==> Covered(run + rest, p)
    {
      CoveredAppend([c], out, p);
      CoveredAppend(run, rest, p);
    }
  }

  /** Coalescing covers exactly: no matched byte is lost and no other byte is taken. */
  lemma ResolveMerges(text: string, ms: seq<Match>)
    requires InText(text, ms)
    ensures Merged(text, ms, Resolve(text, ms))
  {
    hide Covered, Sweep;
    if |ms| > 1 {
      SortedInText(text, ms);
      SortOnSorts(MatchKey, ms);
      SortedMerges(text, SortOn(MatchKey, ms));
      SameCoverage(SortOn(MatchKey, ms), ms);
    }
  }

  lemma SortedMerges(text: string, sorted: seq<Match>)
    requires sorted != [] && InText(text, sorted) && SortedOn(MatchKey, sorted)
    ensures InText(text, sorted[1..]) && sorted[0].start <= sorted[0].end <= |text|
    ensures Merged(text, sorted, Sweep(text, sorted[0].start, sorted[0].end, [sorted[0]], sorted[1..]))
  {
    hide Covered, Sweep, Merged, SortedOn;
    FirstIsLeast(sorted);
    InTextTail(text, sorted);
    HeadTail(sorted);
    assert [sorted[0]][0] == sorted[0];
    RunStarts(text, sorted[0]);
    SweepMerges(text, sorted[0].start, sorted[0].end, [sorted[0]], sorted[1..]);
  }

  lemma SameCoverage(a: seq<Match>, b: seq<Match>)
    requires multiset(a) == multiset(b)
    ensures forall p :: Covered(a, p) <==> Covered(b, p)
  {
    forall p
      ensures Covered(a, p) <==> Covered(b, p)
    {
      CoveredMonotone(a, b, p);
      CoveredMonotone(b, a, p);
    }
  }

  lemma CoveredMonotone(a: seq<Match>, b: seq<Match>, p: nat)
    requires multiset(a) == multiset(b)
    ensures Covered(a, p) ==> Covered(b, p)
  {
    if Covered(a, p) {
      var i :| 0 <= i < |a| && Covers(a[i], p);
      assert a[i] in multiset(b);
      var j :| 0 <= j < |b| && b[j] == a[i];
    }
  }

  // ---- attribution ----

  predicate Within(m: Match, o: Match) {
    o.start <= m.start && m.end <= o.end
  }

  /** `m` is longer than `x`, or as long and earlier, or in the same place with the smaller rule ID, or like it. */
  predicate Represents(m: Match, x: Match) {
    || x.end - x.start < m.end - m.start
    || (x.end - x.start == m.end - m.start && m.start < x.start)
    || (x.end - x.start == m.end - m.start && m.start == x.start && StrLe(m.ruleId, x.ruleId))
  }

  lemma PreferredRepresents(m: Match, cur: Match)
    ensures if PreferAsPrimary(m, cur) then Represents(m, cur) else Represents(cur, m)
    ensures Represents(m, m)
  {
    StrLeTotal(m.ruleId, cur.ruleId);
    StrLeTotal(m.ruleId, m.ruleId);
  }

  lemma RepresentsTransitive(a: Match, b: Match, c: Match)
    requires Represents(a, b) && Represents(b, c)
    ensures Represents(a, c)
  {
    if a.start == c.start && a.end == c.end { StrLeTransitive(a.ruleId, b.ruleId, c.ruleId); }
  }

  /** `o` is labelled after the longest input inside its span; of several the first, by place and then by rule ID. */
  ghost predicate Attributed(ms: seq<Match>, o: Match) {
    exists m :: m in ms && Within(m, o)
      && m.ruleId == o.ruleId && m.dataType == o.dataType && m.placeholder == o.placeholder
      && forall x :: x in ms && Within(x, o) ==> Represents(m, x)
  }

  lemma {:induction false} PrimaryRepresents(run: seq<Match>)
    requires run != []
    ensures forall x :: x in run ==> Represents(Primary(run), x)
  {
    hide Represents, PreferAsPrimary;
    var last := run[|run| - 1];
    if |run| == 1 {
      PreferredRepresents(last, last);
      assert forall x :: x in run ==> x == last;
    } else {
      var before := run[..|run| - 1];
      PrimaryRepresents(before);
      PreferredRepresents(last, Primary(before));
      assert run == before + [last];
      forall x | x in before
        ensures Represents(Primary(run), x)
      {
        if PreferAsPrimary(last, Primary(before)) { RepresentsTransitive(last, Primary(before), x); }
      }
    }
  }

  lemma LaterNotWithin(text: string, rest: seq<Match>, x: Match, c: Match)
    requires InText(text, rest) && forall y :: y in rest ==> y.start >= c.end
    ensures Within(x, c) ==> x !in rest
  {
  }

  lemma RunAttributed(text: string, start: nat, end: nat, run: seq<Match>, rest: seq<Match>)
    requires Run(text, start, end, run) && InText(text, rest)
    requires forall x :: x in rest ==> x.start >= end
    ensures Attributed(run + rest, Coalesced(text, start, end, run))
  {
    hide Covered, Represents;
    var c, p := Coalesced(text, start, end, run), Primary(run);
    PrimaryRepresents(run);
    CoalescedSpan(text, start, end, run);
    assert p in run + rest && Within(p, c);
    forall x | x in run + rest && Within(x, c)
      ensures Represents(p, x)
    {
      LaterNotWithin(text, rest, x, c);
      assert x in run;
    }
  }

  lemma AttributedLater(run: seq<Match>, rest: seq<Match>, o: Match)
    requires Attributed(rest, o)
    requires forall x :: x in run ==> x.start < x.end <= o.start
    ensures Attributed(run + rest, o)
  {
    var m :| m in rest && Within(m, o)
      && m.ruleId == o.ruleId && m.dataType == o.dataType && m.placeholder == o.placeholder
      && forall x :: x in rest && Within(x, o) ==> Represents(m, x);
    assert m in run + rest;
    forall x | x in run + rest && Within(x, o)
      ensures Represents(m, x)
    {
      assert x in run || x in rest;
    }
  }

  lemma StartsFrom(s: seq<Match>)
    requires SortedOn(MatchKey, s) && s != []
    ensures forall x :: x in s ==> x.start >= s[0].start
  {
    forall x | x in s
      ensures x.start >= s[0].start
    {
      var k :| 0 <= k < |s| && s[k] == x;
      assert k == 0 || KeyLe(MatchKey(s[0]), MatchKey(s[k]));
    }
  }

  lemma {:induction false} SweepAttributes(text: string, start: nat, end: nat, run: seq<Match>, rest: seq<Match>)
    requires Run(text, start, end, run) && InText(text, rest) && SortedOn(MatchKey, rest)
    requires rest != [] ==> start <= rest[0].start
    ensures forall o :: o in Sweep(text, start, end, run, rest) ==> Attributed(run + rest, o)
    decreases |rest|
  {
    hide Run, Coalesced, Attributed, Covered;
    if rest == [] {
      RunAttributed(text, start, end, run, rest);
    } else {
      var m := rest[0];
      HeadTail(rest);
      FirstIsLeast(rest);
      StartsFrom(rest);
      assert InText(text, [m]);
      if m.start < end {
        RunGrows(text, start, end, run, m);
        Reassociate(run, [m], rest[1..]);
        SweepAttributes(text, start, if m.end > end then m.end else end, run + [m], rest[1..]);
      } else {
        RunStarts(text, m);
        var later := Sweep(text, m.start, m.end, [m], rest[1..]);
        SweepAttributes(text, m.start, m.end, [m], rest[1..]);
        SweepMerges(text, m.start, m.end, [m], rest[1..]);
        RunAttributed(text, start, end, run, rest);
        RunInside(text, start, end, run);
        forall o | o in later
          ensures Attributed(run + rest, o)
        {
          AttributedLater(run, rest, o);
        }
      }
    }
  }

  lemma RunInside(text: string, start: nat, end: nat, run: seq<Match>)
    requires Run(text, start, end, run)
    ensures forall x :: x in run ==> x.start < x.end <= end
  {
    hide Covered;
  }

  /** Every merged span takes its labels from the longest match it swallowed. */
  lemma ResolveAttributes(text: string, ms: seq<Match>)
    requires InText(text, ms)
    ensures forall o :: o in Resolve(text, ms) ==> Attributed(ms, o)
  {
    hide Covered, Sweep, Attributed;
    if |ms| > 1 {
      var sorted := SortOn(MatchKey, ms);
      SortedInText(text, ms);
      SortOnSorts(MatchKey, ms);
      FirstIsLeast(sorted);
      InTextTail(text, sorted);
      HeadTail(sorted);
      assert [sorted[0]][0] == sorted[0];
      RunStarts(text, sorted[0]);
      SweepAttributes(text, sorted[0].start, sorted[0].end, [sorted[0]], sorted[1..]);
      forall o | Attributed(sorted, o)
        ensures Attributed(ms, o)
      {
        AttributedReorder(sorted, ms, o);
      }
    } else {
      forall o | o in ms
        ensures Attributed(ms, o)
      {
        AttributedAlone(ms, o);
      }
    }
  }

  lemma AttributedAlone(ms: seq<Match>, o: Match)
    requires |ms| == 1 && o in ms
    ensures Attributed(ms, o)
  {
    assert Within(o, o);
    PreferredRepresents(o, o);
  }

  lemma AttributedReorder(a: seq<Match>, b: seq<Match>, o: Match)
    requires multiset(a) == multiset(b) && Attributed(a, o)
    ensures Attributed(b, o)
  {
    var m :| m in a && Within(m, o)
      && m.ruleId == o.ruleId && m.dataType == o.dataType && m.placeholder == o.placeholder
      && forall x :: x in a && Within(x, o) ==> Represents(m, x);
    assert m in multiset(b);
    forall x | x in b
      ensures x in a
    {
      assert x in multiset(a);
    }
  }

  /** Which scan found what first does not matter. */
  lemma ResolveIgnoresOrder(text: string, a: seq<Match>, b: seq<Match>)
    requires InText(text, a) && multiset(a) == multiset(b) && KeyDetermines(MatchKey, multiset(a))
    ensures InText(text, b) && Resolve(text, a) == Resolve(text, b)
  {
    hide SortOn, Sweep;
    assert |multiset(a)| == |a| && |multiset(b)| == |b|;
    forall i | 0 <= i < |b|
      ensures b[i] in a
    {
      assert b[i] in multiset(a);
    }
    SortIgnoresOrder(MatchKey, a, b);
    if |a| == 1 {
      assert a[0] in multiset(b);
      assert a == [a[0]] && b == [b[0]];
    }
  }
}
