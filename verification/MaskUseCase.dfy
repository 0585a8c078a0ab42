/** The masking use case: scan all texts, mask them in order through one masker. */
module MaskUseCase {
  import opened Text
  import opened AngleRewrite
  import opened Masking
  import opened Placeholder
  import opened RoundTrip
  import Demasking
  import DriftPass
  import Factory
  import Fanout
  import Scan = SensitiveScan

  datatype Outcome = Matches(ms: seq<Scan.Match>) | Failed

  type Scanner = string -> Outcome

  /** Index of the first failed scan, or the number of outcomes when none failed. */
  function FirstFailed(outcomes: seq<Outcome>): (k: nat)
    ensures k <= |outcomes|
    ensures forall i :: 0 <= i < k ==> outcomes[i].Matches?
    ensures k < |outcomes| ==> outcomes[k].Failed?
  {
    if outcomes == [] then 0
    else if outcomes[0].Failed? then 0
    else 1 + FirstFailed(outcomes[1..])
  }

  function ScanEach(scan: Scanner, texts: seq<string>): (r: seq<Outcome>)
    ensures |r| == |texts| && forall i :: 0 <= i < |r| ==> r[i] == scan(texts[i])
  {
    seq(|texts|, i requires 0 <= i < |texts| => scan(texts[i]))
  }

  const DEFAULT_PARALLEL_MIN_BYTES := 8 * 1024

  function TotalBytes(texts: seq<string>): nat {
    if texts == [] then 0 else TotalBytes(texts[..|texts| - 1]) + |texts[|texts| - 1]|
  }

  function Least(a: int, b: int): int {
    if a < b then a else b
  }

  /** The degree of concurrency for a request: forced, or all processors when the texts are large. */
  method ScanWorkers(texts: seq<string>, maxScanWorkers: int, parallelMinBytes: int, procs: nat) returns (workers: int)
    requires procs > 0
    ensures |texts| < 2 ==> workers == 1
    ensures |texts| >= 2 && maxScanWorkers > 0 ==> workers == Least(maxScanWorkers, |texts|)
    ensures |texts| >= 2 && maxScanWorkers <= 0 ==>
              var minBytes := if parallelMinBytes <= 0 then DEFAULT_PARALLEL_MIN_BYTES else parallelMinBytes;
              workers == if TotalBytes(texts) < minBytes then 1 else Least(procs, |texts|)
  {
    if |texts| < 2 {
      return 1;
    }
    if maxScanWorkers > 0 {
      return Least(maxScanWorkers, |texts|);
    }
    var minBytes := if parallelMinBytes <= 0 then DEFAULT_PARALLEL_MIN_BYTES else parallelMinBytes;
    var total := 0;
    for i := 0 to |texts|
      invariant total == TotalBytes(texts[..i])
    {
      total := total + |texts[i]|;
      assert texts[..i + 1][..i] == texts[..i];
    }
    assert texts[..|texts|] == texts;
    if total < minBytes {
      return 1;
    }
    return Least(procs, |texts|);
  }

  /** What both modes guarantee: slots agree with a full scan up to and including the first failure. */
  ghost predicate UpToFailure(scan: Scanner, texts: seq<string>, results: seq<Outcome>) {
    var k := FirstFailed(ScanEach(scan, texts));
    && |results| == |texts|
    && (forall i :: 0 <= i < |texts| && i <= k ==> results[i] == scan(texts[i]))
  }

  lemma {:induction false} SameFirstFailure(a: seq<Outcome>, b: seq<Outcome>)
    requires |a| == |b| && forall i :: 0 <= i < |a| && i <= FirstFailed(a) ==> b[i] == a[i]
    ensures FirstFailed(a) == FirstFailed(b)
  {
    if a != [] && a[0].Matches? {
      SameFirstFailure(a[1..], b[1..]);
    }
  }

  /**
   Sequentially, stopping at the first error, or concurrently with every worker writing its own
   slot in any order.
   */
  method ScanTexts(scan: Scanner, texts: seq<string>, workers: int) returns (results: seq<Outcome>)
    ensures UpToFailure(scan, texts, results)
    ensures FirstFailed(results) == FirstFailed(ScanEach(scan, texts))
    ensures FirstFailed(results) == |texts| ==> results == ScanEach(scan, texts)
  {
    var full := ScanEach(scan, texts);
    results := seq(|texts|, _ => Matches([]));
    if workers <= 1 {
      for i := 0 to |texts|
        invariant |results| == |texts|
        invariant forall j :: 0 <= j < i ==> results[j] == full[j] && full[j].Matches?
      {
        results := results[i := scan(texts[i])];
        if results[i].Failed? {
          FirstFailureIs(full, i);
          SameFirstFailure(full, results);
          return;
        }
      }
    } else {
      var running := Fanout.Slots(|texts|);
      while running != {}
        invariant |results| == |texts| && forall w :: w in running ==> w < |texts|
        invariant forall w :: 0 <= w < |texts| && w !in running ==> results[w] == full[w]
        decreases running
      {
        var w :| w in running;
        results := results[w := scan(texts[w])];
        running := running - {w};
      }
    }
    assert results == full;
  }

  lemma {:induction false} FirstFailureIs(outcomes: seq<Outcome>, k: nat)
    requires k < |outcomes| && outcomes[k].Failed? && forall i :: 0 <= i < k ==> outcomes[i].Matches?
    ensures FirstFailed(outcomes) == k
  {
    if k > 0 {
      FirstFailureIs(outcomes[1..], k - 1);
    }
  }

  datatype Response =
    | ScanError(index: nat)
    | Nothing
    | Masked(texts: seq<string>, reps: seq<Replacement>, rules: set<string>)

  /** All matches name types made of word characters. */
  ghost predicate WordNames(outcomes: seq<Outcome>) {
    forall i, m :: 0 <= i < |outcomes| && outcomes[i].Matches? && m in outcomes[i].ms ==> m.placeholder == "" || WordType(m.placeholder)
  }

  /** The exact pass gives every source text back, and no placeholder stands in a source text. */
  ghost predicate Faithful(texts: seq<string>, masked: seq<string>, reps: seq<Replacement>) {
    |masked| == |texts| && forall i :: 0 <= i < |texts| ==> Restored(texts[i], masked[i], reps)
  }

  ghost predicate Restored(text: string, masked: string, reps: seq<Replacement>) {
    && Rewrite(Demasking.Lookup(Factory.Originals(reps)), masked) == text
    && forall w :: w in Factory.Originals(reps) ==> LiteralShape(w) && !Occurs(w, text)
  }

  /** What became of one text. */
  datatype Trace = Trace(pieces: seq<Piece>, tail: string)

  /** The trace masks exactly the kept matches of the text, with recorded placeholders. */
  ghost predicate Explains(t: Trace, text: string, kept: seq<Scan.Match>, masked: string, recorded: map<string, string>) {
    && Source(t.pieces, t.tail) == text && Rendered(t.pieces, t.tail) == masked && Recorded(t.pieces, recorded)
    && Follows(text, kept, t.pieces) && t.tail == Between(text, End(kept), |text|)
  }

  /** The kept matches of one text. */
  function KeptOf(outcome: Outcome): seq<Scan.Match> {
    if outcome.Matches? then Kept(outcome.ms) else []
  }

  /** The first `n` texts are explained under the record. */
  ghost predicate AllExplained(traces: seq<Trace>, texts: seq<string>, results: seq<Outcome>, masked: seq<string>, n: nat,
                               recorded: map<string, string>)
  {
    n <= |texts| && n <= |results| && |masked| == |traces| == n
    && forall j :: 0 <= j < n ==> Explains(traces[j], texts[j], KeptOf(results[j]), masked[j], recorded)
  }

  lemma AllExplainedSnoc(
    traces: seq<Trace>, texts: seq<string>, results: seq<Outcome>, masked: seq<string>, n: nat,
    before: map<string, string>, after: map<string, string>, t: Trace, w: string)
    requires AllExplained(traces, texts, results, masked, n, before) && n < |texts| && n < |results| && Extends(before, after)
    requires Explains(t, texts[n], KeptOf(results[n]), w, after)
    ensures AllExplained(traces + [t], texts, results, masked + [w], n + 1, after)
  {
    hide Explains, Extends, KeptOf;
    forall j | 0 <= j < n
      ensures Explains(traces[j], texts[j], KeptOf(results[j]), masked[j], after)
    {
      ExplainsLater(traces[j], texts[j], KeptOf(results[j]), masked[j], before, after);
    }
  }

  lemma ExplainsLater(t: Trace, text: string, kept: seq<Scan.Match>, masked: string, a: map<string, string>, b: map<string, string>)
    requires Explains(t, text, kept, masked, a) && Extends(a, b)
    ensures Explains(t, text, kept, masked, b)
  {
    hide Source, Rendered, Follows;
  }

  /** The placeholder is listed for the original. */
  ghost predicate Pairs(reps: seq<Replacement>, o: string, w: string) {
    exists j :: 0 <= j < |reps| && reps[j].original == o && reps[j].placeholder == w
  }

  ghost predicate MasksBy(t: Trace, text: string, kept: seq<Scan.Match>, masked: string, reps: seq<Replacement>) {
    && Source(t.pieces, t.tail) == text && Rendered(t.pieces, t.tail) == masked
    && Follows(text, kept, t.pieces) && t.tail == Between(text, End(kept), |text|)
    && forall i :: 0 <= i < |t.pieces| ==> Pairs(reps, t.pieces[i].original, t.pieces[i].placeholder)
  }

  /** The masked text shows a listed placeholder for each kept match, and is otherwise the text. */
  ghost predicate MasksExactly(text: string, kept: seq<Scan.Match>, masked: string, reps: seq<Replacement>) {
    exists t: Trace :: MasksBy(t, text, kept, masked, reps)
  }

  ghost predicate AllMasked(texts: seq<string>, results: seq<Outcome>, masked: seq<string>, reps: seq<Replacement>) {
    |results| == |masked| == |texts|
    && forall i :: 0 <= i < |texts| ==> MasksExactly(texts[i], KeptOf(results[i]), masked[i], reps)
  }

  lemma ExplainedIsMasked(t: Trace, text: string, kept: seq<Scan.Match>, masked: string, recorded: map<string, string>,
                          reps: seq<Replacement>)
    requires Explains(t, text, kept, masked, recorded) && Masking.Listed(reps, recorded)
    ensures MasksExactly(text, kept, masked, reps)
  {
    hide Source, Rendered, Follows, Between, End;
    forall i | 0 <= i < |t.pieces|
      ensures Pairs(reps, t.pieces[i].original, t.pieces[i].placeholder)
    {
      assert Lists(reps, t.pieces[i].original);
    }
    assert MasksBy(t, text, kept, masked, reps);
  }

  /** The rules behind the kept matches of the first `n` texts. */
  function RulesUpTo(results: seq<Outcome>, n: nat): set<string>
    requires n <= |results|
  {
    if n == 0 then {} else RulesUpTo(results, n - 1) + RuleIds(KeptOf(results[n - 1]))
  }

  lemma {:induction false} NoRulesNothingKept(results: seq<Outcome>, n: nat)
    requires n <= |results|
    ensures RulesUpTo(results, n) == {} <==> forall i :: 0 <= i < n ==> KeptOf(results[i]) == []
  {
    hide KeptOf;
    if n > 0 {
      NoRulesNothingKept(results, n - 1);
      SomeRule(KeptOf(results[n - 1]));
    }
  }

  lemma SomeRule(ms: seq<Scan.Match>)
    ensures RuleIds(ms) == {} <==> ms == []
  {
    if ms != [] {
      assert ms[0] in ms && ms[0].ruleId in RuleIds(ms);
    }
  }

  /** However many workers scan, the outcome is that of one sequential pass. */
  method Handle(scan: Scanner, texts: seq<string>, maxScanWorkers: int, parallelMinBytes: int, procs: nat) returns (r: Response)
    requires procs > 0
    requires forall t :: scan(t).Matches? ==> Slices(t, scan(t).ms)
    ensures var k := FirstFailed(ScanEach(scan, texts));
            k < |texts| <==> r == ScanError(k)
    ensures r.ScanError? ==> r.index == FirstFailed(ScanEach(scan, texts))
    ensures r.Nothing? <==>
              FirstFailed(ScanEach(scan, texts)) == |texts| && forall i :: 0 <= i < |texts| ==> KeptOf(ScanEach(scan, texts)[i]) == []
    ensures r.Masked? ==> AllMasked(texts, ScanEach(scan, texts), r.texts, r.reps)
    ensures r.Masked? ==> r.rules == RulesUpTo(ScanEach(scan, texts), |texts|)
    ensures r.Masked? && WordNames(ScanEach(scan, texts)) ==> Faithful(texts, r.texts, r.reps)
  {
    hide KeptOf, AllMasked, Slices;
    var workers := ScanWorkers(texts, maxScanWorkers, parallelMinBytes, procs);
    var results := ScanTexts(scan, texts, workers);
    for i := 0 to |results|
      invariant i <= FirstFailed(results)
    {
      if results[i].Failed? {
        return ScanError(i);
      }
      FirstFailedBeyond(results, i);
    }
    r := MaskAll(texts, results);
  }

  lemma FirstFailedBeyond(outcomes: seq<Outcome>, i: nat)
    requires i < |outcomes| && i <= FirstFailed(outcomes) && outcomes[i].Matches?
    ensures i < FirstFailed(outcomes)
  {
  }

  method MaskAll(texts: seq<string>, results: seq<Outcome>) returns (r: Response)
    requires |results| == |texts|
    requires forall i :: 0 <= i < |texts| ==> results[i].Matches? && Slices(texts[i], results[i].ms)
    ensures r.Nothing? <==> forall i :: 0 <= i < |texts| ==> KeptOf(results[i]) == []
    ensures !r.Nothing? ==> r.Masked? && AllMasked(texts, results, r.texts, r.reps) && r.rules == RulesUpTo(results, |texts|)
    ensures r.Masked? && WordNames(results) ==> Faithful(texts, r.texts, r.reps)
  {
    hide *;
    var reserved := ReservedPlaceholders(texts);
    var m := new Masker(reserved);
    var maskedTexts: seq<string> := [];
    ghost var traces: seq<Trace> := [];
    NoneExplained(texts, results, m.originalToPlaceholder, m.Types());
    for i := 0 to |texts|
      invariant m.Valid() && fresh(m) && m.reserved == Reserved(texts)
      invariant AllExplained(traces, texts, results, maskedTexts, i, m.originalToPlaceholder)
      invariant m.seenRules == RulesUpTo(results, i) && (m.seenRules == {} ==> m.reps == [])
      invariant WordNames(results) ==> WordTypeSet(m.Types())
    {
      ghost var before, types := m.originalToPlaceholder, m.Types();
      var masked, pieces, tail := m.MaskText(texts[i], results[i].ms);
      Explained(Trace(pieces, tail), texts[i], results[i], masked, m.originalToPlaceholder);
      AllExplainedSnoc(traces, texts, results, maskedTexts, i, before, m.originalToPlaceholder, Trace(pieces, tail), masked);
      OneMoreText(results, i);
      WordNamesAt(results, i, types, m.Types());
      maskedTexts := maskedTexts + [masked];
      traces := traces + [Trace(pieces, tail)];
    }
    AllMaskedBy(m, texts, results, maskedTexts, traces);
    NoRulesNothingKept(results, |texts|);
    if m.seenRules == {} && m.reps == [] {
      return Nothing;
    }
    if WordNames(results) {
      MaskedFaithfully(m, texts, results, maskedTexts, traces);
    }
    return Masked(maskedTexts, m.reps, m.seenRules);
  }

  ghost predicate WordTypeSet(types: set<string>) {
    forall typ :: typ in types ==> WordType(typ)
  }

  lemma WordNamesAt(results: seq<Outcome>, i: nat, before: set<string>, after: set<string>)
    requires i < |results| && results[i].Matches? && after <= before + Names(results[i].ms)
    ensures WordNames(results) && WordTypeSet(before) ==> WordTypeSet(after)
  {
  }

  lemma NoneExplained(texts: seq<string>, results: seq<Outcome>, recorded: map<string, string>, types: set<string>)
    ensures AllExplained([], texts, results, [], 0, recorded) && RulesUpTo(results, 0) == {}
    ensures types == {} ==> WordTypeSet(types)
  {
  }

  lemma Explained(t: Trace, text: string, outcome: Outcome, masked: string, recorded: map<string, string>)
    requires outcome.Matches?
    requires Source(t.pieces, t.tail) == text && Rendered(t.pieces, t.tail) == masked && Recorded(t.pieces, recorded)
    requires Follows(text, Kept(outcome.ms), t.pieces) && t.tail == Between(text, End(Kept(outcome.ms)), |text|)
    ensures Explains(t, text, KeptOf(outcome), masked, recorded)
  {
  }

  lemma OneMoreText(results: seq<Outcome>, i: nat)
    requires i < |results| && results[i].Matches?
    ensures RulesUpTo(results, i + 1) == RulesUpTo(results, i) + RuleIds(Kept(results[i].ms))
    ensures RuleIds(Kept(results[i].ms)) == {} <==> Kept(results[i].ms) == []
  {
    SomeRule(Kept(results[i].ms));
  }

  lemma AllMaskedBy(m: Masker, texts: seq<string>, results: seq<Outcome>, masked: seq<string>, traces: seq<Trace>)
    requires m.Valid() && |results| == |texts|
    requires AllExplained(traces, texts, results, masked, |texts|, m.originalToPlaceholder)
    ensures AllMasked(texts, results, masked, m.reps)
  {
    hide Explains, Masking.Listed, Bijective, KeptOf, MasksExactly;
    forall i | 0 <= i < |texts|
      ensures MasksExactly(texts[i], KeptOf(results[i]), masked[i], m.reps)
    {
      ExplainedIsMasked(traces[i], texts[i], KeptOf(results[i]), masked[i], m.originalToPlaceholder, m.reps);
    }
  }

  lemma MaskedFaithfully(m: Masker, texts: seq<string>, results: seq<Outcome>, masked: seq<string>, traces: seq<Trace>)
    requires m.Valid() && m.reserved == Reserved(texts) && |results| == |texts|
    requires AllExplained(traces, texts, results, masked, |texts|, m.originalToPlaceholder)
    requires WordTypeSet(m.Types())
    ensures Faithful(texts, masked, m.reps)
  {
    hide Masking.Listed, Bijective, Source, Rendered, Recorded, WordType, Reserved, Rewrite, Factory.Originals, IsToken, Occurs;
    forall o | o in m.minted
      ensures WordType(m.minted[o].0)
    {
      assert m.minted[o].0 in m.Types();
    }
    forall i | 0 <= i < |texts|
      ensures Restored(texts[i], masked[i], m.reps)
    {
      assert Explains(traces[i], texts[i], KeptOf(results[i]), masked[i], m.originalToPlaceholder);
      ExactPassRestores(m.originalToPlaceholder, m.minted, m.placeholderCounters, m.reps, texts, i, traces[i].pieces, traces[i].tail);
    }
  }

  // ---- back through the demasker ----

  /** One-shot demasking restores a source the drift pass finds nothing in. */
  lemma OneShotRestores(v: Demasking.View, reps: seq<Replacement>, masked: string, text: string)
    requires v.Wf() && v.originals == Factory.Originals(reps) && Restored(text, masked, reps)
    requires Clean(DriftPass.Drift(v.rules, v.originals), text)
    ensures Demasking.OneShot(v, masked) == text
  {
    hide Rewrite, Clean;
    Demasking.ReplaceIsRewrite(v, masked);
    RewriteClean(DriftPass.Drift(v.rules, v.originals), text);
  }
}
