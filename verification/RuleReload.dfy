/**
 The rule snapshot protocol: rule mutations, refresh ticks and a mutex-serialised rebuild-and-swap,
 interleaved in every possible way.
 */
module RuleReload {
  import opened Text
  import opened RuleRegistry

  // ---- the merge ----

  function FileIds(file: seq<Rule>): set<string> {
    set r | r in file :: r.id
  }

  /** Built-in rules that are not disabled. */
  function Enabled(file: seq<Rule>, disabled: set<string>): seq<Rule> {
    if file == [] then [] else
      var before, r := Enabled(file[..|file| - 1], disabled), file[|file| - 1];
      if r.id in disabled then before else before + [r]
  }

  /** Custom rules that neither shadow a built-in rule nor are disabled. */
  function Admitted(custom: seq<Rule>, builtin: set<string>, disabled: set<string>): seq<Rule> {
    if custom == [] then [] else
      var before, r := Admitted(custom[..|custom| - 1], builtin, disabled), custom[|custom| - 1];
      if r.id in builtin || r.id in disabled then before else before + [r]
  }

  function MergedRules(file: seq<Rule>, custom: seq<Rule>, disabled: set<string>): seq<Rule> {
    Enabled(file, disabled) + Admitted(custom, FileIds(file), disabled)
  }

  lemma {:induction false} EnabledIs(file: seq<Rule>, disabled: set<string>, r: Rule)
    ensures r in Enabled(file, disabled) <==> r in file && r.id !in disabled
  {
    if file != [] {
      EnabledIs(file[..|file| - 1], disabled, r);
      assert file == file[..|file| - 1] + [file[|file| - 1]];
    }
  }

  lemma {:induction false} AdmittedIs(custom: seq<Rule>, builtin: set<string>, disabled: set<string>, r: Rule)
    ensures r in Admitted(custom, builtin, disabled) <==> r in custom && r.id !in builtin && r.id !in disabled
  {
    if custom != [] {
      AdmittedIs(custom[..|custom| - 1], builtin, disabled, r);
      assert custom == custom[..|custom| - 1] + [custom[|custom| - 1]];
    }
  }

  /** A snapshot holds the non-disabled built-ins and the non-shadowing, non-disabled customs. */
  lemma MergedIs(file: seq<Rule>, custom: seq<Rule>, disabled: set<string>, r: Rule)
    ensures r in MergedRules(file, custom, disabled) <==>
            r.id !in disabled && (r in file || (r in custom && r.id !in FileIds(file)))
  {
    EnabledIs(file, disabled, r);
    AdmittedIs(custom, FileIds(file), disabled, r);
    assert r in file ==> r.id in FileIds(file);
  }

  /** The sequential body of a reload, the store's answers given: build first, swap only on success. */
  method Rebuild(compiles: Compiler, file: seq<Rule>, custom: seq<Rule>, disabled: set<string>) returns (reg: Registry?)
    ensures reg != null ==> fresh(reg) && reg.Valid() && reg.rules == MergedRules(file, custom, disabled)
  {
    var merged: seq<Rule> := [];
    assert file[..0] == [];
    for i := 0 to |file|
      invariant merged == Enabled(file[..i], disabled)
    {
      assert file[..i + 1][..i] == file[..i];
      if file[i].id in disabled {
        continue;
      }
      merged := merged + [file[i]];
    }
    assert file[..|file|] == file;
    ghost var builtins := merged;
    assert custom[..0] == [] && builtins + [] == builtins;
    for i := 0 to |custom|
      invariant merged == builtins + Admitted(custom[..i], FileIds(file), disabled)
    {
      assert custom[..i + 1][..i] == custom[..i];
      if custom[i].id in FileIds(file) {
        continue;
      }
      if custom[i].id in disabled {
        continue;
      }
      Reassociate(builtins, Admitted(custom[..i], FileIds(file), disabled), [custom[i]]);
      merged := merged + [custom[i]];
    }
    assert custom[..|custom|] == custom;
    reg := Build(compiles, merged);
  }

  // ---- the protocol ----

  /** Custom rules by ID. */
  type Customs = map<string, Rule>

  /** A reload that holds the mutex: how far the store had come then, and the versions it has read. */
  datatype Holder = Holder(rulesAtLock: nat, disabledAtLock: nat, rules: Option<nat>, disabled: Option<nat>)

  /** A published snapshot, and the store versions it was built from. */
  datatype Published = Published(rules: nat, disabled: nat, snapshot: seq<Rule>)

  /** Every version of the two parts of the store, the mutex, and every swap so far. */
  datatype World = World(
    file: seq<Rule>, rules: seq<Customs>, disabled: seq<set<string>>, mutex: Option<Holder>, swaps: seq<Published>)

  ghost predicate Init(w: World) {
    |w.rules| == 1 && |w.disabled| == 1 && w.mutex.None? && w.swaps == []
  }

  /** A listing enumerates the stored rules in some order. */
  ghost predicate Lists(custom: seq<Rule>, rules: Customs) {
    forall r :: r in custom <==> r.id in rules && rules[r.id] == r
  }

  datatype Step =
    | WriteRules(rules: Customs)
    | WriteDisabled(disabled: set<string>)
    | Lock
    | ReadRules
    | ReadDisabled
    | Swap(custom: seq<Rule>)
    | Fail

  /** One step of one of the concurrent mutations and refreshes. */
  ghost predicate Next(w: World, step: Step, n: World) {
    match step
    case WriteRules(rules) => n == w.(rules := w.rules + [rules])
    case WriteDisabled(disabled) => n == w.(disabled := w.disabled + [disabled])
    case Lock => w.mutex.None? && |w.rules| > 0 && |w.disabled| > 0
                 && n == w.(mutex := Some(Holder(|w.rules| - 1, |w.disabled| - 1, None, None)))
    case ReadRules => w.mutex.Some? && w.mutex.value.rules.None? && |w.rules| > 0
                      && n == w.(mutex := Some(w.mutex.value.(rules := Some(|w.rules| - 1))))
    case ReadDisabled => w.mutex.Some? && w.mutex.value.rules.Some? && w.mutex.value.disabled.None? && |w.disabled| > 0
                         && n == w.(mutex := Some(w.mutex.value.(disabled := Some(|w.disabled| - 1))))
    case Swap(custom) =>
      && w.mutex.Some? && w.mutex.value.rules.Some? && w.mutex.value.disabled.Some?
      && var (rv, dv) := (w.mutex.value.rules.value, w.mutex.value.disabled.value);
      && rv < |w.rules| && dv < |w.disabled| && Lists(custom, w.rules[rv])
      && n == w.(mutex := None, swaps := w.swaps + [Published(rv, dv, MergedRules(w.file, custom, w.disabled[dv]))])
    case Fail => w.mutex.Some? && n == w.(mutex := None)
  }

  /** What every reachable world keeps. */
  ghost predicate Inv(w: World) {
    && |w.rules| > 0 && |w.disabled| > 0
    && (forall k :: 0 <= k < |w.swaps| ==> w.swaps[k].rules < |w.rules| && w.swaps[k].disabled < |w.disabled| && Faithful(w, w.swaps[k]))
    && (forall j, k :: 0 <= j < k < |w.swaps| ==>
          w.swaps[j].rules <= w.swaps[k].rules && w.swaps[j].disabled <= w.swaps[k].disabled)
    && (w.mutex.Some? ==> Ahead(w, w.mutex.value))
  }

  /** A snapshot serves the built-in and the non-shadowing stored rules that are not disabled. */
  ghost predicate Serves(snapshot: seq<Rule>, file: seq<Rule>, rules: Customs, disabled: set<string>) {
    forall r :: r in snapshot <==>
      r.id !in disabled && (r in file || (r.id in rules && rules[r.id] == r && r.id !in FileIds(file)))
  }

  /** The snapshot is the merge of the versions it was built from. */
  ghost predicate Faithful(w: World, p: Published)
    requires p.rules < |w.rules| && p.disabled < |w.disabled|
  {
    Serves(p.snapshot, w.file, w.rules[p.rules], w.disabled[p.disabled])
  }

  /** The holder of the mutex reads nothing older than what was there when it locked, or swapped before. */
  ghost predicate Ahead(w: World, h: Holder) {
    && h.rulesAtLock < |w.rules| && h.disabledAtLock < |w.disabled|
    && (forall k :: 0 <= k < |w.swaps| ==> w.swaps[k].rules <= h.rulesAtLock && w.swaps[k].disabled <= h.disabledAtLock)
    && (h.rules.Some? ==> h.rulesAtLock <= h.rules.value < |w.rules|)
    && (h.disabled.Some? ==> h.disabledAtLock <= h.disabled.value < |w.disabled|)
  }

  lemma InitInv(w: World)
    requires Init(w)
    ensures Inv(w)
  {
  }

  lemma MergeServes(file: seq<Rule>, custom: seq<Rule>, rules: Customs, disabled: set<string>)
    requires Lists(custom, rules)
    ensures Serves(MergedRules(file, custom, disabled), file, rules, disabled)
  {
    hide MergedRules;
    forall r
      ensures r in MergedRules(file, custom, disabled) <==>
        r.id !in disabled && (r in file || (r.id in rules && rules[r.id] == r && r.id !in FileIds(file)))
    {
      MergedIs(file, custom, disabled, r);
    }
  }

  /** Every step keeps the invariant. */
  lemma StepKeepsInv(w: World, step: Step, n: World)
    requires Inv(w) && Next(w, step, n)
    ensures Inv(n)
  {
    hide MergedRules, FileIds;
    if step.Swap? {
      var h := w.mutex.value;
      MergeServes(w.file, step.custom, w.rules[h.rules.value], w.disabled[h.disabled.value]);
      var p := Published(h.rules.value, h.disabled.value, MergedRules(w.file, step.custom, w.disabled[h.disabled.value]));
      assert Faithful(n, p);
      forall k | 0 <= k < |w.swaps|
        ensures Faithful(n, n.swaps[k])
      {
        assert Faithful(w, w.swaps[k]);
      }
    } else {
      forall k | 0 <= k < |w.swaps|
        ensures Faithful(n, n.swaps[k])
      {
        assert Faithful(w, w.swaps[k]);
      }
    }
  }

  // ---- whole runs ----

  /** `run[i + 1]` follows from `run[i]` by `steps[i]`. */
  ghost predicate Run(run: seq<World>, steps: seq<Step>) {
    |run| == |steps| + 1 && Init(run[0]) && forall i :: 0 <= i < |steps| ==> Next(run[i], steps[i], run[i + 1])
  }

  lemma {:induction false} RunInv(run: seq<World>, steps: seq<Step>, i: nat)
    requires Run(run, steps) && i < |run|
    ensures Inv(run[i])
    decreases i
  {
    if i == 0 {
      InitInv(run[0]);
    } else {
      RunInv(run, steps, i - 1);
      StepKeepsInv(run[i - 1], steps[i - 1], run[i]);
    }
  }

  /** In every interleaving the store versions of successive swaps never go back. */
  lemma SnapshotsNeverGoBack(run: seq<World>, steps: seq<Step>, i: nat, j: nat, k: nat)
    requires Run(run, steps) && i < |run| && j <= k < |run[i].swaps|
    ensures run[i].swaps[j].rules <= run[i].swaps[k].rules && run[i].swaps[j].disabled <= run[i].swaps[k].disabled
  {
    RunInv(run, steps, i);
  }

  /** Histories only grow. */
  lemma {:induction false} HistoryGrows(run: seq<World>, steps: seq<Step>, i: nat, j: nat)
    requires Run(run, steps) && i <= j < |run|
    ensures run[i].rules <= run[j].rules && run[i].disabled <= run[j].disabled && run[i].swaps <= run[j].swaps
    ensures run[i].file == run[j].file
    decreases j
  {
    if i < j {
      HistoryGrows(run, steps, i, j - 1);
      assert Next(run[j - 1], steps[j - 1], run[j]);
    }
  }

  /** While one reload holds the mutex, its lock point stays what it was. */
  ghost predicate Holds(run: seq<World>, a: nat, b: nat, h: Holder)
    requires b < |run|
  {
    forall i :: a <= i <= b ==>
      run[i].mutex.Some? && run[i].mutex.value.rulesAtLock == h.rulesAtLock && run[i].mutex.value.disabledAtLock == h.disabledAtLock
  }

  /**
   A mutation is served: once a reload locked after the writes has swapped, the snapshot then and
   every later one is built from store versions that include the writes.
   */
  lemma MutationServed(run: seq<World>, steps: seq<Step>, a: nat, b: nat, j: nat, k: nat)
    requires Run(run, steps) && a < b < |steps|
    requires steps[a] == Lock && steps[b].Swap? && Holds(run, a + 1, b, run[a + 1].mutex.value)
    requires b < j < |run| && |run[b].swaps| <= k < |run[j].swaps|
    requires run[a + 1].mutex.Some?
    ensures run[j].swaps[k].rules >= |run[a].rules| - 1 && run[j].swaps[k].disabled >= |run[a].disabled| - 1
  {
    RunInv(run, steps, b);
    RunInv(run, steps, j);
    HistoryGrows(run, steps, b + 1, j);
    assert Next(run[a], steps[a], run[a + 1]) && Next(run[b], steps[b], run[b + 1]);
    var s := |run[b].swaps|;
    assert run[b].mutex.value.rulesAtLock == |run[a].rules| - 1;
    assert run[j].swaps[s] == run[b + 1].swaps[s];
  }

  /**
   A created rule stays served until superseded: if from some version on the store has the rule, and
   from some version on its ID is not disabled, then after a reload that locked behind both writes
   every snapshot holds the rule.
   */
  lemma CreatedRuleServed(run: seq<World>, steps: seq<Step>, a: nat, b: nat, j: nat, k: nat, r: Rule)
    requires Run(run, steps) && a < b < |steps|
    requires steps[a] == Lock && steps[b].Swap? && run[a + 1].mutex.Some? && Holds(run, a + 1, b, run[a + 1].mutex.value)
    requires b < j < |run| && |run[b].swaps| <= k < |run[j].swaps|
    requires r.id !in FileIds(run[0].file)
    requires forall v :: |run[a].rules| - 1 <= v < |run[j].rules| ==> r.id in run[j].rules[v] && run[j].rules[v][r.id] == r
    requires forall v :: |run[a].disabled| - 1 <= v < |run[j].disabled| ==> r.id !in run[j].disabled[v]
    ensures r in run[j].swaps[k].snapshot
  {
    MutationServed(run, steps, a, b, j, k);
    RunInv(run, steps, j);
    HistoryGrows(run, steps, 0, j);
    assert Faithful(run[j], run[j].swaps[k]);
  }

  /** Likewise a disabled rule is gone from every snapshot until it is enabled again. */
  lemma DisabledRuleGone(run: seq<World>, steps: seq<Step>, a: nat, b: nat, j: nat, k: nat, id: string)
    requires Run(run, steps) && a < b < |steps|
    requires steps[a] == Lock && steps[b].Swap? && run[a + 1].mutex.Some? && Holds(run, a + 1, b, run[a + 1].mutex.value)
    requires b < j < |run| && |run[b].swaps| <= k < |run[j].swaps|
    requires forall v :: |run[a].disabled| - 1 <= v < |run[j].disabled| ==> id in run[j].disabled[v]
    ensures forall r :: r in run[j].swaps[k].snapshot ==> r.id != id
  {
    MutationServed(run, steps, a, b, j, k);
    RunInv(run, steps, j);
    assert Faithful(run[j], run[j].swaps[k]);
  }
}
