/**
 Creating a custom rule: create-if-absent, clear a lingering disabled flag, reload, and report whether
 the rule is served; the store's failures are the caller's to choose.
 */
module RuleAdmin {
  import opened Text
  import opened RuleRegistry
  import opened RuleReload

  /** Which of the store's operations fail in one call. */
  datatype Faults = Faults(count: bool, create: bool, clear: bool, listRules: bool, listDisabled: bool, readBack: bool)

  datatype Outcome =
    | Created(rule: Rule, enabled: bool)
    | Invalid
    | AlreadyExists
    | CountFailed
    | TooManyRules
    | CreateFailed
    | ReloadFailed

  /** The checks that come before any write, in their order. */
  function Refusal(valid: bool, builtin: bool, taken: bool, maxCustom: int, stored: nat, faults: Faults): (o: Option<Outcome>)
    ensures o.Some? ==> !o.value.Created? && !o.value.ReloadFailed?
  {
    if !valid then Some(Invalid)
    else if builtin then Some(AlreadyExists)
    else if maxCustom > 0 && faults.count then Some(CountFailed)
    else if maxCustom > 0 && stored >= maxCustom then Some(TooManyRules)
    else if faults.create then Some(CreateFailed)
    else if taken then Some(AlreadyExists)
    else None
  }

  class Admin {
    const file: seq<Rule>
    const maxCustom: int
    var rules: Customs
    var disabled: set<string>
    /** The published snapshot. */
    var served: Registry

    ghost predicate Valid()
      reads this, served
    {
      (forall id :: id in rules ==> rules[id].id == id) && served.Valid()
    }

    /** The service starts with the built-in rules served. */
    constructor (file: seq<Rule>, maxCustom: int, initial: Registry)
      requires initial.Valid() && initial.rules == file
      ensures Valid() && served == initial && rules == map[] && disabled == {}
      ensures this.file == file && this.maxCustom == maxCustom
    {
      this.file, this.maxCustom := file, maxCustom;
      rules, disabled, served := map[], {}, initial;
    }

    /** Every stored rule once, in some order. */
    method ListRules() returns (custom: seq<Rule>)
      requires Valid()
      ensures Lists(custom, rules) && |custom| == |rules|
    {
      custom := [];
      var rest := rules.Keys;
      while rest != {}
        invariant rest <= rules.Keys && |custom| + |rest| == |rules.Keys|
        invariant forall r :: r in custom <==> r.id in rules && r.id !in rest && rules[r.id] == r
        decreases |rest|
      {
        var id :| id in rest;
        rest := rest - {id};
        custom := custom + [rules[id]];
      }
    }

    /** Without concurrent callers: all the reads see the store as it is. */
    method Reload(compiles: Compiler, faults: Faults) returns (ok: bool)
      requires Valid()
      modifies this`served
      ensures Valid()
      ensures !ok ==> served == old(served)
      ensures ok ==> fresh(served)
      ensures ok ==> !faults.listRules && !faults.listDisabled && Serves(served.rules, file, rules, disabled)
    {
      if faults.listRules {
        return false;
      }
      var custom := ListRules();
      if faults.listDisabled {
        return false;
      }
      var reg := Rebuild(compiles, file, custom, disabled);
      if reg == null {
        return false;
      }
      MergeServes(file, custom, rules, disabled);
      served := reg;
      return true;
    }

    /**
     Every refusal leaves store and snapshot alone. A created rule is stored and the snapshot is the
     store's; the reported state is the served one except when the flag was there and neither clearing
     it nor reading it back worked.
     */
    method Create(compiles: Compiler, valid: Rule -> bool, r: Rule, faults: Faults) returns (outcome: Outcome)
      requires Valid()
      modifies this
      ensures Valid()
      ensures var refusal := Refusal(valid(r), r.id in FileIds(file), r.id in old(rules), maxCustom, |old(rules)|, faults);
              if refusal.Some? then
                outcome == refusal.value && rules == old(rules) && disabled == old(disabled) && served == old(served)
              else
                && (outcome.Created? || outcome.ReloadFailed?)
                && rules == old(rules)[r.id := r]
                && disabled == (if faults.clear then old(disabled) else old(disabled) - {r.id})
      ensures outcome.ReloadFailed? ==> served == old(served)
      ensures outcome.Created? ==> outcome.rule == r && Serves(served.rules, file, rules, disabled)
      ensures outcome.Created? ==>
              ((outcome.enabled <==> r in served.rules) <==> !(faults.clear && faults.readBack && r.id in old(disabled)))
    {
      if !valid(r) {
        return Invalid;
      }
      if r.id in FileIds(file) {
        return AlreadyExists;
      }
      if maxCustom > 0 {
        if faults.count {
          return CountFailed;
        }
        var existing := ListRules();
        if |existing| >= maxCustom {
          return TooManyRules;
        }
      }
      if faults.create {
        return CreateFailed;
      }
      if r.id in rules {
        return AlreadyExists;
      }
      rules := rules[r.id := r];
      if !faults.clear {
        disabled := disabled - {r.id};
      }
      var ok := Reload(compiles, faults);
      if !ok {
        return ReloadFailed;
      }
      var enabled := faults.readBack || r.id !in disabled;
      return Created(r, enabled);
    }
  }
}
