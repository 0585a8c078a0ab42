/** The compiled-rule registry: rules with two indexes that always agree with a linear scan. */
module RuleRegistry {
  import opened Text
  import opened Ordering
  import Utf8

  datatype Rule = Rule(id: string, dataType: int, regex: string)

  /** What compiling a rule depends on besides its ID: its regex, validators and masking settings. */
  type Compiler = Rule -> bool

  /** Bytes of the white-space character at the head of a text in UTF-8, or 0. */
  function SpaceLen(s: string): (n: nat)
    ensures n <= |s|
  {
    if s == "" then 0
    else if '\t' <= s[0] <= '\r' || s[0] == ' ' then 1
    else if |s| >= 2 && s[0] as int == 0xC2 && s[1] as int in {0x85, 0xA0} then 2
    else if |s| >= 3 && (s[0] as int, s[1] as int, s[2] as int) in WIDE_SPACES then 3
    else if |s| >= 3 && s[0] as int == 0xE2 && s[1] as int == 0x80 && 0x80 <= s[2] as int <= 0x8A then 3
    else 0
  }

  /** U+1680, the two separators, the narrow and mathematical spaces, and the ideographic space. */
  const WIDE_SPACES := {(0xE1, 0x9A, 0x80), (0xE2, 0x80, 0xA8), (0xE2, 0x80, 0xA9), (0xE2, 0x80, 0xAF), (0xE2, 0x81, 0x9F), (0xE3, 0x80, 0x80)}

  /** Nothing but white space. */
  predicate Blank(s: string)
    decreases |s|
  {
    s == "" || (SpaceLen(s) > 0 && Blank(s[SpaceLen(s)..]))
  }

  /** The code point of the character at the head of a text (section 3 of RFC 3629). */
  function CodePoint(s: string): int
    requires Utf8.RuneLen(s) > 0
  {
    match Utf8.RuneLen(s)
    case 1 => s[0] as int
    case 2 => (s[0] as int - 0xC0) * 0x40 + (s[1] as int - 0x80)
    case 3 => (s[0] as int - 0xE0) * 0x1000 + (s[1] as int - 0x80) * 0x40 + (s[2] as int - 0x80)
    case _ => (s[0] as int - 0xF0) * 0x4_0000 + (s[1] as int - 0x80) * 0x1000 + (s[2] as int - 0x80) * 0x40 + (s[3] as int - 0x80)
  }

  /** Unicode's White_Space property. */
  predicate WhiteSpace(c: int) {
    0x9 <= c <= 0xD || c == 0x20 || c == 0x85 || c == 0xA0 || c == 0x1680 || 0x2000 <= c <= 0x200A
    || c == 0x2028 || c == 0x2029 || c == 0x202F || c == 0x205F || c == 0x3000
  }

  function CodePoints(s: string): seq<int>
    requires Utf8.Valid(s)
    decreases |s|
  {
    if s == "" then [] else [CodePoint(s)] + CodePoints(s[Utf8.RuneLen(s)..])
  }

  lemma SpaceIsWhite(s: string)
    requires Utf8.RuneLen(s) > 0
    ensures SpaceLen(s) == if WhiteSpace(CodePoint(s)) then Utf8.RuneLen(s) else 0
  {
  }

  /** A blank text is one of white-space characters only. */
  lemma {:induction false} BlankIsWhite(s: string)
    requires Utf8.Valid(s)
    ensures Blank(s) <==> forall c :: c in CodePoints(s) ==> WhiteSpace(c)
    decreases |s|
  {
    hide SpaceLen, CodePoint, WhiteSpace, Utf8.RuneLen;
    if s != "" {
      SpaceIsWhite(s);
      BlankIsWhite(s[Utf8.RuneLen(s)..]);
    }
  }

  // ---- linear scans ----

  /** The positions of the rules of one data type, in order. */
  function IndicesOf(rules: seq<Rule>, dataType: int): (r: seq<nat>)
    ensures forall i :: 0 <= i < |r| ==> r[i] < |rules| && rules[r[i]].dataType == dataType
  {
    if rules == [] then [] else
      var before := IndicesOf(rules[..|rules| - 1], dataType);
      if rules[|rules| - 1].dataType == dataType then before + [|rules| - 1] else before
  }

  /** The rules of one data type, found by looking at every rule. */
  function OfType(rules: seq<Rule>, dataType: int): seq<Rule> {
    if rules == [] then [] else
      var before := OfType(rules[..|rules| - 1], dataType);
      if rules[|rules| - 1].dataType == dataType then before + [rules[|rules| - 1]] else before
  }

  /** The rule with an ID, found by looking at every rule. */
  function WithId(rules: seq<Rule>, id: string): Option<Rule> {
    if rules == [] then None
    else if rules[|rules| - 1].id == id then Some(rules[|rules| - 1])
    else WithId(rules[..|rules| - 1], id)
  }

  function AllWithIds(rules: seq<Rule>, ids: seq<string>): seq<Rule> {
    if ids == [] then [] else
      var before := AllWithIds(rules, ids[..|ids| - 1]);
      match WithId(rules, ids[|ids| - 1])
      case Some(r) => before + [r]
      case None => before
  }

  function AllOfTypes(rules: seq<Rule>, dataTypes: seq<int>): seq<Rule> {
    if dataTypes == [] then [] else AllOfTypes(rules, dataTypes[..|dataTypes| - 1]) + OfType(rules, dataTypes[|dataTypes| - 1])
  }

  function Ids(rules: seq<Rule>): (r: seq<string>)
    ensures |r| == |rules|
  {
    seq(|rules|, i requires 0 <= i < |rules| => rules[i].id)
  }

  function IdKey(id: string): Key {
    Key(0, 0, id)
  }

  ghost predicate DistinctIds(rules: seq<Rule>) {
    forall i, j :: 0 <= i < j < |rules| ==> rules[i].id != rules[j].id
  }

  lemma {:induction false} WithIdAt(rules: seq<Rule>, i: nat)
    requires DistinctIds(rules) && i < |rules|
    ensures WithId(rules, rules[i].id) == Some(rules[i])
  {
    if i < |rules| - 1 { WithIdAt(rules[..|rules| - 1], i); }
  }

  lemma {:induction false} WithIdNone(rules: seq<Rule>, id: string)
    requires forall i :: 0 <= i < |rules| ==> rules[i].id != id
    ensures WithId(rules, id) == None
  {
    if rules != [] { WithIdNone(rules[..|rules| - 1], id); }
  }

  lemma {:induction false} OfTypeAt(rules: seq<Rule>, dataType: int)
    ensures OfType(rules, dataType) == RulesAt(rules, IndicesOf(rules, dataType))
  {
    if rules != [] {
      var before := rules[..|rules| - 1];
      OfTypeAt(before, dataType);
      SameRulesAt(before, rules, IndicesOf(before, dataType));
    }
  }

  function RulesAt(rules: seq<Rule>, at: seq<nat>): (r: seq<Rule>)
    requires forall i :: 0 <= i < |at| ==> at[i] < |rules|
    ensures |r| == |at|
  {
    seq(|at|, i requires 0 <= i < |at| => rules[at[i]])
  }

  lemma SameRulesAt(before: seq<Rule>, rules: seq<Rule>, at: seq<nat>)
    requires before <= rules && forall i :: 0 <= i < |at| ==> at[i] < |before|
    ensures RulesAt(before, at) == RulesAt(rules, at)
  {
  }

  function IndicesFor(byDataType: map<int, seq<nat>>, dataType: int): seq<nat> {
    if dataType in byDataType then byDataType[dataType] else []
  }

  /** Both indexes say exactly what looking at every rule would. */
  ghost predicate Agree(rules: seq<Rule>, byDataType: map<int, seq<nat>>, byID: map<string, nat>) {
    && DistinctIds(rules)
    && (forall id :: id in byID ==> byID[id] < |rules| && rules[byID[id]].id == id)
    && (forall i :: 0 <= i < |rules| ==> rules[i].id in byID)
    && (forall dataType :: IndicesFor(byDataType, dataType) == IndicesOf(rules, dataType))
  }

  lemma IndicesAppend(rules: seq<Rule>, r: Rule, dataType: int)
    ensures IndicesOf(rules + [r], dataType)
            == if r.dataType == dataType then IndicesOf(rules, dataType) + [|rules|] else IndicesOf(rules, dataType)
  {
    assert (rules + [r])[..|rules|] == rules;
  }

  lemma AppendDistinct(rules: seq<Rule>, r: Rule)
    requires DistinctIds(rules) && forall i :: 0 <= i < |rules| ==> rules[i].id != r.id
    ensures DistinctIds(rules + [r])
  {
  }

  lemma AppendAgrees(rules: seq<Rule>, byDataType: map<int, seq<nat>>, byID: map<string, nat>, r: Rule)
    requires Agree(rules, byDataType, byID) && r.id !in byID
    ensures Agree(rules + [r], byDataType[r.dataType := IndicesFor(byDataType, r.dataType) + [|rules|]], byID[r.id := |rules|])
  {
    hide IndicesOf, DistinctIds;
    var all := rules + [r];
    assert forall i :: 0 <= i < |rules| ==> all[i] == rules[i];
    AppendDistinct(rules, r);
    forall dataType
      ensures IndicesFor(byDataType[r.dataType := IndicesFor(byDataType, r.dataType) + [|rules|]], dataType) == IndicesOf(all, dataType)
    {
      IndicesAppend(rules, r, dataType);
      assert IndicesFor(byDataType, dataType) == IndicesOf(rules, dataType);
    }
  }

  lemma TakenId(rules: seq<Rule>, byDataType: map<int, seq<nat>>, byID: map<string, nat>, id: string)
    requires Agree(rules, byDataType, byID)
    ensures id in byID <==> exists i :: 0 <= i < |rules| && rules[i].id == id
  {
  }

  class Registry {
    var rules: seq<Rule>
    var byDataType: map<int, seq<nat>>
    var byID: map<string, nat>

    /** Both indexes say exactly what looking at every rule would. */
    ghost predicate Valid()
      reads this
    {
      Agree(rules, byDataType, byID)
    }

    constructor ()
      ensures Valid() && rules == []
    {
      rules, byDataType, byID := [], map[], map[];
    }

    /** Refuses blank and taken IDs and rules that do not compile; otherwise appends. */
    method Add(compiles: Compiler, r: Rule) returns (ok: bool)
      requires Valid()
      modifies this
      ensures Valid()
      ensures ok == (!Blank(r.id) && compiles(r) && forall i :: 0 <= i < |old(rules)| ==> old(rules)[i].id != r.id)
      ensures rules == if ok then old(rules) + [r] else old(rules)
    {
      hide Agree;
      TakenId(rules, byDataType, byID, r.id);
      if Blank(r.id) || r.id in byID || !compiles(r) {
        return false;
      }
      AppendAgrees(rules, byDataType, byID, r);
      var idx := |rules|;
      rules := rules + [r];
      byDataType := byDataType[r.dataType := IndicesFor(byDataType, r.dataType) + [idx]];
      byID := byID[r.id := idx];
      return true;
    }

    method RulesByIds(ids: seq<string>) returns (found: seq<Rule>)
      requires Valid()
      ensures found == AllWithIds(rules, ids)
    {
      found := [];
      assert ids[..0] == [];
      for i := 0 to |ids|
        invariant found == AllWithIds(rules, ids[..i])
      {
        assert ids[..i + 1][..i] == ids[..i];
        if ids[i] in byID {
          WithIdAt(rules, byID[ids[i]]);
          found := found + [rules[byID[ids[i]]]];
        } else {
          WithIdNone(rules, ids[i]);
        }
      }
      assert ids[..|ids|] == ids;
    }

    method RulesByDataTypes(dataTypes: seq<int>) returns (found: seq<Rule>)
      requires Valid()
      ensures found == AllOfTypes(rules, dataTypes)
    {
      found := [];
      assert dataTypes[..0] == [];
      for i := 0 to |dataTypes|
        invariant found == AllOfTypes(rules, dataTypes[..i])
      {
        assert dataTypes[..i + 1][..i] == dataTypes[..i];
        OfTypeAt(rules, dataTypes[i]);
        found := found + RulesAt(rules, IndicesFor(byDataType, dataTypes[i]));
      }
      assert dataTypes[..|dataTypes|] == dataTypes;
    }

    /** The sorted rule IDs of the given data types. */
    method RuleIdsByDataTypes(dataTypes: seq<int>) returns (ids: seq<string>)
      requires Valid()
      ensures ids == SortOn(IdKey, Ids(AllOfTypes(rules, dataTypes)))
    {
      var found := RulesByDataTypes(dataTypes);
      ids := SortOn(IdKey, Ids(found));
    }

    /** IDs and rules resolved against one snapshot: no rule is dropped between the two lookups. */
    method ResolveForDataTypes(dataTypes: seq<int>) returns (ids: seq<string>, found: seq<Rule>)
      requires Valid()
      ensures ids == SortOn(IdKey, Ids(AllOfTypes(rules, dataTypes)))
      ensures Ids(found) == ids
      ensures multiset(found) == multiset(AllOfTypes(rules, dataTypes))
    {
      ids := RuleIdsByDataTypes(dataTypes);
      found := RulesByIds(ids);
      ResolvesAll(rules, AllOfTypes(rules, dataTypes), dataTypes, ids);
    }
  }

  /** Every ID of rules in the registry is looked up again, each to its rule. */
  lemma ResolvesAll(rules: seq<Rule>, wanted: seq<Rule>, dataTypes: seq<int>, ids: seq<string>)
    requires DistinctIds(rules) && wanted == AllOfTypes(rules, dataTypes) && ids == SortOn(IdKey, Ids(wanted))
    ensures Ids(AllWithIds(rules, ids)) == ids
    ensures multiset(AllWithIds(rules, ids)) == multiset(wanted)
  {
    TypesAreInside(rules, dataTypes);
    assert multiset(ids) == multiset(Ids(wanted));
    forall k | 0 <= k < |ids|
      ensures Known(rules, ids[k])
    {
      var id := ids[k];
      assert id in multiset(ids) && id in multiset(Ids(wanted)) && id in Ids(wanted);
      var i :| 0 <= i < |wanted| && Ids(wanted)[i] == id;
      assert wanted[i] in wanted;
      var j :| 0 <= j < |rules| && rules[j] == wanted[i];
    }
    FoundIds(rules, ids);
    SameRules(rules, AllWithIds(rules, ids), wanted);
  }

  lemma {:induction false} TypesAreInside(rules: seq<Rule>, dataTypes: seq<int>)
    ensures forall r :: r in AllOfTypes(rules, dataTypes) ==> r in rules
  {
    if dataTypes != [] {
      TypesAreInside(rules, dataTypes[..|dataTypes| - 1]);
      OfTypeInside(rules, dataTypes[|dataTypes| - 1]);
    }
  }

  lemma {:induction false} OfTypeInside(rules: seq<Rule>, dataType: int)
    ensures forall r :: r in OfType(rules, dataType) ==> r in rules
  {
    if rules != [] {
      OfTypeInside(rules[..|rules| - 1], dataType);
      assert forall r :: r in rules[..|rules| - 1] ==> r in rules;
    }
  }

  ghost predicate Known(rules: seq<Rule>, id: string) {
    exists i :: 0 <= i < |rules| && rules[i].id == id
  }

  lemma {:induction false} FoundIds(rules: seq<Rule>, ids: seq<string>)
    requires DistinctIds(rules) && forall k :: 0 <= k < |ids| ==> Known(rules, ids[k])
    ensures Ids(AllWithIds(rules, ids)) == ids
    ensures forall r :: r in AllWithIds(rules, ids) ==> r in rules
  {
    hide DistinctIds, WithId, Known;
    if ids != [] {
      var before, id := ids[..|ids| - 1], ids[|ids| - 1];
      FoundIds(rules, before);
      KnownIsFound(rules, id);
      assert Ids(AllWithIds(rules, before) + [WithId(rules, id).value]) == Ids(AllWithIds(rules, before)) + [id];
    }
  }

  lemma KnownIsFound(rules: seq<Rule>, id: string)
    requires DistinctIds(rules) && Known(rules, id)
    ensures var r := WithId(rules, id); r.Some? && r.value in rules && r.value.id == id
  {
    var i :| 0 <= i < |rules| && rules[i].id == id;
    WithIdAt(rules, i);
  }

  /** Lists of registry rules with the same bag of IDs are the same bag of rules. */
  lemma {:induction false} SameRules(rules: seq<Rule>, a: seq<Rule>, b: seq<Rule>)
    requires DistinctIds(rules) && (forall r :: r in a ==> r in rules) && (forall r :: r in b ==> r in rules)
    requires multiset(Ids(a)) == multiset(Ids(b))
    ensures multiset(a) == multiset(b)
  {
    forall r
      ensures multiset(a)[r] == multiset(b)[r]
    {
      CountById(rules, a, r);
      CountById(rules, b, r);
    }
  }

  lemma {:induction false} CountById(rules: seq<Rule>, a: seq<Rule>, r: Rule)
    requires DistinctIds(rules) && forall x :: x in a ==> x in rules
    ensures multiset(a)[r] == if r in rules then multiset(Ids(a))[r.id] else 0
  {
    if a != [] {
      var before, last := a[..|a| - 1], a[|a| - 1];
      CountById(rules, before, r);
      assert a == before + [last] && Ids(a) == Ids(before) + [last.id];
      assert last in a;
      if r in rules && last.id == r.id {
        var i :| 0 <= i < |rules| && rules[i] == r;
        var j :| 0 <= j < |rules| && rules[j] == last;
        assert i == j;
      }
    }
  }

  /** Compiles all rules into a fresh registry, or none at the first one refused. */
  method Build(compiles: Compiler, rules: seq<Rule>) returns (reg: Registry?)
    ensures reg != null <==>
              DistinctIds(rules) && forall i :: 0 <= i < |rules| ==> !Blank(rules[i].id) && compiles(rules[i])
    ensures reg != null ==> fresh(reg) && reg.Valid() && reg.rules == rules
  {
    hide Agree, DistinctIds, Blank;
    var built := new Registry();
    for i := 0 to |rules|
      invariant built.Valid() && fresh(built) && built.rules == rules[..i]
      invariant forall j :: 0 <= j < i ==> !Blank(rules[j].id) && compiles(rules[j])
    {
      var ok := built.Add(compiles, rules[i]);
      if !ok {
        RefusedAt(compiles, rules, i);
        return null;
      }
      assert rules[..i + 1] == rules[..i] + [rules[i]];
    }
    assert rules[..|rules|] == rules;
    RegistryDistinct(built);
    return built;
  }

  lemma RegistryDistinct(reg: Registry)
    requires reg.Valid()
    ensures DistinctIds(reg.rules)
  {
  }

  lemma RefusedAt(compiles: Compiler, rules: seq<Rule>, i: nat)
    requires i < |rules|
    requires !(!Blank(rules[i].id) && compiles(rules[i]) && forall j :: 0 <= j < |rules[..i]| ==> rules[..i][j].id != rules[i].id)
    ensures !(DistinctIds(rules) && forall j :: 0 <= j < |rules| ==> !Blank(rules[j].id) && compiles(rules[j]))
  {
  }
}
