/**
 Collapsing duplicate object keys: afterwards a reader that keeps the first occurrence of a key and
 one that keeps the last read the same document.
 */
module DupKeys {
  import opened Text

  /**
   A parsed document.  `layout` stands for how a container is written; the empty layout is the
   compact one.  Keys and scalars keep their raw text.
   */
  datatype Json =
    | Leaf(raw: string)
    | Arr(layout: string, items: seq<Json>)
    | Obj(layout: string, members: seq<Member>)
  datatype Member = Member(key: string, value: Json)

  const COMPACT := ""

  /** The decoded form of a raw key. */
  type Decoder = string -> string

  // ---- two readings of a document ----

  datatype Value = Atom(raw: string) | List(items: seq<Value>) | Record(fields: map<string, Value>)

  /** The reading that keeps the last occurrence of a key. */
  function LastWins(name: Decoder, v: Json): Value
    decreases v
  {
    match v
    case Leaf(raw) => Atom(raw)
    case Arr(_, items) => List(seq(|items|, i requires 0 <= i < |items| => LastWins(name, items[i])))
    case Obj(_, members) => Record(LastFields(name, members))
  }

  function LastFields(name: Decoder, ms: seq<Member>): map<string, Value>
    decreases ms
  {
    if ms == [] then map[] else
      var m := ms[|ms| - 1];
      LastFields(name, ms[..|ms| - 1])[name(m.key) := LastWins(name, m.value)]
  }

  /** The reading that keeps the first occurrence of a key. */
  function FirstWins(name: Decoder, v: Json): Value
    decreases v
  {
    match v
    case Leaf(raw) => Atom(raw)
    case Arr(_, items) => List(seq(|items|, i requires 0 <= i < |items| => FirstWins(name, items[i])))
    case Obj(_, members) => Record(FirstFields(name, members))
  }

  function FirstFields(name: Decoder, ms: seq<Member>): map<string, Value>
    decreases ms
  {
    if ms == [] then map[] else
      var m := ms[|ms| - 1];
      var before := FirstFields(name, ms[..|ms| - 1]);
      if name(m.key) in before then before else before[name(m.key) := FirstWins(name, m.value)]
  }

  /** The decoded keys in order. */
  function Names(name: Decoder, ms: seq<Member>): (r: seq<string>)
    ensures |r| == |ms|
  {
    seq(|ms|, i requires 0 <= i < |ms| => name(ms[i].key))
  }

  predicate Repeats(names: seq<string>) {
    exists i, j :: 0 <= i < j < |names| && names[i] == names[j]
  }

  /** Some object, at some depth, repeats a decoded key. */
  predicate HasDup(name: Decoder, v: Json)
    decreases v
  {
    match v
    case Leaf(_) => false
    case Arr(_, items) => exists i :: 0 <= i < |items| && HasDup(name, items[i])
    case Obj(_, members) =>
      Repeats(Names(name, members)) || exists i :: 0 <= i < |members| && HasDup(name, members[i].value)
  }

  // ---- the set of keys seen ----

  const SMALL_OBJECT := 16

  function Elements(s: seq<string>): set<string> {
    set k | k in s
  }

  /** A list while it is short, a set afterwards. */
  class KeySet {
    var list: seq<string>
    var large: Option<set<string>>

    ghost function Contents(): set<string>
      reads this
    {
      if large.Some? then large.value else Elements(list)
    }

    constructor ()
      ensures Contents() == {}
    {
      list, large := [], None;
    }

    /** Records a key and reports whether it was already there. */
    method Add(key: string) returns (present: bool)
      modifies this
      ensures present == (key in old(Contents()))
      ensures Contents() == old(Contents()) + {key}
    {
      if large.Some? {
        if key in large.value {
          return true;
        }
        large := Some(large.value + {key});
        return false;
      }
      for i := 0 to |list|
        invariant key !in list[..i]
      {
        if list[i] == key {
          assert key in list;
          return true;
        }
      }
      assert list[..|list|] == list;
      list := list + [key];
      if |list| > SMALL_OBJECT {
        var all: set<string> := {};
        for i := 0 to |list|
          invariant all == Elements(list[..i])
        {
          all := all + {list[i]};
        }
        assert list[..|list|] == list;
        large := Some(all);
      }
      return false;
    }
  }

  /** Stops at the first repeated key it meets. */
  method HasDuplicateKeys(name: Decoder, v: Json) returns (found: bool)
    ensures found == HasDup(name, v)
    decreases v, 1
  {
    match v
    case Leaf(_) => found := false;
    case Arr(_, items) =>
      for i := 0 to |items|
        invariant forall j :: 0 <= j < i ==> !HasDup(name, items[j])
      {
        found := HasDuplicateKeys(name, items[i]);
        if found {
          return;
        }
      }
      found := false;
    case Obj(layout, members) => found := DuplicateInObject(name, layout, members);
  }

  method DuplicateInObject(name: Decoder, layout: string, members: seq<Member>) returns (found: bool)
    ensures found == HasDup(name, Obj(layout, members))
    decreases Obj(layout, members), 0
  {
    hide Repeats;
    var keys := new KeySet();
    ghost var names := Names(name, members);
    NoNames(names);
    for i := 0 to |members|
      invariant forall j :: 0 <= j < i ==> !HasDup(name, members[j].value)
      invariant keys.Contents() == Elements(names[..i])
      invariant !Repeats(names[..i])
    {
      var repeated := keys.Add(name(members[i].key));
      AddedName(names, i, repeated);
      if repeated {
        return true;
      }
      found := HasDuplicateKeys(name, members[i].value);
      if found {
        return;
      }
    }
    assert names[..|members|] == names;
    found := false;
  }

  lemma NoNames(names: seq<string>)
    ensures !Repeats(names[..0])
  {
  }

  lemma SameName(names: seq<string>, i: nat, j: nat)
    requires i < j < |names| && names[i] == names[j]
    ensures Repeats(names)
  {
  }

  lemma AddedName(names: seq<string>, i: nat, repeated: bool)
    requires i < |names| && !Repeats(names[..i]) && repeated == (names[i] in names[..i])
    ensures repeated ==> Repeats(names)
    ensures !repeated ==> !Repeats(names[..i + 1])
    ensures Elements(names[..i + 1]) == Elements(names[..i]) + {names[i]}
  {
    assert names[..i + 1] == names[..i] + [names[i]];
    if repeated {
      var before := names[..i];
      var j :| 0 <= j < |before| && before[j] == names[i];
      SameName(names, j, i);
    } else {
      RepeatsSnoc(names[..i], names[i]);
    }
  }

  /** One more name repeats only if it repeats an earlier one. */
  lemma RepeatsSnoc(names: seq<string>, x: string)
    ensures Repeats(names + [x]) <==> Repeats(names) || x in names
  {
    var all := names + [x];
    if Repeats(all) {
      var i, j :| 0 <= i < j < |all| && all[i] == all[j];
      if j < |names| { SameName(names, i, j); } else { assert names[i] == x; }
    }
    if Repeats(names) {
      var i, j :| 0 <= i < j < |names| && names[i] == names[j];
      SameName(all, i, j);
    }
    if x in names {
      var i :| 0 <= i < |names| && names[i] == x;
      SameName(all, i, |names|);
    }
  }

  // ---- collapsing ----

  /** Where a decoded name stands, or -1. */
  function At(names: seq<string>, x: string): (i: int)
    ensures -1 <= i < |names| && (i >= 0 ==> names[i] == x) && (i == -1 ==> x !in names)
  {
    if names == [] then -1
    else if names[|names| - 1] == x then |names| - 1
    else At(names[..|names| - 1], x)
  }

  /** The members with each key where it first stood and its last value, and whether anything changed. */
  function Merged(name: Decoder, ms: seq<Member>): (r: (seq<Member>, bool))
    decreases ms, 0
  {
    if ms == [] then ([], false) else
      var (before, changed) := Merged(name, ms[..|ms| - 1]);
      var m := ms[|ms| - 1];
      var (value, valueChanged) := Collapsed(name, m.value);
      var i := At(Names(name, before), name(m.key));
      if i >= 0 then (before[i := Member(before[i].key, value)], true)
      else (before + [Member(m.key, value)], changed || valueChanged)
  }

  function CollapsedItems(name: Decoder, items: seq<Json>): (r: (seq<Json>, bool))
    decreases items, 0
  {
    if items == [] then ([], false) else
      var (before, changed) := CollapsedItems(name, items[..|items| - 1]);
      var (item, itemChanged) := Collapsed(name, items[|items| - 1]);
      (before + [item], changed || itemChanged)
  }

  /** The value without repeated keys, and whether that differs; an unchanged value keeps its layout. */
  function Collapsed(name: Decoder, v: Json): (r: (Json, bool))
    decreases v, 1
  {
    match v
    case Leaf(_) => (v, false)
    case Arr(layout, items) =>
      var (collapsed, changed) := CollapsedItems(name, items);
      if changed then (Arr(COMPACT, collapsed), true) else (v, false)
    case Obj(layout, members) =>
      var (merged, changed) := Merged(name, members);
      if changed then (Obj(COMPACT, merged), true) else (v, false)
  }

  method Collapse(name: Decoder, v: Json) returns (out: Json, changed: bool)
    ensures (out, changed) == Collapsed(name, v)
    decreases v, 1
  {
    match v
    case Leaf(_) => return v, false;
    case Arr(layout, items) =>
      var collapsed: seq<Json> := [];
      changed := false;
      assert items[..0] == [];
      for i := 0 to |items|
        invariant (collapsed, changed) == CollapsedItems(name, items[..i])
      {
        assert items[..i + 1][..i] == items[..i];
        var item, itemChanged := Collapse(name, items[i]);
        changed := changed || itemChanged;
        collapsed := collapsed + [item];
      }
      assert items[..|items|] == items;
      if !changed {
        return v, false;
      }
      return Arr(COMPACT, collapsed), true;
    case Obj(layout, members) =>
      var merged;
      merged, changed := MergeMembers(name, layout, members);
      if !changed {
        return v, false;
      }
      return Obj(COMPACT, merged), true;
  }

  /** One pass over the members, values of repeated keys overwritten in place. */
  method MergeMembers(name: Decoder, layout: string, ms: seq<Member>) returns (merged: seq<Member>, changed: bool)
    ensures (merged, changed) == Merged(name, ms)
    decreases Obj(layout, ms), 0
  {
    merged, changed := [], false;
    var at: map<string, nat> := map[];
    assert ms[..0] == [];
    for n := 0 to |ms|
      invariant (merged, changed) == Merged(name, ms[..n])
      invariant Positions(at, Names(name, merged))
    {
      assert ms[..n + 1][..n] == ms[..n];
      var m := ms[n];
      var value, valueChanged := Collapse(name, m.value);
      changed := changed || valueChanged;
      PositionIs(at, Names(name, merged), name(m.key));
      if name(m.key) in at {
        var i := at[name(m.key)];
        NamesKept(name, merged, i, value);
        merged := merged[i := Member(merged[i].key, value)];
        changed := true;
      } else {
        PositionsGrow(at, Names(name, merged), name(m.key));
        NamesSnoc(name, merged, Member(m.key, value));
        at := at[name(m.key) := |merged|];
        merged := merged + [Member(m.key, value)];
      }
    }
    assert ms[..|ms|] == ms;
  }

  /** The index map knows every name's one position. */
  ghost predicate Positions(at: map<string, nat>, names: seq<string>) {
    && !Repeats(names)
    && (forall k :: k in at ==> at[k] < |names| && names[at[k]] == k)
    && (forall i :: 0 <= i < |names| ==> names[i] in at)
  }

  lemma PositionIs(at: map<string, nat>, names: seq<string>, x: string)
    requires Positions(at, names)
    ensures x in at <==> At(names, x) >= 0
    ensures x in at ==> at[x] == At(names, x)
  {
    hide Repeats;
    if x in at {
      var i, j := at[x], At(names, x);
      if i < j { SameName(names, i, j); }
      if j < i && j >= 0 { SameName(names, j, i); }
    }
  }

  lemma PositionsGrow(at: map<string, nat>, names: seq<string>, x: string)
    requires Positions(at, names) && x !in at
    ensures Positions(at[x := |names|], names + [x])
  {
    hide Repeats;
    RepeatsSnoc(names, x);
  }

  lemma NamesKept(name: Decoder, ms: seq<Member>, i: nat, value: Json)
    requires i < |ms|
    ensures Names(name, ms[i := Member(ms[i].key, value)]) == Names(name, ms)
  {
  }

  lemma NamesSnoc(name: Decoder, ms: seq<Member>, m: Member)
    ensures Names(name, ms + [m]) == Names(name, ms) + [name(m.key)]
  {
  }

  // ---- meaning is kept ----

  lemma LastSnoc(name: Decoder, ms: seq<Member>, m: Member)
    ensures LastFields(name, ms + [m]) == LastFields(name, ms)[name(m.key) := LastWins(name, m.value)]
    ensures FirstFields(name, ms + [m])
            == if name(m.key) in FirstFields(name, ms) then FirstFields(name, ms)
               else FirstFields(name, ms)[name(m.key) := FirstWins(name, m.value)]
  {
    assert (ms + [m])[..|ms|] == ms;
  }

  /** The fields of either reading are named after the keys. */
  lemma {:induction false} FieldNames(name: Decoder, ms: seq<Member>, x: string)
    ensures x in LastFields(name, ms) <==> x in Names(name, ms)
    ensures x in FirstFields(name, ms) <==> x in Names(name, ms)
    decreases |ms|
  {
    hide LastWins, FirstWins;
    if ms != [] {
      var before, m := ms[..|ms| - 1], ms[|ms| - 1];
      FieldNames(name, before, x);
      assert ms == before + [m];
      NamesSnoc(name, before, m);
    }
  }

  /** Without repeated keys both readings give each key its one value. */
  lemma {:induction false} UniqueFields(name: Decoder, ms: seq<Member>, i: nat)
    requires !Repeats(Names(name, ms)) && i < |ms|
    ensures name(ms[i].key) in LastFields(name, ms) && LastFields(name, ms)[name(ms[i].key)] == LastWins(name, ms[i].value)
    ensures name(ms[i].key) in FirstFields(name, ms) && FirstFields(name, ms)[name(ms[i].key)] == FirstWins(name, ms[i].value)
    decreases |ms|
  {
    hide LastWins, FirstWins, Repeats;
    var before, m := ms[..|ms| - 1], ms[|ms| - 1];
    assert ms == before + [m];
    NamesSnoc(name, before, m);
    RepeatsSnoc(Names(name, before), name(m.key));
    FieldNames(name, before, name(m.key));
    if i < |before| {
      UniqueFields(name, before, i);
      assert before[i] == ms[i] && Names(name, before)[i] == name(ms[i].key);
    }
  }

  /** Overwriting one member of a repeat-free object overwrites one field. */
  lemma Overwritten(name: Decoder, ms: seq<Member>, i: nat, value: Json)
    requires !Repeats(Names(name, ms)) && i < |ms|
    ensures var after := ms[i := Member(ms[i].key, value)];
            && LastFields(name, after) == LastFields(name, ms)[name(ms[i].key) := LastWins(name, value)]
            && FirstFields(name, after) == FirstFields(name, ms)[name(ms[i].key) := FirstWins(name, value)]
  {
    hide LastWins, FirstWins, Repeats, LastFields, FirstFields;
    var after := ms[i := Member(ms[i].key, value)];
    NamesKept(name, ms, i, value);
    forall x
      ensures x in LastFields(name, after) <==> x in LastFields(name, ms)
      ensures x in FirstFields(name, after) <==> x in FirstFields(name, ms)
    {
      FieldNames(name, ms, x);
      FieldNames(name, after, x);
    }
    UniqueFields(name, ms, i);
    forall x | x in LastFields(name, after)
      ensures LastFields(name, after)[x] == LastFields(name, ms)[name(ms[i].key) := LastWins(name, value)][x]
      ensures x in FirstFields(name, after)
              && FirstFields(name, after)[x] == FirstFields(name, ms)[name(ms[i].key) := FirstWins(name, value)][x]
    {
      FieldNames(name, after, x);
      var j :| 0 <= j < |after| && Names(name, after)[j] == x;
      UniqueFields(name, after, j);
      UniqueFields(name, ms, j);
      if j < i { RepeatFree(Names(name, ms), j, i); }
      if i < j { RepeatFree(Names(name, ms), i, j); }
    }
    FieldSets(name, after);
  }

  lemma RepeatFree(names: seq<string>, i: nat, j: nat)
    requires !Repeats(names) && i < j < |names|
    ensures names[i] != names[j]
  {
  }

  lemma FieldSets(name: Decoder, ms: seq<Member>)
    ensures LastFields(name, ms).Keys == FirstFields(name, ms).Keys
  {
    forall x
      ensures x in LastFields(name, ms) <==> x in FirstFields(name, ms)
    {
      FieldNames(name, ms, x);
    }
  }

  /** What collapsing achieves for one value. */
  ghost predicate Sound(name: Decoder, v: Json) {
    var (c, changed) := Collapsed(name, v);
    && LastWins(name, c) == LastWins(name, v) && FirstWins(name, c) == LastWins(name, v)
    && !HasDup(name, c) && changed == HasDup(name, v) && (!changed ==> c == v)
  }

  ghost predicate SoundMembers(name: Decoder, ms: seq<Member>) {
    var (merged, changed) := Merged(name, ms);
    && LastFields(name, merged) == LastFields(name, ms) && FirstFields(name, merged) == LastFields(name, ms)
    && !Repeats(Names(name, merged)) && (forall i :: 0 <= i < |merged| ==> !HasDup(name, merged[i].value))
    && changed == (Repeats(Names(name, ms)) || exists i :: 0 <= i < |ms| && HasDup(name, ms[i].value))
    && (!changed ==> merged == ms)
    && (forall x :: x in Names(name, merged) <==> x in Names(name, ms))
  }

  ghost predicate SoundItems(name: Decoder, items: seq<Json>) {
    var (collapsed, changed) := CollapsedItems(name, items);
    && |collapsed| == |items|
    && (forall i :: 0 <= i < |items| ==>
          LastWins(name, collapsed[i]) == LastWins(name, items[i]) && FirstWins(name, collapsed[i]) == LastWins(name, items[i])
          && !HasDup(name, collapsed[i]))
    && changed == (exists i :: 0 <= i < |items| && HasDup(name, items[i]))
    && (!changed ==> collapsed == items)
  }

  lemma {:induction false} ItemsSound(name: Decoder, items: seq<Json>)
    ensures SoundItems(name, items)
    decreases items, 0
  {
    hide LastWins, FirstWins, HasDup, Collapsed;
    if items != [] {
      var before, last := items[..|items| - 1], items[|items| - 1];
      ItemsSound(name, before);
      CollapseSound(name, last);
      SoundMeans(name, last);
      assert items == before + [last];
      assert forall i :: 0 <= i < |before| ==> items[i] == before[i];
    }
  }

  lemma SoundMeans(name: Decoder, v: Json)
    requires Sound(name, v)
    ensures var (c, changed) := Collapsed(name, v);
            && LastWins(name, c) == LastWins(name, v) && FirstWins(name, c) == LastWins(name, v)
            && !HasDup(name, c) && changed == HasDup(name, v) && (!changed ==> c == v)
  {
  }

  lemma {:induction false} MembersSound(name: Decoder, ms: seq<Member>)
    ensures SoundMembers(name, ms)
    decreases ms, 0
  {
    hide *;
    if ms == [] {
      NoMembers(name);
    } else {
      var before, m := ms[..|ms| - 1], ms[|ms| - 1];
      MembersSound(name, before);
      CollapseSound(name, m.value);
      MemberStep(name, before, m);
      assert ms == before + [m];
    }
  }

  lemma NoMembers(name: Decoder)
    ensures SoundMembers(name, [])
  {
  }

  lemma {:induction false} CollapseSound(name: Decoder, v: Json)
    ensures Sound(name, v)
    decreases v, 1
  {
    match v
    case Leaf(_) =>
    case Arr(layout, items) => ItemsSound(name, items); ArraySound(name, layout, items);
    case Obj(layout, members) => MembersSound(name, members); ObjectSound(name, layout, members);
  }

  lemma ArraySound(name: Decoder, layout: string, items: seq<Json>)
    requires SoundItems(name, items)
    ensures Sound(name, Arr(layout, items))
  {
  }

  lemma ObjectSound(name: Decoder, layout: string, members: seq<Member>)
    requires SoundMembers(name, members)
    ensures Sound(name, Obj(layout, members))
  {
    hide LastFields, FirstFields, Repeats, Names;
  }

  /** How one more member is merged. */
  lemma MergedSnoc(name: Decoder, before: seq<Member>, m: Member)
    ensures var (merged, changed) := Merged(name, before);
            var (value, valueChanged) := Collapsed(name, m.value);
            var i := At(Names(name, merged), name(m.key));
            Merged(name, before + [m]) ==
              if i >= 0 then (merged[i := Member(merged[i].key, value)], true)
              else (merged + [Member(m.key, value)], changed || valueChanged)
  {
    assert (before + [m])[..|before|] == before;
  }

  lemma MemberStep(name: Decoder, before: seq<Member>, m: Member)
    requires SoundMembers(name, before) && Sound(name, m.value)
    ensures SoundMembers(name, before + [m])
  {
    hide *;
    MergedSnoc(name, before, m);
    if At(Names(name, Merged(name, before).0), name(m.key)) >= 0 {
      MemberReplaced(name, before, m);
    } else {
      MemberAdded(name, before, m);
    }
  }

  lemma SomeDup(name: Decoder, before: seq<Member>, m: Member)
    ensures (exists i :: 0 <= i < |before + [m]| && HasDup(name, (before + [m])[i].value))
            <==> (exists i :: 0 <= i < |before| && HasDup(name, before[i].value)) || HasDup(name, m.value)
  {
    var all := before + [m];
    if i :| 0 <= i < |before| && HasDup(name, before[i].value) { assert all[i] == before[i]; }
    if HasDup(name, m.value) { assert all[|before|] == m; }
  }

  lemma MemberReplaced(name: Decoder, before: seq<Member>, m: Member)
    requires SoundMembers(name, before) && Sound(name, m.value)
    requires At(Names(name, Merged(name, before).0), name(m.key)) >= 0
    ensures SoundMembers(name, before + [m])
  {
    hide LastWins, FirstWins, HasDup, Collapsed, Merged, Repeats, LastFields, FirstFields;
    var (merged, changed) := Merged(name, before);
    var value := Collapsed(name, m.value).0;
    var i := At(Names(name, merged), name(m.key));
    SoundMeans(name, m.value);
    MergedSnoc(name, before, m);
    LastSnoc(name, before, m);
    NamesSnoc(name, before, m);
    RepeatsSnoc(Names(name, before), name(m.key));
    SomeDup(name, before, m);
    Overwritten(name, merged, i, value);
    NamesKept(name, merged, i, value);
  }

  lemma MemberAdded(name: Decoder, before: seq<Member>, m: Member)
    requires SoundMembers(name, before) && Sound(name, m.value)
    requires At(Names(name, Merged(name, before).0), name(m.key)) == -1
    ensures SoundMembers(name, before + [m])
  {
    hide LastWins, FirstWins, HasDup, Collapsed, Merged, Repeats, LastFields, FirstFields;
    var (merged, changed) := Merged(name, before);
    var value := Collapsed(name, m.value).0;
    SoundMeans(name, m.value);
    MergedSnoc(name, before, m);
    LastSnoc(name, before, m);
    NamesSnoc(name, before, m);
    RepeatsSnoc(Names(name, before), name(m.key));
    SomeDup(name, before, m);
    LastSnoc(name, merged, Member(m.key, value));
    NamesSnoc(name, merged, Member(m.key, value));
    RepeatsSnoc(Names(name, merged), name(m.key));
    FieldNames(name, merged, name(m.key));
  }

  // ---- keys keep their places ----

  /** The raw keys of the members whose name did not occur before. */
  function FirstKeys(name: Decoder, ms: seq<Member>): seq<string> {
    if ms == [] then [] else
      var before, m := ms[..|ms| - 1], ms[|ms| - 1];
      if name(m.key) in Names(name, before) then FirstKeys(name, before) else FirstKeys(name, before) + [m.key]
  }

  function Keys(ms: seq<Member>): seq<string> {
    seq(|ms|, i requires 0 <= i < |ms| => ms[i].key)
  }

  /** Each key stays where, and as, it was first written. */
  lemma {:induction false} KeysKeepTheirPlaces(name: Decoder, ms: seq<Member>)
    ensures Keys(Merged(name, ms).0) == FirstKeys(name, ms)
  {
    hide Collapsed, Repeats;
    if ms != [] {
      var before, m := ms[..|ms| - 1], ms[|ms| - 1];
      KeysKeepTheirPlaces(name, before);
      MembersSound(name, before);
    }
  }

  // ---- the whole document ----

  /**
   Collapsing keeps the last-wins reading, and makes the first-wins reading agree with it; no object
   repeats a decoded key afterwards, and something changes exactly when some object did.
   */
  lemma CollapseKeepsMeaning(name: Decoder, v: Json)
    ensures var (c, changed) := Collapsed(name, v);
            && LastWins(name, c) == LastWins(name, v)
            && FirstWins(name, c) == LastWins(name, v)
            && !HasDup(name, c)
            && (changed <==> HasDup(name, v))
            && (!changed ==> c == v)
  {
    hide *;
    CollapseSound(name, v);
    SoundMeans(name, v);
  }

  /** A container is printed anew, compactly, exactly when a key repeats somewhere inside it. */
  lemma ReprintedExactly(name: Decoder, v: Json)
    requires !v.Leaf?
    ensures Collapsed(name, v).0.Arr? <==> v.Arr?
    ensures Collapsed(name, v).0.Obj? <==> v.Obj?
    ensures Collapsed(name, v).0.layout == if HasDup(name, v) then COMPACT else v.layout
  {
    hide HasDup, CollapsedItems, Merged;
    CollapseKeepsMeaning(name, v);
  }

  /** Collapsing twice is collapsing once. */
  lemma CollapseIdempotent(name: Decoder, v: Json)
    ensures Collapsed(name, Collapsed(name, v).0) == (Collapsed(name, v).0, false)
  {
    hide *;
    CollapseKeepsMeaning(name, v);
    CollapseKeepsMeaning(name, Collapsed(name, v).0);
  }

  /** A document collapsed only when it is an object or array, repeats a key, and is strictly valid. */
  method CollapseDuplicateKeys(name: Decoder, doc: Json, strict: bool) returns (out: Json, changed: bool)
    ensures LastWins(name, out) == LastWins(name, doc)
    ensures changed == (strict && HasDup(name, doc))
    ensures strict ==> FirstWins(name, out) == LastWins(name, out) && !HasDup(name, out)
    ensures !changed ==> out == doc
  {
    hide HasDup, LastWins, FirstWins, Collapsed;
    CollapseKeepsMeaning(name, doc);
    LeafHasNoDup(name, doc);
    if doc.Leaf? {
      return doc, false;
    }
    var found := HasDuplicateKeys(name, doc);
    if !found {
      return doc, false;
    }
    if !strict {
      return doc, false;
    }
    out, changed := Collapse(name, doc);
  }

  lemma LeafHasNoDup(name: Decoder, v: Json)
    ensures v.Leaf? ==> !HasDup(name, v) && FirstWins(name, v) == LastWins(name, v)
  {
  }
}
