/**
 What the merged chat state says, told by the deltas in the order they arrived: the first role, the first
 non-blank ID, type and name, the last finish reason.
 */
module ChatArrivals {
  import opened Text
  import opened ChatMerge

  /** The first text that is not blank; blank if all are. */
  function FirstNonBlank(ss: seq<string>): string {
    if ss == [] then "" else
      var before := FirstNonBlank(ss[..|ss| - 1]);
      if before != "" then before else ss[|ss| - 1]
  }

  lemma {:induction false} FirstNonBlankIs(ss: seq<string>)
    ensures var r := FirstNonBlank(ss);
            if r == "" then forall i :: 0 <= i < |ss| ==> ss[i] == ""
            else exists i :: 0 <= i < |ss| && ss[i] == r && forall j :: 0 <= j < i ==> ss[j] == ""
  {
    if ss != [] {
      var before, n := ss[..|ss| - 1], |ss| - 1;
      FirstNonBlankIs(before);
      assert forall i :: 0 <= i < n ==> ss[i] == before[i];
      if FirstNonBlank(before) != "" {
        var i :| 0 <= i < n && before[i] == FirstNonBlank(before) && forall j :: 0 <= j < i ==> before[j] == "";
        assert ss[i] == before[i];
      } else if ss[n] != "" {
        assert ss[n] == FirstNonBlank(ss);
      }
    }
  }

  // ---- what arrived ----

  function DeltasOf(cs: seq<Choice>, index: int): seq<Choice> {
    if cs == [] then [] else
      var before, c := DeltasOf(cs[..|cs| - 1], index), cs[|cs| - 1];
      if c.index == index then before + [c] else before
  }

  /** The entries of one delta for a tool call. */
  function EntriesIn(ts: seq<Tool>, tool: int): seq<Tool> {
    if ts == [] then [] else
      var before, t := EntriesIn(ts[..|ts| - 1], tool), ts[|ts| - 1];
      if t.index == tool then before + [t] else before
  }

  /** The entries for a tool call that are merged: of a choice's first delta the first, of the others all. */
  function Entries(deltas: seq<Choice>, tool: int): seq<Tool> {
    if deltas == [] then [] else
      var before, here := deltas[..|deltas| - 1], EntriesIn(deltas[|deltas| - 1].tools, tool);
      if before == [] then FirstOf(here) else Entries(before, tool) + here
  }

  function FirstOf(here: seq<Tool>): seq<Tool> {
    if here == [] then [] else [here[0]]
  }

  function AllEntries(deltas: seq<Choice>, tool: int): seq<Tool> {
    if deltas == [] then [] else
      AllEntries(deltas[..|deltas| - 1], tool) + EntriesIn(deltas[|deltas| - 1].tools, tool)
  }

  function Ids(es: seq<Tool>): seq<string> {
    seq(|es|, i requires 0 <= i < |es| => es[i].id)
  }

  function Types(es: seq<Tool>): seq<string> {
    seq(|es|, i requires 0 <= i < |es| => es[i].typ)
  }

  function NameOf(fn: Option<Fn>): string {
    if fn.Some? then fn.value.name else ""
  }

  function Names(es: seq<Tool>): seq<string> {
    seq(|es|, i requires 0 <= i < |es| => NameOf(es[i].fn))
  }

  function CallNames(deltas: seq<Choice>): seq<string> {
    seq(|deltas|, i requires 0 <= i < |deltas| => NameOf(deltas[i].call))
  }

  // ---- what the merged state says of it ----

  predicate SomeFunction(es: seq<Tool>) {
    exists e :: e in es && e.fn.Some?
  }

  /** A merged tool call tells the first of everything its entries said. */
  predicate ToolTells(t: Tool, es: seq<Tool>) {
    && t.id == FirstNonBlank(Ids(es)) && t.typ == FirstNonBlank(Types(es))
    && (t.fn.Some? <==> SomeFunction(es)) && NameOf(t.fn) == FirstNonBlank(Names(es))
  }

  /** The merged calls have one for the tool exactly when it had entries. */
  predicate ToolsTell(ts: seq<Tool>, tool: int, es: seq<Tool>) {
    var j := FindTool(ts, tool);
    if es == [] then j == -1 else j != -1 && ToolTells(ts[j], es)
  }

  /** The first role any delta gave, if one did. */
  predicate FirstRole(role: Option<string>, deltas: seq<Choice>) {
    match role
    case None => forall c :: c in deltas ==> c.role.None?
    case Some(_) => exists i :: 0 <= i < |deltas| && deltas[i].role == role && forall j :: 0 <= j < i ==> deltas[j].role.None?
  }

  /** The last finish reason any delta gave, if one did. */
  predicate LastFinish(finish: string, deltas: seq<Choice>) {
    if finish == "" then forall c :: c in deltas ==> c.finish == ""
    else exists i :: 0 <= i < |deltas| && deltas[i].finish == finish && forall j :: i < j < |deltas| ==> deltas[j].finish == ""
  }

  predicate CallTells(call: Option<Fn>, deltas: seq<Choice>) {
    && (call.Some? <==> exists c :: c in deltas && c.call.Some?)
    && NameOf(call) == FirstNonBlank(CallNames(deltas))
  }

  ghost predicate ChoiceTells(c: Choice, deltas: seq<Choice>) {
    && FirstRole(c.role, deltas) && LastFinish(c.finish, deltas) && CallTells(c.call, deltas)
    && forall tool :: ToolsTell(c.tools, tool, Entries(deltas, tool))
  }

  /** A choice is in the merged state exactly when it had a delta. */
  ghost predicate ChoicesTell(merged: seq<Choice>, index: int, deltas: seq<Choice>) {
    var i := FindChoice(merged, index);
    if deltas == [] then i == -1 else i != -1 && ChoiceTells(merged[i], deltas)
  }

  // ---- one more entry ----

  lemma FirstSnoc(ss: seq<string>, s: string)
    ensures FirstNonBlank(ss + [s]) == if FirstNonBlank(ss) != "" then FirstNonBlank(ss) else s
  {
    assert (ss + [s])[..|ss|] == ss;
  }

  lemma EntrySnoc(es: seq<Tool>, e: Tool)
    ensures Ids(es + [e]) == Ids(es) + [e.id] && Types(es + [e]) == Types(es) + [e.typ]
    ensures Names(es + [e]) == Names(es) + [NameOf(e.fn)]
    ensures SomeFunction(es + [e]) <==> SomeFunction(es) || e.fn.Some?
  {
    assert forall x :: x in es + [e] <==> x in es || x == e;
  }

  lemma FirstEntryTells(e: Tool)
    ensures ToolTells(e, [e])
  {
    var none: seq<Tool> := [];
    assert none + [e] == [e];
    EntrySnoc(none, e);
    FirstSnoc([], e.id);
    FirstSnoc([], e.typ);
    FirstSnoc([], NameOf(e.fn));
    assert Ids(none) == [] && Types(none) == [] && Names(none) == [];
  }

  lemma NextEntryTells(t: Tool, es: seq<Tool>, e: Tool)
    requires ToolTells(t, es)
    ensures ToolTells(MergeTool(t, e), es + [e])
  {
    hide FirstNonBlank, Ids, Types, Names, SomeFunction;
    EntrySnoc(es, e);
    FirstSnoc(Ids(es), e.id);
    FirstSnoc(Types(es), e.typ);
    FirstSnoc(Names(es), NameOf(e.fn));
  }

  /** The calls after merging one entry into them. */
  function MergeEntry(ts: seq<Tool>, e: Tool): seq<Tool> {
    var i := FindTool(ts, e.index);
    if i == -1 then ts + [e] else ts[i := MergeTool(ts[i], e)]
  }

  lemma EntryMerged(ts: seq<Tool>, tool: int, es: seq<Tool>, e: Tool)
    requires ToolsTell(ts, tool, es)
    ensures ToolsTell(MergeEntry(ts, e), tool, if e.index == tool then es + [e] else es)
  {
    hide ToolTells, MergeTool;
    var j, i, after := FindTool(ts, tool), FindTool(ts, e.index), MergeEntry(ts, e);
    MergedKeepsIndex(ts, e);
    if e.index == tool {
      if j == -1 {
        FirstTool(after, tool, |ts|);
        FirstEntryTells(e);
        assert es + [e] == [e];
      } else {
        FirstTool(after, tool, j);
        NextEntryTells(ts[j], es, e);
      }
    } else if j != -1 {
      FirstTool(after, tool, j);
    }
  }

  lemma MergedKeepsIndex(ts: seq<Tool>, e: Tool)
    ensures |ts| <= |MergeEntry(ts, e)| && forall k :: 0 <= k < |ts| ==> MergeEntry(ts, e)[k].index == ts[k].index
  {
  }

  lemma {:induction false} EntriesMerged(ts: seq<Tool>, arriving: seq<Tool>, tool: int, es: seq<Tool>)
    requires ToolsTell(ts, tool, es)
    ensures ToolsTell(MergeTools(ts, arriving), tool, es + EntriesIn(arriving, tool))
  {
    hide ToolsTell, MergeTool;
    if arriving == [] {
      assert es + EntriesIn(arriving, tool) == es;
    } else {
      var before, e := arriving[..|arriving| - 1], arriving[|arriving| - 1];
      EntriesMerged(ts, before, tool, es);
      EntryMerged(MergeTools(ts, before), tool, es + EntriesIn(before, tool), e);
      Reassociate(es, EntriesIn(before, tool), [e]);
    }
  }

  /** A tool call of a choice's first delta is looked up by its first entry there. */
  lemma FirstDelta(ts: seq<Tool>, tool: int)
    ensures ToolsTell(ts, tool, FirstOf(EntriesIn(ts, tool)))
  {
    hide ToolTells;
    FirstIsFound(ts, tool);
    if EntriesIn(ts, tool) != [] { FirstEntryTells(EntriesIn(ts, tool)[0]); }
  }

  lemma {:induction false} FirstIsFound(ts: seq<Tool>, tool: int)
    ensures var (here, j) := (EntriesIn(ts, tool), FindTool(ts, tool));
            if here == [] then j == -1 else j != -1 && ts[j] == here[0]
  {
    hide FindTool;
    if ts != [] {
      var before := ts[..|ts| - 1];
      FirstIsFound(before, tool);
      FoundInFront(before, ts[|ts| - 1], tool);
      assert ts == before + [ts[|ts| - 1]];
    }
  }

  lemma FoundInFront(ts: seq<Tool>, t: Tool, tool: int)
    ensures FindTool(ts + [t], tool)
            == if FindTool(ts, tool) != -1 then FindTool(ts, tool) else if t.index == tool then |ts| else -1
  {
    hide FindTool;
    var all, j := ts + [t], FindTool(ts, tool);
    assert all[|ts|] == t && forall k :: 0 <= k < |ts| ==> all[k] == ts[k];
    if j != -1 {
      FirstTool(all, tool, j);
    } else if t.index == tool {
      FirstTool(all, tool, |ts|);
    }
  }

  // ---- one more delta ----

  lemma RoleMerged(role: Option<string>, deltas: seq<Choice>, c: Choice)
    requires FirstRole(role, deltas)
    ensures FirstRole(if role.None? then c.role else role, deltas + [c])
  {
    var all := deltas + [c];
    assert forall i :: 0 <= i < |deltas| ==> all[i] == deltas[i];
    assert all[|deltas|] == c;
  }

  lemma FinishMerged(finish: string, deltas: seq<Choice>, c: Choice)
    requires LastFinish(finish, deltas)
    ensures LastFinish(if c.finish != "" then c.finish else finish, deltas + [c])
  {
    var all := deltas + [c];
    assert forall i :: 0 <= i < |deltas| ==> all[i] == deltas[i];
    assert all[|deltas|] == c;
  }

  lemma CallMerged(call: Option<Fn>, deltas: seq<Choice>, c: Choice)
    requires CallTells(call, deltas)
    ensures CallTells(MergeFn(call, c.call), deltas + [c])
  {
    hide FirstNonBlank;
    assert CallNames(deltas + [c]) == CallNames(deltas) + [NameOf(c.call)];
    FirstSnoc(CallNames(deltas), NameOf(c.call));
    assert forall x :: x in deltas + [c] <==> x in deltas || x == c;
  }

  lemma NothingSaid()
    ensures FirstRole(None, []) && LastFinish("", []) && CallTells(None, [])
  {
    assert CallNames([]) == [];
  }

  /** A choice that is new to the merged state. */
  lemma NewChoiceTells(c: Choice)
    ensures ChoiceTells(c.(content := "", reasoning := ""), [c])
  {
    hide FirstRole, LastFinish, CallTells, ToolsTell, Entries, EntriesIn;
    var none: seq<Choice> := [];
    assert none + [c] == [c];
    NothingSaid();
    RoleMerged(None, none, c);
    FinishMerged("", none, c);
    CallMerged(None, none, c);
    assert MergeFn(None, c.call) == c.call;
    forall tool
      ensures ToolsTell(c.tools, tool, Entries([c], tool))
    {
      FirstDelta(c.tools, tool);
      OneDelta(c, tool);
    }
  }

  lemma OneDelta(c: Choice, tool: int)
    ensures Entries([c], tool) == FirstOf(EntriesIn(c.tools, tool))
  {
    hide EntriesIn;
    assert [c][..0] == [];
  }

  lemma KnownChoiceTells(choice: Choice, deltas: seq<Choice>, c: Choice)
    requires deltas != [] && ChoiceTells(choice, deltas)
    ensures ChoiceTells(Combined(choice, c), deltas + [c])
  {
    hide FirstRole, LastFinish, CallTells, ToolsTell, MergeTools, MergeFn;
    RoleMerged(choice.role, deltas, c);
    FinishMerged(choice.finish, deltas, c);
    CallMerged(choice.call, deltas, c);
    assert (deltas + [c])[..|deltas|] == deltas;
    forall tool
      ensures ToolsTell(Combined(choice, c).tools, tool, Entries(deltas + [c], tool))
    {
      EntriesMerged(choice.tools, c.tools, tool, Entries(deltas, tool));
    }
  }

  lemma ChoiceMerged(merged: seq<Choice>, index: int, deltas: seq<Choice>, c: Choice)
    requires ChoicesTell(merged, index, deltas)
    ensures ChoicesTell(MergeChoice(merged, c), index, if c.index == index then deltas + [c] else deltas)
  {
    hide ChoiceTells, Combined;
    var j, after := FindChoice(merged, index), MergeChoice(merged, c);
    CombinedKeepsIndex(merged, c);
    if c.index == index {
      if j == -1 {
        FirstChoice(after, index, |merged|);
        NewChoiceTells(c);
        assert deltas + [c] == [c];
      } else {
        FirstChoice(after, index, j);
        KnownChoiceTells(merged[j], deltas, c);
      }
    } else if j != -1 {
      FirstChoice(after, index, j);
    }
  }

  lemma CombinedKeepsIndex(merged: seq<Choice>, c: Choice)
    ensures |merged| <= |MergeChoice(merged, c)|
    ensures forall k :: 0 <= k < |merged| ==> MergeChoice(merged, c)[k].index == merged[k].index
  {
  }

  /**
   Merging all deltas of a stream: of each choice the merged state has the first role, the last finish
   reason and the first non-blank name of its function call, and of each tool call the first non-blank
   ID, type and name among its entries in arrival order.
   */
  lemma {:induction false} MergedTells(cs: seq<Choice>, index: int)
    ensures ChoicesTell(MergeAll([], cs), index, DeltasOf(cs, index))
  {
    hide MergeChoice, ChoiceTells;
    if cs != [] {
      MergedTells(cs[..|cs| - 1], index);
      ChoiceMerged(MergeAll([], cs[..|cs| - 1]), index, DeltasOf(cs[..|cs| - 1], index), cs[|cs| - 1]);
    }
  }

  /** No entry is passed over exactly when the choice's first delta has one entry at most for the call. */
  lemma AllEntriesMerged(deltas: seq<Choice>, tool: int)
    requires deltas != []
    ensures Entries(deltas, tool) == AllEntries(deltas, tool) <==> |EntriesIn(deltas[0].tools, tool)| <= 1
  {
    hide Entries, AllEntries, EntriesIn;
    var later := PassedOver(deltas, tool);
    var here := EntriesIn(deltas[0].tools, tool);
    if |here| == 1 {
      assert here == [here[0]];
    }
  }

  lemma {:induction false} PassedOver(deltas: seq<Choice>, tool: int) returns (later: seq<Tool>)
    requires deltas != []
    ensures Entries(deltas, tool) == FirstOf(EntriesIn(deltas[0].tools, tool)) + later
    ensures AllEntries(deltas, tool) == EntriesIn(deltas[0].tools, tool) + later
  {
    hide EntriesIn;
    var before := deltas[..|deltas| - 1];
    if before == [] {
      later := [];
      OneDelta(deltas[0], tool);
      assert deltas == [deltas[0]] && AllEntries(before, tool) == [];
    } else {
      var last, here := EntriesIn(deltas[|deltas| - 1].tools, tool), EntriesIn(deltas[0].tools, tool);
      later := PassedOver(before, tool);
      Reassociate(FirstOf(here), later, last);
      Reassociate(here, later, last);
      later := later + last;
    }
  }

  lemma {:induction false} MergeAllAppend(cs: seq<Choice>, a: seq<Choice>, b: seq<Choice>)
    ensures MergeAll(MergeAll(cs, a), b) == MergeAll(cs, a + b)
  {
    hide MergeChoice;
    if b == [] {
      assert a + b == a;
    } else {
      assert (a + b)[..|a + b| - 1] == a + b[..|b| - 1];
      MergeAllAppend(cs, a, b[..|b| - 1]);
    }
  }
}
