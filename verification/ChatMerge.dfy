/**
 The chat-completions aggregator: the merged state every emitted frame looks its choice and tool
 call up in, and close detection for streamed tool arguments.
 */
module ChatMerge {
  import opened Text
  import J = JsonClose

  datatype Fn = Fn(name: string, args: string)
  datatype Tool = Tool(index: int, id: string, typ: string, fn: Option<Fn>)
  datatype Choice = Choice(index: int, role: Option<string>, content: string, reasoning: string,
                           tools: seq<Tool>, call: Option<Fn>, finish: string)
  datatype Chunk = Chunk(choices: seq<Choice>, usage: bool)

  datatype Field = Content | Reasoning | ToolArguments

  /** The legacy function_call takes the place of tool -1. */
  datatype Key = Key(choice: int, tool: int, field: Field)
  const LEGACY := -1

  function FindChoice(cs: seq<Choice>, index: int): (r: int)
    ensures -1 <= r < |cs|
    ensures r >= 0 ==> cs[r].index == index
    ensures forall j :: 0 <= j < (if r == -1 then |cs| else r) ==> cs[j].index != index
  {
    if cs == [] then -1
    else if cs[0].index == index then 0
    else
      var r := FindChoice(cs[1..], index);
      if r == -1 then -1 else r + 1
  }

  function FindTool(ts: seq<Tool>, index: int): (r: int)
    ensures -1 <= r < |ts|
    ensures r >= 0 ==> ts[r].index == index
    ensures forall j :: 0 <= j < (if r == -1 then |ts| else r) ==> ts[j].index != index
  {
    if ts == [] then -1
    else if ts[0].index == index then 0
    else
      var r := FindTool(ts[1..], index);
      if r == -1 then -1 else r + 1
  }

  // ---- merging ----

  /** First-seen name; arguments are not concatenated here. */
  function MergeFn(dst: Option<Fn>, arriving: Option<Fn>): Option<Fn> {
    if dst.None? then arriving
    else if arriving.Some? && dst.value.name == "" then Some(dst.value.(name := arriving.value.name))
    else dst
  }

  function MergeTool(t: Tool, arriving: Tool): Tool {
    Tool(t.index, if t.id == "" then arriving.id else t.id, if t.typ == "" then arriving.typ else t.typ,
         MergeFn(t.fn, arriving.fn))
  }

  function MergeTools(ts: seq<Tool>, arriving: seq<Tool>): seq<Tool> {
    if arriving == [] then ts else
      var before, t := MergeTools(ts, arriving[..|arriving| - 1]), arriving[|arriving| - 1];
      var i := FindTool(before, t.index);
      if i == -1 then before + [t] else before[i := MergeTool(before[i], t)]
  }

  function Combined(choice: Choice, arriving: Choice): Choice {
    choice.(role := if choice.role.None? then arriving.role else choice.role,
            finish := if arriving.finish != "" then arriving.finish else choice.finish,
            tools := MergeTools(choice.tools, arriving.tools),
            call := MergeFn(choice.call, arriving.call))
  }

  /** A new choice is taken over without its text; a known one is updated in place. */
  function MergeChoice(cs: seq<Choice>, arriving: Choice): seq<Choice> {
    var i := FindChoice(cs, arriving.index);
    if i == -1 then cs + [arriving.(content := "", reasoning := "")] else cs[i := Combined(cs[i], arriving)]
  }

  function MergeAll(cs: seq<Choice>, arriving: seq<Choice>): seq<Choice> {
    if arriving == [] then cs
    else MergeChoice(MergeAll(cs, arriving[..|arriving| - 1]), arriving[|arriving| - 1])
  }

  method MergeToolDeltas(ts: seq<Tool>, arriving: seq<Tool>) returns (tools: seq<Tool>)
    ensures tools == MergeTools(ts, arriving)
  {
    tools := ts;
    assert arriving[..0] == [];
    for i := 0 to |arriving|
      invariant tools == MergeTools(ts, arriving[..i])
    {
      var t := arriving[i];
      assert arriving[..i + 1][..i] == arriving[..i];
      var j := FindTool(tools, t.index);
      if j == -1 {
        tools := tools + [t];
      } else {
        tools := tools[j := MergeTool(tools[j], t)];
      }
    }
    assert arriving[..|arriving|] == arriving;
  }

  class Aggregator {
    var merged: seq<Choice>
    var closers: map<(int, int), J.Track>

    constructor ()
      ensures merged == [] && closers == map[]
    {
      merged, closers := [], map[];
    }

    method MergeOne(arriving: Choice)
      modifies this`merged
      ensures merged == MergeChoice(old(merged), arriving)
    {
      var at := FindChoice(merged, arriving.index);
      if at == -1 {
        merged := merged + [arriving.(content := "", reasoning := "")];
        return;
      }
      var choice := merged[at];
      if arriving.role.Some? && choice.role.None? {
        choice := choice.(role := arriving.role);
      }
      if arriving.finish != "" {
        choice := choice.(finish := arriving.finish);
      }
      var tools := MergeToolDeltas(choice.tools, arriving.tools);
      choice := choice.(tools := tools);
      if arriving.call.Some? {
        choice := choice.(call := MergeFn(choice.call, arriving.call));
      }
      merged := merged[at := choice];
    }

    method Merge(chunk: Chunk)
      modifies this`merged
      ensures merged == MergeAll(old(merged), chunk.choices)
    {
      hide MergeChoice;
      var i := 0;
      assert chunk.choices[..0] == [];
      while i < |chunk.choices|
        invariant 0 <= i <= |chunk.choices|
        invariant merged == MergeAll(old(merged), chunk.choices[..i])
      {
        assert chunk.choices[..i + 1][..i] == chunk.choices[..i];
        MergeOne(chunk.choices[i]);
        i := i + 1;
      }
      assert chunk.choices[..i] == chunk.choices;
    }

    /** Feeds the close tracker of one tool call; created on first use. */
    method AppendToolArguments(choice: int, tool: int, args: string) returns (closed: bool)
      modifies this`closers
      ensures closed == J.Closes(TrackOf(old(closers), choice, tool), args)
      ensures closers == old(closers)[(choice, tool) := J.Run(TrackOf(old(closers), choice, tool), args)]
    {
      var track := TrackOf(closers, choice, tool);
      closers := closers[(choice, tool) := J.Run(track, args)];
      return J.Closes(track, args);
    }
  }

  function TrackOf(closers: map<(int, int), J.Track>, choice: int, tool: int): J.Track {
    if (choice, tool) in closers then closers[(choice, tool)] else J.FRESH
  }

  // ---- what an emitted frame looks up ----

  /** Where a frame with a field's text is emitted from. */
  datatype Route = AsText | AsTool | AsCall

  /** The merged state holds what a frame with text of this field is built from. */
  predicate Found(cs: seq<Choice>, k: Key, route: Route) {
    var i := FindChoice(cs, k.choice);
    i != -1 &&
    match route
    case AsText => true
    case AsTool => HasFunction(cs[i].tools, k.tool)
    case AsCall => cs[i].call.Some?
  }

  /** The first entry for the tool call has its function. */
  predicate HasFunction(ts: seq<Tool>, tool: int) {
    var j := FindTool(ts, tool);
    j != -1 && ts[j].fn.Some?
  }

  /** The arguments a tool delta carries; none without a function. */
  function Args(fn: Option<Fn>): string {
    if fn.Some? then fn.value.args else ""
  }

  /** The tool call is fed by a choice's delta. */
  predicate FeedsTool(choice: Choice, tool: int) {
    exists t :: t in choice.tools && t.index == tool && Args(t.fn) != ""
  }

  /**
   What a well-behaved upstream does: tool calls are not numbered -1, and the first entry for a
   tool call within one delta has its function whenever an entry for it has arguments.
   */
  predicate Sane(choice: Choice) {
    forall t :: t in choice.tools && Args(t.fn) != "" ==> t.index != LEGACY && HasFunction(choice.tools, t.index)
  }

  lemma FirstChoice(cs: seq<Choice>, index: int, i: nat)
    requires i < |cs| && cs[i].index == index && forall j :: 0 <= j < i ==> cs[j].index != index
    ensures FindChoice(cs, index) == i
  {
  }

  lemma FirstTool(ts: seq<Tool>, index: int, i: nat)
    requires i < |ts| && ts[i].index == index && forall j :: 0 <= j < i ==> ts[j].index != index
    ensures FindTool(ts, index) == i
  {
  }

  /** Merging more tool deltas never loses a function. */
  lemma {:induction false} ToolsKeep(ts: seq<Tool>, arriving: seq<Tool>, tool: int)
    requires HasFunction(ts, tool)
    ensures HasFunction(MergeTools(ts, arriving), tool)
  {
    if arriving != [] {
      var before, t := MergeTools(ts, arriving[..|arriving| - 1]), arriving[|arriving| - 1];
      ToolsKeep(ts, arriving[..|arriving| - 1], tool);
      FirstTool(MergeTools(ts, arriving), tool, FindTool(before, tool));
    }
  }

  /** A known tool call obtains a function as soon as one delta for it brings one. */
  lemma {:induction false} ToolsBring(ts: seq<Tool>, arriving: seq<Tool>, i: nat)
    requires i < |arriving| && arriving[i].fn.Some?
    ensures HasFunction(MergeTools(ts, arriving), arriving[i].index)
  {
    var n := |arriving| - 1;
    var before, t := MergeTools(ts, arriving[..n]), arriving[n];
    var after := MergeTools(ts, arriving);
    if i == n {
      var j := FindTool(before, t.index);
      FirstTool(after, t.index, if j == -1 then |before| else j);
    } else {
      ToolsBring(ts, arriving[..n], i);
      var tool := arriving[i].index;
      FirstTool(after, tool, FindTool(before, tool));
    }
  }

  /** A merge never removes anything a frame could look up. */
  lemma MergeKeeps(cs: seq<Choice>, arriving: Choice, k: Key, route: Route)
    requires Found(cs, k, route)
    ensures Found(MergeChoice(cs, arriving), k, route)
  {
    var i := FindChoice(cs, k.choice);
    FirstChoice(MergeChoice(cs, arriving), k.choice, i);
    if route.AsTool? && arriving.index == k.choice {
      ToolsKeep(cs[i].tools, arriving.tools, k.tool);
    }
  }

  /** A merged choice is found, and so is its function call. */
  lemma MergeBrings(cs: seq<Choice>, arriving: Choice, k: Key)
    requires k.choice == arriving.index
    ensures Found(MergeChoice(cs, arriving), k, AsText)
    ensures arriving.call.Some? ==> Found(MergeChoice(cs, arriving), k, AsCall)
  {
    var i := FindChoice(cs, arriving.index);
    FirstChoice(MergeChoice(cs, arriving), k.choice, if i == -1 then |cs| else i);
  }

  /**
   A tool call fed by a delta is found after the merge if and only if its choice was known before, or
   the delta's first entry for the call has its function.
   */
  lemma ToolFoundExactly(cs: seq<Choice>, arriving: Choice, tool: int)
    requires FeedsTool(arriving, tool)
    ensures Found(MergeChoice(cs, arriving), Key(arriving.index, tool, ToolArguments), AsTool)
            <==> FindChoice(cs, arriving.index) != -1 || HasFunction(arriving.tools, tool)
  {
    var i := FindChoice(cs, arriving.index);
    FirstChoice(MergeChoice(cs, arriving), arriving.index, if i == -1 then |cs| else i);
    var t :| t in arriving.tools && t.index == tool && Args(t.fn) != "";
    var j :| 0 <= j < |arriving.tools| && arriving.tools[j] == t;
    if i != -1 { ToolsBring(cs[i].tools, arriving.tools, j); }
  }

  lemma {:induction false} MergeAllKeeps(cs: seq<Choice>, arriving: seq<Choice>, k: Key, route: Route)
    requires Found(cs, k, route)
    ensures Found(MergeAll(cs, arriving), k, route)
  {
    hide Found, MergeChoice;
    if arriving != [] {
      MergeAllKeeps(cs, arriving[..|arriving| - 1], k, route);
      MergeKeeps(MergeAll(cs, arriving[..|arriving| - 1]), arriving[|arriving| - 1], k, route);
    }
  }

  /** After merging a chunk its choices are found, their function calls, and the tool calls of sane deltas. */
  lemma {:induction false} MergeAllBrings(cs: seq<Choice>, arriving: seq<Choice>, i: nat, k: Key)
    requires i < |arriving| && k.choice == arriving[i].index
    ensures Found(MergeAll(cs, arriving), k, AsText)
    ensures arriving[i].call.Some? ==> Found(MergeAll(cs, arriving), k, AsCall)
    ensures k.field.ToolArguments? && FeedsTool(arriving[i], k.tool) && Sane(arriving[i]) ==> Found(MergeAll(cs, arriving), k, AsTool)
  {
    hide Found, MergeChoice, HasFunction, FindChoice;
    var n := |arriving| - 1;
    var before := MergeAll(cs, arriving[..n]);
    if i == n {
      MergeBrings(before, arriving[n], k);
      if k.field.ToolArguments? && FeedsTool(arriving[n], k.tool) { ToolFoundExactly(before, arriving[n], k.tool); }
    } else {
      MergeAllBrings(cs, arriving[..n], i, k);
      MergeKeeps(before, arriving[n], k, AsText);
      if Found(before, k, AsCall) { MergeKeeps(before, arriving[n], k, AsCall); }
      if Found(before, k, AsTool) { MergeKeeps(before, arriving[n], k, AsTool); }
    }
  }
}
