/**
 The OpenAI chat-completions stream: text, tool-call arguments and legacy function calls of every
 choice restored side by side, every emitted frame built from the aggregator's merged state.
 */
module ChatCompletions {
  import opened Text
  import opened Demasking
  import opened FieldStreams
  import opened Reception
  import opened ChatMerge
  import Framing
  import EventFrame
  import J = JsonClose

  datatype Kind = Done | Passthrough | Data(chunk: Option<Chunk>)
  datatype Input = Frame(kind: Kind, bytes: string) | EndOfStream

  /** What a written frame is, besides the text it may carry. */
  datatype Wire =
    | Verbatim(bytes: string)
    | Metadata(chunk: Chunk)
    | Announce(choice: int, call: Tool)
    | TextDelta(role: Option<string>)
    | ToolDelta(id: string, typ: string, name: string)
    | CallDelta(name: string)

  // ---- what one input does to the fields ----

  datatype Act =
    | Merge(choices: seq<Choice>)
    | Feed(key: Key, fragment: string, route: Route)
    | FlushField(key: Key)
    | FlushChoice(choice: int)
    | FlushAll

  function TextKey(choice: int, field: Field): Key {
    Key(choice, 0, field)
  }

  function ToolKey(choice: int, tool: int): Key {
    Key(choice, tool, ToolArguments)
  }

  function ToolActs(choice: int, ts: seq<Tool>): seq<Act> {
    if ts == [] then [] else
      var before, t := ToolActs(choice, ts[..|ts| - 1]), ts[|ts| - 1];
      if Args(t.fn) == "" then before else before + [Feed(ToolKey(choice, t.index), t.fn.value.args, AsTool)]
  }

  function AllToolActs(cs: seq<Choice>): seq<Act> {
    if cs == [] then [] else AllToolActs(cs[..|cs| - 1]) + ToolActs(cs[|cs| - 1].index, cs[|cs| - 1].tools)
  }

  function CallActs(cs: seq<Choice>): seq<Act> {
    if cs == [] then [] else
      var before, c := CallActs(cs[..|cs| - 1]), cs[|cs| - 1];
      if Args(c.call) == "" then before else before + [Feed(ToolKey(c.index, LEGACY), c.call.value.args, AsCall)]
  }

  /** Reasoning is flushed when content starts; a finish reason beside text flushes the choice. */
  function TextActs(started: set<int>, c: Choice): seq<Act> {
    if c.content == "" && c.reasoning == "" then [] else
      FeedActs(c.index, Reasoning, c.reasoning) + StartActs(started, c) + FeedActs(c.index, Content, c.content)
      + (if c.finish == "" then [] else [FlushChoice(c.index)])
  }

  function FeedActs(choice: int, field: Field, text: string): seq<Act> {
    if text == "" then [] else [Feed(TextKey(choice, field), text, AsText)]
  }

  function StartActs(started: set<int>, c: Choice): seq<Act> {
    if c.content == "" || c.index in started then [] else [FlushField(TextKey(c.index, Reasoning))]
  }

  function StartedAfter(started: set<int>, c: Choice): set<int> {
    if c.content == "" then started else started + {c.index}
  }

  function AllStarted(started: set<int>, cs: seq<Choice>): set<int> {
    if cs == [] then started else StartedAfter(AllStarted(started, cs[..|cs| - 1]), cs[|cs| - 1])
  }

  function AllTextActs(started: set<int>, cs: seq<Choice>): seq<Act> {
    if cs == [] then [] else
      AllTextActs(started, cs[..|cs| - 1]) + TextActs(AllStarted(started, cs[..|cs| - 1]), cs[|cs| - 1])
  }

  function FinishActs(cs: seq<Choice>): seq<Act> {
    if cs == [] then [] else
      var before, c := FinishActs(cs[..|cs| - 1]), cs[|cs| - 1];
      if c.finish == "" then before else before + [FlushChoice(c.index)]
  }

  function ChunkActs(started: set<int>, chunk: Chunk): seq<Act> {
    AllToolActs(chunk.choices) + CallActs(chunk.choices) + AllTextActs(started, chunk.choices) + FinishActs(chunk.choices)
  }

  function InputActs(started: set<int>, done: bool, input: Input): seq<Act> {
    match input
    case Frame(Done, _) => [FlushAll]
    case Frame(Data(Some(chunk)), _) => if chunk.choices == [] then [] else [Merge(chunk.choices)] + ChunkActs(started, chunk)
    case EndOfStream => if done then [] else [FlushAll]
    case _ => []
  }

  function InputStarted(started: set<int>, input: Input): set<int> {
    match input
    case Frame(Data(Some(chunk)), _) => AllStarted(started, chunk.choices)
    case _ => started
  }

  function Started(inputs: seq<Input>): set<int> {
    if inputs == [] then {} else InputStarted(Started(inputs[..|inputs| - 1]), inputs[|inputs| - 1])
  }

  predicate IsDone(input: Input) {
    input.Frame? && input.kind.Done?
  }

  predicate DoneIn(inputs: seq<Input>) {
    inputs != [] && (DoneIn(inputs[..|inputs| - 1]) || IsDone(inputs[|inputs| - 1]))
  }

  function Acts(inputs: seq<Input>): seq<Act> {
    if inputs == [] then [] else
      var before, input := inputs[..|inputs| - 1], inputs[|inputs| - 1];
      Acts(before) + InputActs(Started(before), DoneIn(before), input)
  }

  // ---- what the acts make of one field ----

  /** Arguments are flushed when their object closes. */
  function FeedOp(k: Key, ops: seq<Op>, fragment: string): Op {
    Op(fragment, k.field.ToolArguments? && J.Closes(J.Run(J.FRESH, Fed(ops)), fragment))
  }

  /** Only tool arguments use the tool index. */
  predicate Live(k: Key) {
    k.field.ToolArguments? || k.tool == 0
  }

  /** Flushing a whole choice visits the legacy call twice: by itself and among the tool calls. */
  function Flushed(k: Key, ops: seq<Op>): seq<Op> {
    if ops == [] || !Live(k) then ops
    else if k.field.ToolArguments? && k.tool == LEGACY then ops + [FLUSH] + [FLUSH]
    else ops + [FLUSH]
  }

  function AfterAct(act: Act, k: Key, ops: seq<Op>): seq<Op> {
    match act
    case Merge(_) => ops
    case Feed(key, fragment, _) => if key == k then ops + [FeedOp(k, ops, fragment)] else ops
    case FlushField(key) => if key == k && ops != [] then ops + [FLUSH] else ops
    case FlushChoice(choice) => if k.choice == choice then Flushed(k, ops) else ops
    case FlushAll => Flushed(k, ops)
  }

  /** The calls on the demasker of one field. */
  function KeyOps(acts: seq<Act>, k: Key): seq<Op> {
    if acts == [] then [] else AfterAct(acts[|acts| - 1], k, KeyOps(acts[..|acts| - 1], k))
  }

  lemma KeyOpsSnoc(acts: seq<Act>, act: Act)
    ensures forall k :: KeyOps(acts + [act], k) == AfterAct(act, k, KeyOps(acts, k))
  {
    SnocParts(acts, act);
  }

  // ---- the frames without text ----

  function Announces(choice: int, ts: seq<Tool>): seq<Wire> {
    if ts == [] then [] else
      var before, t := Announces(choice, ts[..|ts| - 1]), ts[|ts| - 1];
      if Args(t.fn) == "" then before + [Announce(choice, t)] else before
  }

  function AllAnnounces(cs: seq<Choice>): seq<Wire> {
    if cs == [] then [] else AllAnnounces(cs[..|cs| - 1]) + Announces(cs[|cs| - 1].index, cs[|cs| - 1].tools)
  }

  predicate HasText(chunk: Chunk) {
    exists c :: c in chunk.choices && (c.content != "" || c.reasoning != "")
  }

  predicate HasToolCalls(chunk: Chunk) {
    exists c :: c in chunk.choices && c.tools != []
  }

  predicate HasFunctionCall(chunk: Chunk) {
    exists c :: c in chunk.choices && Args(c.call) != ""
  }

  predicate HasData(chunk: Chunk) {
    HasText(chunk) || HasToolCalls(chunk) || HasFunctionCall(chunk)
  }

  predicate IsMetadata(chunk: Chunk) {
    chunk.usage || exists c :: c in chunk.choices && c.finish != ""
  }

  /** Every delta cleared; finish reasons and usage stay. */
  function MetadataOnly(chunk: Chunk): Chunk {
    chunk.(choices := seq(|chunk.choices|, i requires 0 <= i < |chunk.choices| =>
                            Choice(chunk.choices[i].index, None, "", "", [], None, chunk.choices[i].finish)))
  }

  function InputFrames(input: Input): seq<Wire> {
    match input
    case EndOfStream => []
    case Frame(Data(Some(chunk)), bytes) =>
      if !HasData(chunk) then [Verbatim(bytes)]
      else AllAnnounces(chunk.choices) + if IsMetadata(chunk) then [Metadata(MetadataOnly(chunk))] else []
    case Frame(_, bytes) => [Verbatim(bytes)]
  }

  function Frames(inputs: seq<Input>): seq<Wire> {
    if inputs == [] then [] else Frames(inputs[..|inputs| - 1]) + InputFrames(inputs[|inputs| - 1])
  }

  /** The frame an input is closed with, if any: its own bytes, or its metadata. */
  function Final(input: Input): Option<Wire> {
    match input
    case EndOfStream => None
    case Frame(Data(Some(chunk)), bytes) =>
      if !HasData(chunk) then Some(Verbatim(bytes))
      else if IsMetadata(chunk) then Some(Metadata(MetadataOnly(chunk)))
      else None
    case Frame(_, bytes) => Some(Verbatim(bytes))
  }

  lemma Advance(inputs: seq<Input>, input: Input)
    ensures Acts(inputs + [input]) == Acts(inputs) + InputActs(Started(inputs), DoneIn(inputs), input)
    ensures Started(inputs + [input]) == InputStarted(Started(inputs), input)
    ensures DoneIn(inputs + [input]) == (DoneIn(inputs) || IsDone(input))
    ensures Frames(inputs + [input]) == Frames(inputs) + InputFrames(input)
  {
    SnocParts(inputs, input);
  }

  // ---- which calls find their frame ----

  /** The merged state after the given acts. */
  function Merged(acts: seq<Act>): seq<Choice> {
    if acts == [] then [] else AfterMerge(acts[|acts| - 1], Merged(acts[..|acts| - 1]))
  }

  function AfterMerge(act: Act, merged: seq<Choice>): seq<Choice> {
    if act.Merge? then MergeAll(merged, act.choices) else merged
  }

  /** Where the text of a flush is emitted from. */
  function FlushRoute(k: Key): Route {
    if !k.field.ToolArguments? then AsText else if k.tool == LEGACY then AsCall else AsTool
  }

  function FlushCall(merged: seq<Choice>, k: Key, route: Route): Call {
    Call(FLUSH, Found(merged, k, route))
  }

  /** The second flush of the legacy call goes out as a tool call's. */
  function FlushedCalls(merged: seq<Choice>, k: Key, calls: seq<Call>): seq<Call> {
    if calls == [] || !Live(k) then calls
    else if k.field.ToolArguments? && k.tool == LEGACY then
      calls + [FlushCall(merged, k, AsCall)] + [FlushCall(merged, k, AsTool)]
    else calls + [FlushCall(merged, k, FlushRoute(k))]
  }

  function CallsAfter(act: Act, merged: seq<Choice>, k: Key, calls: seq<Call>): seq<Call> {
    match act
    case Merge(_) => calls
    case Feed(key, fragment, route) =>
      if key == k then calls + [Call(FeedOp(k, OpsIn(calls), fragment), Found(merged, k, route))] else calls
    case FlushField(key) => if key == k && calls != [] then calls + [FlushCall(merged, k, AsText)] else calls
    case FlushChoice(choice) => if k.choice == choice then FlushedCalls(merged, k, calls) else calls
    case FlushAll => FlushedCalls(merged, k, calls)
  }

  /** The calls on the demasker of one field, each with whether its frame can be built. */
  function KeyCalls(acts: seq<Act>, k: Key): seq<Call> {
    if acts == [] then [] else
      var before := acts[..|acts| - 1];
      CallsAfter(acts[|acts| - 1], Merged(before), k, KeyCalls(before, k))
  }

  lemma KeyCallsSnoc(acts: seq<Act>, act: Act)
    ensures Merged(acts + [act]) == AfterMerge(act, Merged(acts))
    ensures forall k :: KeyCalls(acts + [act], k) == CallsAfter(act, Merged(acts), k, KeyCalls(acts, k))
  {
    SnocParts(acts, act);
  }

  lemma {:induction false} CallsAreOps(acts: seq<Act>, k: Key)
    ensures OpsIn(KeyCalls(acts, k)) == KeyOps(acts, k)
  {
    hide Found, FeedOp, Live, Merged;
    if acts != [] {
      var before, act := acts[..|acts| - 1], acts[|acts| - 1];
      CallsAreOps(before, k);
      CallsAfterOps(act, Merged(before), k, KeyCalls(before, k));
    }
  }

  lemma CallsAfterOps(act: Act, merged: seq<Choice>, k: Key, calls: seq<Call>)
    ensures OpsIn(CallsAfter(act, merged, k, calls)) == AfterAct(act, k, OpsIn(calls))
  {
    hide Found, FeedOp, Heard, Reaches, Active;
    FlushedOps(merged, k, calls);
    CallSnoc(calls, FlushCall(merged, k, AsText));
    if act.Feed? { CallSnoc(calls, Call(FeedOp(k, OpsIn(calls), act.fragment), Found(merged, k, act.route))); }
    NoOps(calls);
  }

  lemma FlushedOps(merged: seq<Choice>, k: Key, calls: seq<Call>)
    ensures OpsIn(FlushedCalls(merged, k, calls)) == Flushed(k, OpsIn(calls))
  {
    hide Found, Heard, Reaches, Active;
    CallSnoc(calls, FlushCall(merged, k, AsCall));
    CallSnoc(calls + [FlushCall(merged, k, AsCall)], FlushCall(merged, k, AsTool));
    CallSnoc(calls, FlushCall(merged, k, FlushRoute(k)));
    NoOps(calls);
  }

  lemma NoOps(calls: seq<Call>)
    ensures OpsIn(calls) == [] <==> calls == []
  {
  }

  // ---- the state, on values ----

  function CallsOf(calls: map<Key, seq<Call>>, k: Key): seq<Call> {
    if k in calls then calls[k] else []
  }

  function WithCall(calls: map<Key, seq<Call>>, k: Key, call: Call): map<Key, seq<Call>> {
    calls[k := CallsOf(calls, k) + [call]]
  }

  /** The calls noted are the calls made. */
  ghost predicate Tied(ops: map<Key, seq<Op>>, calls: map<Key, seq<Call>>) {
    ops.Keys == calls.Keys && forall k :: k in calls ==> calls[k] != [] && ops[k] == OpsIn(calls[k])
  }

  ghost predicate Closers(calls: map<Key, seq<Call>>, closers: map<(int, int), J.Track>) {
    forall k: Key :: k.field.ToolArguments? ==>
      TrackOf(closers, k.choice, k.tool) == J.Run(J.FRESH, Fed(OpsIn(CallsOf(calls, k))))
  }

  /** What holds between any two steps: of every field the client has the text whose frames were found. */
  ghost predicate Core(views: Key -> View, calls: map<Key, seq<Call>>, outs: seq<Out<Key, Wire>>,
                       closers: map<(int, int), J.Track>, frames: seq<Wire>)
  {
    && Closers(calls, closers)
    && (forall k :: ClientText(outs, k) == Heard(views(k), CallsOf(calls, k)))
    && Others(outs) == frames
  }

  ghost predicate Follows(calls: map<Key, seq<Call>>, merged: seq<Choice>, acts: seq<Act>) {
    merged == Merged(acts) && forall k :: CallsOf(calls, k) == KeyCalls(acts, k)
  }

  lemma NothingYet(views: Key -> View)
    ensures Tied(map[], map[]) && Core(views, map[], [], map[], []) && Follows(map[], [], [])
  {
    hide J.Closes, Step;
    assert J.Run(J.FRESH, "") == J.FRESH && Fed([]) == "";
    assert forall k: Key :: CallsOf(map[], k) == [] && TrackOf(map[], k.choice, k.tool) == J.FRESH;
  }

  /** The routes a field's frames can take. */
  predicate Suits(k: Key, route: Route) {
    (route.AsText? <==> !k.field.ToolArguments?) && (route.AsCall? ==> k.tool == LEGACY)
  }

  /** A text frame carries what the merged state knows of its choice, or of its call. */
  predicate Built(merged: seq<Choice>, o: Out<Key, Wire>) {
    o.Other? ||
    var at := FindChoice(merged, o.key.choice);
    at != -1 &&
    match o.frame
    case TextDelta(role) => !o.key.field.ToolArguments? && role == merged[at].role
    case CallDelta(name) =>
      o.key.field.ToolArguments? && o.key.tool == LEGACY && merged[at].call.Some? && name == merged[at].call.value.name
    case ToolDelta(id, typ, name) =>
      && o.key.field.ToolArguments? && HasFunction(merged[at].tools, o.key.tool)
      && var call := merged[at].tools[FindTool(merged[at].tools, o.key.tool)];
      && id == call.id && typ == call.typ && name == call.fn.value.name
    case Announce(choice, call) =>
      && o.key.field.ToolArguments? && o.text == "" && choice == o.key.choice && call.fn.None?
      && var i := FindTool(merged[at].tools, o.key.tool); i != -1 && call == merged[at].tools[i]
    case _ => false
  }

  /** The frames from `lo` on are built from the merged state. */
  ghost predicate Builds(merged: seq<Choice>, outs: seq<Out<Key, Wire>>, lo: nat) {
    forall i :: lo <= i < |outs| ==> Built(merged, outs[i])
  }

  lemma BuildsOne(merged: seq<Choice>, outs: seq<Out<Key, Wire>>, o: Out<Key, Wire>, lo: nat)
    requires Builds(merged, outs, lo) && Built(merged, o)
    ensures Builds(merged, outs + [o], lo)
  {
    hide Built;
  }

  /** What writing a field's text does: a frame with it, or none, or one that carries nothing. */
  ghost predicate Wrote(merged: seq<Choice>, outs: seq<Out<Key, Wire>>, outs2: seq<Out<Key, Wire>>, k: Key, text: string, found: bool) {
    if text == "" then outs2 == outs
    else if found then exists m :: outs2 == outs + [Text(k, text, m)] && Built(merged, Text(k, text, m))
    else outs2 == outs || exists m :: outs2 == outs + [Text(k, "", m)] && Built(merged, Text(k, "", m))
  }

  lemma WroteMeans(merged: seq<Choice>, outs: seq<Out<Key, Wire>>, outs2: seq<Out<Key, Wire>>, k: Key, text: string, found: bool, lo: nat)
    requires Wrote(merged, outs, outs2, k, text, found) && Builds(merged, outs, lo)
    ensures outs <= outs2 && Others(outs2) == Others(outs) && Builds(merged, outs2, lo)
    ensures forall q :: ClientText(outs2, q) == ClientText(outs, q) + if q == k && found then text else ""
  {
    hide Built, Builds;
    assert forall q :: ClientText(outs, q) + "" == ClientText(outs, q);
    if outs2 != outs {
      var m, w :| outs2 == outs + [Text(k, w, m)] && w == (if found then text else "") && Built(merged, Text(k, w, m));
      OutSnoc(outs, Text(k, w, m));
      BuildsOne(merged, outs, Text(k, w, m), lo);
    }
  }

  /** A demasker call whose text was written, if its frame could be built. */
  lemma CallKeeps(views: Key -> View, calls: map<Key, seq<Call>>, outs: seq<Out<Key, Wire>>, outs2: seq<Out<Key, Wire>>,
                  closers: map<(int, int), J.Track>, closers2: map<(int, int), J.Track>, frames: seq<Wire>, k: Key, call: Call)
    requires Core(views, calls, outs, closers, frames)
    requires Others(outs2) == Others(outs)
    requires var text := Emitted(views(k), OpsIn(CallsOf(calls, k)), call.op);
             forall q :: ClientText(outs2, q) == ClientText(outs, q) + if q == k && call.found then text else ""
    requires Closers(WithCall(calls, k, call), closers2)
    ensures Core(views, WithCall(calls, k, call), outs2, closers2, frames)
  {
    hide Emitted, Others, Closers, ClientText, Heard, OpsIn, Reaches, Active;
    CallSnoc(CallsOf(calls, k), call);
  }

  lemma TiedCall(ops: map<Key, seq<Op>>, calls: map<Key, seq<Call>>, k: Key, call: Call)
    requires Tied(ops, calls)
    ensures Tied(AfterCall(ops, k, call.op), WithCall(calls, k, call))
    ensures OpsOf(ops, k) == OpsIn(CallsOf(calls, k))
  {
    hide Heard, Reaches, Active;
    CallSnoc(CallsOf(calls, k), call);
  }

  lemma FedClosers(calls: map<Key, seq<Call>>, closers: map<(int, int), J.Track>, closers2: map<(int, int), J.Track>,
                   key: Key, call: Call)
    requires Closers(calls, closers)
    requires forall k: Key :: k.field.ToolArguments? && k != key ==>
               TrackOf(closers2, k.choice, k.tool) == TrackOf(closers, k.choice, k.tool)
    requires key.field.ToolArguments? ==>
               TrackOf(closers2, key.choice, key.tool) == J.Run(TrackOf(closers, key.choice, key.tool), call.op.chunk)
    ensures Closers(WithCall(calls, key, call), closers2)
  {
    hide J.Run, Fed, TrackOf, OpsIn, Heard, Reaches, Active;
    CallSnoc(CallsOf(calls, key), call);
    FedSnoc(OpsIn(CallsOf(calls, key)), call.op);
    J.RunAppend(J.FRESH, Fed(OpsIn(CallsOf(calls, key))), call.op.chunk);
  }

  lemma RunNothing(t: J.Track)
    ensures J.Run(t, "") == t
  {
  }

  class Processor {
    const fields: FieldDemaskers<Key>
    const aggr: Aggregator
    const decode: string -> Option<Chunk>
    var tailBuf: string
    var outputBuf: seq<Out<Key, Wire>>
    var contentStarted: set<int>
    var doneSent: bool
    ghost var taken: seq<Out<Key, Wire>>
    ghost var acts: seq<Act>
    ghost var frames: seq<Wire>
    ghost var calls: map<Key, seq<Call>>
    ghost var inputs: seq<Input>
    ghost var cuts: seq<nat>

    ghost function Outs(): seq<Out<Key, Wire>>
      reads this`taken, this`outputBuf
    {
      taken + outputBuf
    }

    /** The frames of the input being handled are built from the state merged so far. */
    ghost predicate Current()
      reads this`taken, this`outputBuf, this`cuts, aggr
    {
      Builds(aggr.merged, Outs(), Begins(cuts, |cuts|))
    }

    ghost predicate Sound()
      reads this`taken, this`outputBuf, this`frames, this`calls, this`cuts, aggr, fields, fields.repr
    {
      fields.Valid() && Tied(fields.ops, calls) && Core(fields.views, calls, Outs(), aggr.closers, frames) && Current()
    }

    /** Between two acts. */
    ghost predicate Settled()
      reads this`taken, this`outputBuf, this`frames, this`calls, this`acts, this`cuts, aggr, fields, fields.repr
    {
      Sound() && Follows(calls, aggr.merged, acts)
    }

    constructor (views: Key -> View, decode: string -> Option<Chunk>, cpus: nat)
      requires cpus > 0 && forall k :: views(k).Wf()
      ensures Valid() && fresh(aggr) && fresh(fields) && fresh(fields.repr)
      ensures fields.views == views && this.decode == decode
      ensures inputs == [] && Outs() == [] && tailBuf == ""
    {
      hide View.Wf;
      fields := new FieldDemaskers(views, cpus);
      aggr := new Aggregator();
      this.decode := decode;
      tailBuf, outputBuf, contentStarted, doneSent := "", [], {}, false;
      taken, acts, frames, calls, inputs, cuts := [], [], [], map[], [], [];
      new;
      NothingYet(views);
    }

    method WriteOutput(out: Out<Key, Wire>)
      modifies this`outputBuf
      ensures Outs() == old(Outs()) + [out]
    {
      outputBuf := outputBuf + [out];
      Reassociate(taken, old(outputBuf), [out]);
    }

    /** A text frame repeats the merged choice with the text in place; without the choice it is dropped. */
    method OutputTextFrame(key: Key, text: string)
      requires text != "" && Suits(key, AsText)
      modifies this`outputBuf
      ensures Wrote(aggr.merged, old(Outs()), Outs(), key, text, Found(aggr.merged, key, AsText))
    {
      var at := FindChoice(aggr.merged, key.choice);
      if at == -1 {
        return;
      }
      WriteOutput(Text(key, text, TextDelta(aggr.merged[at].role)));
    }

    /**
     A tool-call frame takes id, type and name from the merged call; without the call it is dropped,
     and without a function it goes out without the text.
     */
    method OutputToolCallFrame(key: Key, text: string)
      requires text != "" && Suits(key, AsTool)
      modifies this`outputBuf
      ensures Wrote(aggr.merged, old(Outs()), Outs(), key, text, Found(aggr.merged, key, AsTool))
    {
      var at := FindChoice(aggr.merged, key.choice);
      if at == -1 {
        return;
      }
      var tools := aggr.merged[at].tools;
      var i := FindTool(tools, key.tool);
      if i == -1 {
        return;
      }
      if tools[i].fn.None? {
        WriteOutput(Text(key, "", Announce(key.choice, Tool(key.tool, tools[i].id, tools[i].typ, None))));
        return;
      }
      WriteOutput(Text(key, text, ToolDelta(tools[i].id, tools[i].typ, tools[i].fn.value.name)));
    }

    method OutputFunctionCallFrame(key: Key, text: string)
      requires text != "" && Suits(key, AsCall)
      modifies this`outputBuf
      ensures Wrote(aggr.merged, old(Outs()), Outs(), key, text, Found(aggr.merged, key, AsCall))
    {
      var at := FindChoice(aggr.merged, key.choice);
      if at == -1 || aggr.merged[at].call.None? {
        return;
      }
      WriteOutput(Text(key, text, CallDelta(aggr.merged[at].call.value.name)));
    }

    method Emit(key: Key, text: string, route: Route)
      requires Suits(key, route)
      modifies this`outputBuf
      ensures Wrote(aggr.merged, old(Outs()), Outs(), key, text, Found(aggr.merged, key, route))
    {
      hide Found;
      if text != "" {
        match route
        case AsText => OutputTextFrame(key, text);
        case AsTool => OutputToolCallFrame(key, text);
        case AsCall => OutputFunctionCallFrame(key, text);
      }
    }

    /** One demasker call; what it returns is emitted at once. */
    method Demask(key: Key, op: Op, route: Route, ghost closers: map<(int, int), J.Track>)
      requires fields.Valid() && Tied(fields.ops, calls) && Core(fields.views, calls, Outs(), closers, frames) && Current()
      requires Suits(key, route)
      requires Closers(WithCall(calls, key, Call(op, Found(aggr.merged, key, route))), aggr.closers)
      modifies this`outputBuf, this`calls, fields, fields.repr
      ensures Sound() && fresh(fields.repr - old(fields.repr)) && old(Outs()) <= Outs()
      ensures calls == WithCall(old(calls), key, Call(op, Found(aggr.merged, key, route)))
    {
      hide Core, Closers, FieldDemaskers.Valid, Found, AfterCall, Step, Stream, Wrote, Builds, Tied, WithCall, OpsIn;
      ghost var call := Call(op, Found(aggr.merged, key, route));
      TiedCall(fields.ops, calls, key, call);
      var text := fields.DemaskChunk(key, op.chunk, op.flush);
      EmittedIs(fields.views(key), OpsIn(CallsOf(calls, key)), op);
      Emit(key, text, route);
      WroteMeans(aggr.merged, old(Outs()), Outs(), key, text, call.found, Begins(cuts, |cuts|));
      CallKeeps(fields.views, calls, old(Outs()), Outs(), closers, aggr.closers, frames, key, call);
      calls := WithCall(calls, key, call);
    }

    /** Feeds one field; tool arguments go through their close tracker first. */
    method FeedField(key: Key, fragment: string, route: Route)
      requires Settled() && Suits(key, route)
      modifies this`outputBuf, this`acts, this`calls, aggr`closers, fields, fields.repr
      ensures Settled() && fresh(fields.repr - old(fields.repr)) && old(Outs()) <= Outs()
      ensures acts == old(acts) + [Feed(key, fragment, route)]
    {
      hide Core, FieldDemaskers.Valid, Found, AfterCall, Step, Stream, J.Run, J.Closes, KeyCalls, Merged, TrackOf, OpsIn, Fed, WithCall, Tied;
      ghost var before, was := calls, aggr.closers;
      var closed := false;
      CloserOf(fields.views, before, Outs(), was, frames, key);
      if !route.AsText? {
        closed := aggr.AppendToolArguments(key.choice, key.tool, fragment);
        TrackUpdated(was, key.choice, key.tool, J.Run(TrackOf(was, key.choice, key.tool), fragment));
      }
      ghost var op := Op(fragment, closed);
      assert op == FeedOp(key, OpsIn(CallsOf(before, key)), fragment);
      ghost var call := Call(op, Found(aggr.merged, key, route));
      FedClosers(before, was, aggr.closers, key, call);
      Demask(key, Op(fragment, closed), route, was);
      FollowsFeed(before, aggr.merged, acts, key, fragment, route);
      acts := acts + [Feed(key, fragment, route)];
    }

    /** Flushes one field if it has a demasker. */
    method FlushKey(key: Key, route: Route)
      requires Sound() && Suits(key, route)
      modifies this`outputBuf, this`calls, fields, fields.repr
      ensures Sound() && fresh(fields.repr - old(fields.repr)) && old(Outs()) <= Outs()
      ensures calls == FlushedKeys(aggr.merged, old(calls), {key}, route)
    {
      hide Core, FieldDemaskers.Valid, Found, J.Run, J.Closes, TrackOf, OpsIn, Fed, FlushedKeys, Tied;
      LiveKeys(fields);
      TiedKeys(fields.ops, calls);
      FlushOneKey(aggr.merged, calls, key, route);
      if key !in fields.demaskers {
        return;
      }
      CloserOf(fields.views, calls, Outs(), aggr.closers, frames, key);
      RunNothing(TrackOf(aggr.closers, key.choice, key.tool));
      FedClosers(calls, aggr.closers, aggr.closers, key, FlushCall(aggr.merged, key, route));
      Demask(key, FLUSH, route, aggr.closers);
    }

    method FlushField(key: Key)
      requires Settled() && !key.field.ToolArguments?
      modifies this`outputBuf, this`acts, this`calls, fields, fields.repr
      ensures Settled() && fresh(fields.repr - old(fields.repr)) && old(Outs()) <= Outs()
      ensures acts == old(acts) + [Act.FlushField(key)]
    {
      hide Core, FieldDemaskers.Valid, FlushedKeys, KeyCalls, Merged, CallsOf;
      TiedKeys(fields.ops, calls);
      FollowsFlush(calls, aggr.merged, acts, key);
      FlushKey(key, AsText);
      acts := acts + [Act.FlushField(key)];
    }

    /** All tool-call demaskers of a choice, in some order. */
    method FlushToolCalls(choice: int)
      requires Sound()
      modifies this`outputBuf, this`calls, fields, fields.repr
      ensures Sound() && fresh(fields.repr - old(fields.repr)) && old(Outs()) <= Outs()
      ensures calls == FlushedKeys(aggr.merged, old(calls), ToolKeys(old(calls), choice), AsTool)
    {
      hide *;
      var keys := LiveToolKeys(choice);
      ToolKeysSuit(calls, choice);
      var todo := keys;
      assert keys - todo == {};
      NoKeys(aggr.merged, calls, AsTool);
      while todo != {}
        invariant todo <= keys
        invariant Sound() && fresh(fields.repr - old(fields.repr)) && old(Outs()) <= Outs()
        invariant calls == FlushedKeys(aggr.merged, old(calls), keys - todo, AsTool)
        decreases |todo|
      {
        var key :| key in todo;
        MoreKeys(aggr.merged, old(calls), keys - todo, key, AsTool);
        assert keys - (todo - {key}) == keys - todo + {key};
        todo := todo - {key};
        FlushKey(key, AsTool);
      }
      assert keys - {} == keys;
    }

    method LiveToolKeys(choice: int) returns (keys: set<Key>)
      requires Sound()
      ensures keys == ToolKeys(calls, choice)
    {
      hide Core;
      TiedKeys(fields.ops, calls);
      return set k | k in fields.demaskers && k.choice == choice && k.field.ToolArguments?;
    }

    method FlushWholeChoice(choice: int)
      requires Sound()
      modifies this`outputBuf, this`calls, fields, fields.repr
      ensures Sound() && fresh(fields.repr - old(fields.repr)) && old(Outs()) <= Outs()
      ensures calls == FlushedChoices(aggr.merged, old(calls), {choice})
    {
      hide *;
      NoEmptyCalls();
      TextSuits(choice);
      CallSuits(choice);
      FlushKey(TextKey(choice, Reasoning), AsText);
      FlushKey(TextKey(choice, Content), AsText);
      FlushKey(ToolKey(choice, LEGACY), AsCall);
      FlushToolCalls(choice);
      FlushedChoiceIs(aggr.merged, old(calls), choice);
    }

    lemma NoEmptyCalls()
      requires Sound()
      ensures forall k :: k in calls ==> calls[k] != []
    {
    }

    method FlushChoice(choice: int)
      requires Settled()
      modifies this`outputBuf, this`acts, this`calls, fields, fields.repr
      ensures Settled() && fresh(fields.repr - old(fields.repr)) && old(Outs()) <= Outs()
      ensures acts == old(acts) + [Act.FlushChoice(choice)]
    {
      hide Core, FieldDemaskers.Valid, FlushedChoices, KeyCalls, Merged, CallsOf;
      FollowsFlushChoice(calls, aggr.merged, acts, choice);
      FlushWholeChoice(choice);
      acts := acts + [Act.FlushChoice(choice)];
    }

    /** Flushes each choice that has a demasker, in some order. */
    method FlushAllDemaskers()
      requires Settled()
      modifies this`outputBuf, this`acts, this`calls, fields, fields.repr
      ensures Settled() && fresh(fields.repr - old(fields.repr)) && old(Outs()) <= Outs()
      ensures acts == old(acts) + [FlushAll]
    {
      hide Core, FieldDemaskers.Valid, FlushedChoices, KeyCalls, Merged, CallsOf, FlushedCalls;
      FollowsFlushAll(calls, aggr.merged, acts);
      FlushChoices();
      acts := acts + [FlushAll];
    }

    method FlushChoices()
      requires Sound()
      modifies this`outputBuf, this`calls, fields, fields.repr
      ensures Sound() && fresh(fields.repr - old(fields.repr)) && old(Outs()) <= Outs()
      ensures calls == FlushedChoices(aggr.merged, old(calls), ChoicesOf(old(calls)))
    {
      hide Core, FieldDemaskers.Valid, FlushedChoices, ChoicesOf;
      var choices := LiveChoices();
      var todo := choices;
      assert choices - todo == {};
      NoChoices(aggr.merged, calls);
      while todo != {}
        invariant todo <= choices
        invariant Sound() && fresh(fields.repr - old(fields.repr)) && old(Outs()) <= Outs()
        invariant calls == FlushedChoices(aggr.merged, old(calls), choices - todo)
        decreases |todo|
      {
        SomeChoice(todo);
        var choice :| choice in todo;
        OneMoreChoice(aggr.merged, old(calls), choices - todo, choice);
        assert choices - (todo - {choice}) == choices - todo + {choice};
        todo := todo - {choice};
        FlushWholeChoice(choice);
      }
      assert choices - {} == choices;
    }

    method LiveChoices() returns (choices: set<int>)
      requires Sound()
      ensures choices == ChoicesOf(calls)
    {
      hide Core;
      TiedKeys(fields.ops, calls);
      return set k | k in fields.demaskers :: k.choice;
    }

    /** A frame that carries no text. */
    method WriteFrame(m: Wire)
      requires Settled()
      modifies this`outputBuf, this`frames
      ensures Settled() && Outs() == old(Outs()) + [Other(m)] && frames == old(frames) + [m]
    {
      hide Closers, Others, KeyCalls, Merged, FieldDemaskers.Valid, Tied;
      OtherKeeps(fields.views, calls, Outs(), aggr.closers, frames, m);
      WriteOutput(Other(m));
      frames := frames + [m];
    }

    method ProcessChoiceTools(c: Choice)
      requires Settled()
      modifies this`outputBuf, this`acts, this`calls, this`frames, aggr`closers, fields, fields.repr
      ensures Settled() && fresh(fields.repr - old(fields.repr)) && old(Outs()) <= Outs()
      ensures acts == old(acts) + ToolActs(c.index, c.tools)
      ensures frames == old(frames) + Announces(c.index, c.tools)
    {
      hide *;
      NoToolsYet(c);
      for i := 0 to |c.tools|
        invariant Settled() && fresh(fields.repr - old(fields.repr)) && old(Outs()) <= Outs()
        invariant acts == old(acts) + ToolActs(c.index, c.tools[..i])
        invariant frames == old(frames) + Announces(c.index, c.tools[..i])
      {
        var t := c.tools[i];
        OneMoreTool(c, i, old(acts), old(frames));
        var args := Args(t.fn);
        if args == "" {
          WriteFrame(Announce(c.index, t));
        } else {
          ToolSuits(c.index, t.index);
          FeedField(ToolKey(c.index, t.index), args, AsTool);
        }
      }
      assert c.tools[..|c.tools|] == c.tools;
    }

    method ProcessToolCalls(chunk: Chunk)
      requires Settled()
      modifies this`outputBuf, this`acts, this`calls, this`frames, aggr`closers, fields, fields.repr
      ensures Settled() && fresh(fields.repr - old(fields.repr)) && old(Outs()) <= Outs()
      ensures acts == old(acts) + AllToolActs(chunk.choices)
      ensures frames == old(frames) + AllAnnounces(chunk.choices)
    {
      hide *;
      var cs := chunk.choices;
      NoChoicesYet(cs, contentStarted);
      assert old(acts) + [] == old(acts) && old(frames) + [] == old(frames);
      for i := 0 to |cs|
        invariant Settled() && fresh(fields.repr - old(fields.repr)) && old(Outs()) <= Outs()
        invariant acts == old(acts) + AllToolActs(cs[..i])
        invariant frames == old(frames) + AllAnnounces(cs[..i])
      {
        OneMoreTools(cs, i);
        Reassociate(old(acts), AllToolActs(cs[..i]), ToolActs(cs[i].index, cs[i].tools));
        Reassociate(old(frames), AllAnnounces(cs[..i]), Announces(cs[i].index, cs[i].tools));
        ProcessChoiceTools(cs[i]);
      }
      assert cs[..|cs|] == cs;
    }

    method ProcessFunctionCall(chunk: Chunk)
      requires Settled()
      modifies this`outputBuf, this`acts, this`calls, aggr`closers, fields, fields.repr
      ensures Settled() && fresh(fields.repr - old(fields.repr)) && old(Outs()) <= Outs()
      ensures acts == old(acts) + CallActs(chunk.choices)
    {
      hide *;
      var cs := chunk.choices;
      NoChoicesYet(cs, contentStarted);
      assert old(acts) + [] == old(acts);
      for i := 0 to |cs|
        invariant Settled() && fresh(fields.repr - old(fields.repr)) && old(Outs()) <= Outs()
        invariant acts == old(acts) + CallActs(cs[..i])
      {
        OneMoreCall(cs, i, old(acts));
        CallSuits(cs[i].index);
        var args := Args(cs[i].call);
        if args != "" {
          FeedField(ToolKey(cs[i].index, LEGACY), args, AsCall);
        }
      }
      assert cs[..|cs|] == cs;
    }

    method ProcessTextField(choice: int, field: Field, text: string)
      requires Settled() && !field.ToolArguments?
      modifies this`outputBuf, this`acts, this`calls, aggr`closers, fields, fields.repr
      ensures Settled() && fresh(fields.repr - old(fields.repr)) && old(Outs()) <= Outs()
      ensures acts == old(acts) + FeedActs(choice, field, text)
    {
      hide Settled, Sound, FieldDemaskers.Valid, Core;
      if text != "" {
        FeedField(TextKey(choice, field), text, AsText);
      }
      assert old(acts) + [] == old(acts);
    }

    /** When content starts, what is held back of the reasoning goes out first. */
    method StartContent(c: Choice)
      requires Settled()
      modifies this`outputBuf, this`acts, this`calls, this`contentStarted, fields, fields.repr
      ensures Settled() && fresh(fields.repr - old(fields.repr)) && old(Outs()) <= Outs()
      ensures acts == old(acts) + StartActs(old(contentStarted), c)
      ensures contentStarted == StartedAfter(old(contentStarted), c)
    {
      hide Settled, Sound, FieldDemaskers.Valid, Core;
      if c.content != "" && c.index !in contentStarted {
        FlushField(TextKey(c.index, Reasoning));
        contentStarted := contentStarted + {c.index};
      }
      assert old(acts) + [] == old(acts);
    }

    method FlushIfFinished(c: Choice)
      requires Settled()
      modifies this`outputBuf, this`acts, this`calls, fields, fields.repr
      ensures Settled() && fresh(fields.repr - old(fields.repr)) && old(Outs()) <= Outs()
      ensures acts == old(acts) + if c.finish == "" then [] else [Act.FlushChoice(c.index)]
    {
      hide Settled, Sound, FieldDemaskers.Valid, Core;
      if c.finish != "" {
        FlushChoice(c.index);
      }
      assert old(acts) + [] == old(acts);
    }

    method ProcessChoice(c: Choice)
      requires Settled()
      modifies this`outputBuf, this`acts, this`calls, this`contentStarted, aggr`closers, fields, fields.repr
      ensures Settled() && fresh(fields.repr - old(fields.repr)) && old(Outs()) <= Outs()
      ensures acts == old(acts) + TextActs(old(contentStarted), c)
      ensures contentStarted == StartedAfter(old(contentStarted), c)
    {
      hide *;
      TextParts(contentStarted, c, acts);
      if c.content == "" && c.reasoning == "" {
        return;
      }
      ProcessTextField(c.index, Reasoning, c.reasoning);
      StartContent(c);
      ProcessTextField(c.index, Content, c.content);
      FlushIfFinished(c);
    }

    method ProcessChoices(chunk: Chunk)
      requires Settled()
      modifies this`outputBuf, this`acts, this`calls, this`contentStarted, aggr`closers, fields, fields.repr
      ensures Settled() && fresh(fields.repr - old(fields.repr)) && old(Outs()) <= Outs()
      ensures acts == old(acts) + AllTextActs(old(contentStarted), chunk.choices)
      ensures contentStarted == AllStarted(old(contentStarted), chunk.choices)
    {
      hide *;
      var cs := chunk.choices;
      NoChoicesYet(cs, contentStarted);
      assert old(acts) + [] == old(acts);
      for i := 0 to |cs|
        invariant Settled() && fresh(fields.repr - old(fields.repr)) && old(Outs()) <= Outs()
        invariant acts == old(acts) + AllTextActs(old(contentStarted), cs[..i])
        invariant contentStarted == AllStarted(old(contentStarted), cs[..i])
      {
        OneMoreText(old(contentStarted), cs, i);
        Reassociate(old(acts), AllTextActs(old(contentStarted), cs[..i]), TextActs(contentStarted, cs[i]));
        ProcessChoice(cs[i]);
      }
      assert cs[..|cs|] == cs;
    }

    method FlushFinished(cs: seq<Choice>)
      requires Settled()
      modifies this`outputBuf, this`acts, this`calls, fields, fields.repr
      ensures Settled() && fresh(fields.repr - old(fields.repr)) && old(Outs()) <= Outs()
      ensures acts == old(acts) + FinishActs(cs)
    {
      hide *;
      NoChoicesYet(cs, contentStarted);
      assert old(acts) + [] == old(acts);
      for i := 0 to |cs|
        invariant Settled() && fresh(fields.repr - old(fields.repr)) && old(Outs()) <= Outs()
        invariant acts == old(acts) + FinishActs(cs[..i])
      {
        OneMoreFinish(cs, i, old(acts));
        if cs[i].finish != "" {
          FlushChoice(cs[i].index);
        }
      }
      assert cs[..|cs|] == cs;
    }

    /** Choices with a finish reason are flushed before the frame that carries it. */
    method HandleMetadataFrame(chunk: Chunk, m: Wire)
      requires Settled()
      modifies this`outputBuf, this`acts, this`calls, this`frames, fields, fields.repr
      ensures Settled() && fresh(fields.repr - old(fields.repr)) && old(Outs()) <= Outs()
      ensures acts == old(acts) + FinishActs(chunk.choices) && frames == old(frames) + [m]
      ensures |Outs()| > 0 && Outs()[|Outs()| - 1] == Other(m)
    {
      hide *;
      FlushFinished(chunk.choices);
      WriteFrame(m);
    }

    /** Merging comes first: frames are built from the state with the chunk in it. */
    method MergeChunk(chunk: Chunk)
      requires Settled() && Between()
      modifies aggr`merged, this`acts
      ensures Settled() && acts == old(acts) + [Merge(chunk.choices)]
    {
      hide Core, FieldDemaskers.Valid, KeyCalls, Merged, Tied, MergeAll;
      KeyCallsSnoc(acts, Merge(chunk.choices));
      aggr.Merge(chunk);
      acts := acts + [Merge(chunk.choices)];
    }

    /** The three kinds of deltas, each through its demaskers. */
    method ProcessDeltas(chunk: Chunk)
      requires Settled()
      modifies this`outputBuf, this`acts, this`calls, this`frames, this`contentStarted, aggr`closers, fields, fields.repr
      ensures Settled() && fresh(fields.repr - old(fields.repr)) && old(Outs()) <= Outs()
      ensures acts == old(acts) + AllToolActs(chunk.choices) + CallActs(chunk.choices)
                      + AllTextActs(old(contentStarted), chunk.choices)
      ensures contentStarted == AllStarted(old(contentStarted), chunk.choices)
      ensures frames == old(frames) + AllAnnounces(chunk.choices)
    {
      hide *;
      Guards(contentStarted, chunk);
      assert old(acts) + [] == old(acts) && old(frames) + [] == old(frames);
      if HasToolCalls(chunk) {
        ProcessToolCalls(chunk);
      }
      ghost var a1 := old(acts) + AllToolActs(chunk.choices);
      assert a1 + [] == a1;
      if HasFunctionCall(chunk) {
        ProcessFunctionCall(chunk);
      }
      ghost var a2 := a1 + CallActs(chunk.choices);
      assert a2 + [] == a2;
      if HasText(chunk) {
        ProcessChoices(chunk);
      }
    }

    method HandleChunk(bytes: string, chunk: Chunk)
      requires Settled()
      modifies this`outputBuf, this`acts, this`calls, this`frames, this`contentStarted, aggr`closers, fields, fields.repr
      ensures Settled() && fresh(fields.repr - old(fields.repr)) && old(Outs()) <= Outs()
      ensures acts == old(acts) + ChunkActs(old(contentStarted), chunk)
      ensures contentStarted == AllStarted(old(contentStarted), chunk.choices)
      ensures var input := Frame(Data(Some(chunk)), bytes);
              && frames == old(frames) + InputFrames(input)
              && (Final(input).Some? ==> |Outs()| > 0 && Outs()[|Outs()| - 1] == Other(Final(input).value))
    {
      hide *;
      ChunkParts(contentStarted, chunk, bytes, acts, frames);
      var hasData := HasText(chunk) || HasToolCalls(chunk) || HasFunctionCall(chunk);
      if !hasData {
        if IsMetadata(chunk) {
          HandleMetadataFrame(chunk, Verbatim(bytes));
        } else {
          WriteFrame(Verbatim(bytes));
        }
        return;
      }
      ProcessDeltas(chunk);
      if IsMetadata(chunk) {
        HandleMetadataFrame(chunk, Metadata(MetadataOnly(chunk)));
      }
    }

    /** Inputs handled so far determine everything but the order of frames within a flush. */
    ghost predicate Tracks(seen: seq<Input>)
      reads this`taken, this`outputBuf, this`frames, this`calls, this`acts, this`contentStarted, this`doneSent,
            this`cuts, aggr, fields, fields.repr
    {
      && Settled() && acts == Acts(seen) && frames == Frames(seen)
      && contentStarted == Started(seen) && doneSent == DoneIn(seen)
    }

    method HandleDataFrame(bytes: string, chunk: Option<Chunk>)
      requires Tracks(inputs) && Between()
      modifies this`outputBuf, this`acts, this`calls, this`frames, this`contentStarted, aggr, fields, fields.repr
      ensures var input := Frame(Data(chunk), bytes);
              Tracks(inputs + [input])
              && (Final(input).Some? ==> |Outs()| > 0 && Outs()[|Outs()| - 1] == Other(Final(input).value))
      ensures fresh(fields.repr - old(fields.repr)) && old(Outs()) <= Outs()
    {
      hide Settled, Sound, Core, Acts, Frames, Started, DoneIn, FieldDemaskers.Valid,
           ChunkActs, HasText, HasToolCalls, HasFunctionCall, IsMetadata, AllStarted, MetadataOnly, AllAnnounces, History;
      ghost var input := Frame(Data(chunk), bytes);
      Advance(inputs, input);
      if chunk.None? {
        assert acts + [] == acts;
        WriteFrame(Verbatim(bytes));
        return;
      }
      if chunk.value.choices == [] {
        NothingInside(contentStarted, chunk.value, acts);
        WriteFrame(Verbatim(bytes));
        return;
      }
      MergeChunk(chunk.value);
      HandleChunk(bytes, chunk.value);
      Reassociate(old(acts), [Merge(chunk.value.choices)], ChunkActs(old(contentStarted), chunk.value));
    }

    method HandleDone(bytes: string)
      requires Tracks(inputs)
      modifies this`outputBuf, this`acts, this`calls, this`frames, this`doneSent, fields, fields.repr
      ensures Tracks(inputs + [Frame(Done, bytes)]) && fresh(fields.repr - old(fields.repr)) && old(Outs()) <= Outs()
      ensures |Outs()| > 0 && Outs()[|Outs()| - 1] == Other(Verbatim(bytes))
    {
      hide Settled, Sound, Core, Acts, Frames, Started, DoneIn, FieldDemaskers.Valid;
      Advance(inputs, Frame(Done, bytes));
      FlushAllDemaskers();
      doneSent := true;
      WriteFrame(Verbatim(bytes));
    }

    method HandlePassthrough(bytes: string)
      requires Tracks(inputs)
      modifies this`outputBuf, this`frames
      ensures Tracks(inputs + [Frame(Passthrough, bytes)]) && old(Outs()) <= Outs()
      ensures |Outs()| > 0 && Outs()[|Outs()| - 1] == Other(Verbatim(bytes))
    {
      hide Settled, Sound, Core, Acts, Frames, Started, DoneIn, FieldDemaskers.Valid;
      Advance(inputs, Frame(Passthrough, bytes));
      assert acts + [] == acts;
      WriteFrame(Verbatim(bytes));
    }

    /** The end of the stream: without a [DONE] before it, everything held back is flushed. */
    method HandleEnd()
      requires Tracks(inputs)
      modifies this`outputBuf, this`acts, this`calls, fields, fields.repr
      ensures Tracks(inputs + [EndOfStream]) && fresh(fields.repr - old(fields.repr)) && old(Outs()) <= Outs()
    {
      hide Settled, Sound, Core, Acts, Frames, Started, DoneIn, FieldDemaskers.Valid;
      Advance(inputs, EndOfStream);
      assert acts + [] == acts && frames + [] == frames;
      if !doneSent {
        FlushAllDemaskers();
      }
    }

    ghost predicate Valid()
      reads this, aggr, fields, fields.repr
    {
      Tracks(inputs) && History(fields.views, Outs(), cuts, inputs)
    }

    /** No frame of the input to be handled has been written. */
    ghost predicate Between()
      reads this`taken, this`outputBuf, this`cuts
    {
      Begins(cuts, |cuts|) == |Outs()|
    }

    method HandleFrame(bytes: string)
      requires Tracks(inputs) && Between()
      modifies this`outputBuf, this`acts, this`calls, this`frames, this`contentStarted, this`doneSent, aggr, fields, fields.repr
      ensures var input := Decode(decode, bytes);
              Tracks(inputs + [input])
              && (Final(input).Some? ==> |Outs()| > 0 && Outs()[|Outs()| - 1] == Other(Final(input).value))
      ensures fresh(fields.repr - old(fields.repr)) && old(Outs()) <= Outs()
    {
      hide Tracks, HasData, IsMetadata;
      var frame := EventFrame.ClassifyFrame(bytes);
      match frame
      case Done => HandleDone(bytes);
      case Passthrough => HandlePassthrough(bytes);
      case Event(_, data) => HandleDataFrame(bytes, decode(data));
    }

    method ProcessFrame(bytes: string)
      requires Valid()
      modifies this, aggr, fields, fields.repr
      ensures Valid() && fresh(fields.repr - old(fields.repr))
      ensures inputs == old(inputs) + [Decode(decode, bytes)]
      ensures old(Outs()) <= Outs() && unchanged(this`tailBuf, this`taken)
    {
      hide Core, Follows, History, FieldDemaskers.Valid, Decode, Acts, Frames, Started, DoneIn;
      ghost var input := Decode(decode, bytes);
      EndOfHistory(fields.views, Outs(), cuts, inputs);
      HandleFrame(bytes);
      HistoryStep(fields.views, calls, old(Outs()), Outs(), aggr.closers, aggr.merged, cuts, inputs, input);
      inputs := inputs + [input];
      cuts := cuts + [|Outs()|];
    }

    method Finish()
      requires Valid()
      modifies this, aggr, fields, fields.repr
      ensures Valid() && fresh(fields.repr - old(fields.repr))
      ensures inputs == old(inputs) + [EndOfStream]
      ensures old(Outs()) <= Outs() && unchanged(this`tailBuf, this`taken)
    {
      hide Core, Follows, History, FieldDemaskers.Valid, Acts, Frames, Started, DoneIn;
      EndOfHistory(fields.views, Outs(), cuts, inputs);
      HandleEnd();
      HistoryStep(fields.views, calls, old(Outs()), Outs(), aggr.closers, aggr.merged, cuts, inputs, EndOfStream);
      inputs := inputs + [EndOfStream];
      cuts := cuts + [|Outs()|];
    }

    method TakeOutput() returns (out: seq<Out<Key, Wire>>)
      requires Valid()
      modifies this`taken, this`outputBuf
      ensures Valid() && out == old(outputBuf) && outputBuf == []
      ensures taken == old(taken) + out && Outs() == old(Outs())
    {
      hide Core, Follows, History, FieldDemaskers.Valid, Acts, Frames, Started, DoneIn;
      out := outputBuf;
      assert taken + outputBuf + [] == taken + outputBuf;
      taken := taken + outputBuf;
      outputBuf := [];
    }

    method ProcessChunk(body: string, endOfStream: bool) returns (out: seq<Out<Key, Wire>>)
      requires Valid() && outputBuf == []
      modifies this, aggr, fields, fields.repr
      ensures Valid() && outputBuf == [] && fresh(fields.repr - old(fields.repr))
      ensures Outs() == old(Outs()) + out
      ensures !endOfStream ==>
                var (found, tail) := Framing.Split(old(tailBuf) + body);
                inputs == old(inputs) + Framing.ReadAll(Reader(decode), found) && tailBuf == tail
      ensures endOfStream ==>
                inputs == old(inputs) + Framing.ReadAll(Reader(decode), Framing.Complete(old(tailBuf) + body)) + [EndOfStream]
    {
      hide Tracks, History, Framing.Split, Framing.Complete, Decode;
      var found;
      found, tailBuf := Framing.PrepareFrames(tailBuf, body, endOfStream);
      ghost var tail := tailBuf;
      var i := 0;
      assert Framing.ReadAll(Reader(decode), found[..0]) == [] && old(inputs) + [] == old(inputs);
      while i < |found|
        invariant 0 <= i <= |found|
        invariant Valid() && fresh(fields.repr - old(fields.repr))
        invariant inputs == old(inputs) + Framing.ReadAll(Reader(decode), found[..i])
        invariant old(Outs()) <= Outs() && tailBuf == tail && taken == old(taken)
      {
        Framing.ReadMore(Reader(decode), found, i);
        Reassociate(old(inputs), Framing.ReadAll(Reader(decode), found[..i]), [Decode(decode, found[i])]);
        ProcessFrame(found[i]);
        i := i + 1;
      }
      assert found[..i] == found;
      if endOfStream {
        Finish();
      }
      out := TakeOutput();
    }
  }

  lemma {:induction false} NoToolActs(cs: seq<Choice>)
    requires forall c :: c in cs ==> c.tools == []
    ensures AllToolActs(cs) == [] && AllAnnounces(cs) == []
  {
    if cs != [] { NoToolActs(cs[..|cs| - 1]); }
  }

  lemma {:induction false} NoCallActs(cs: seq<Choice>)
    requires forall c :: c in cs ==> Args(c.call) == ""
    ensures CallActs(cs) == []
  {
    if cs != [] { NoCallActs(cs[..|cs| - 1]); }
  }

  lemma {:induction false} NoTextActs(started: set<int>, cs: seq<Choice>)
    requires forall c :: c in cs ==> c.content == "" && c.reasoning == ""
    ensures AllTextActs(started, cs) == [] && AllStarted(started, cs) == started
  {
    if cs != [] { NoTextActs(started, cs[..|cs| - 1]); }
  }

  lemma {:induction false} NoFinishActs(cs: seq<Choice>)
    requires forall c :: c in cs ==> c.finish == ""
    ensures FinishActs(cs) == []
  {
    if cs != [] { NoFinishActs(cs[..|cs| - 1]); }
  }

  /** A kind of delta no choice has contributes nothing. */
  lemma Guards(started: set<int>, chunk: Chunk)
    ensures !HasToolCalls(chunk) ==> AllToolActs(chunk.choices) == [] && AllAnnounces(chunk.choices) == []
    ensures !HasFunctionCall(chunk) ==> CallActs(chunk.choices) == []
    ensures !HasText(chunk) ==> AllTextActs(started, chunk.choices) == [] && AllStarted(started, chunk.choices) == started
    ensures !IsMetadata(chunk) ==> FinishActs(chunk.choices) == []
  {
    if !HasToolCalls(chunk) { NoToolActs(chunk.choices); }
    if !HasFunctionCall(chunk) { NoCallActs(chunk.choices); }
    if !HasText(chunk) { NoTextActs(started, chunk.choices); }
    if !IsMetadata(chunk) { NoFinishActs(chunk.choices); }
  }

  lemma ChunkParts(started: set<int>, chunk: Chunk, bytes: string, acts: seq<Act>, frames: seq<Wire>)
    ensures var cs, input := chunk.choices, Frame(Data(Some(chunk)), bytes);
            var data := HasText(chunk) || HasToolCalls(chunk) || HasFunctionCall(chunk);
            && acts + ChunkActs(started, chunk)
               == (if data then acts + AllToolActs(cs) + CallActs(cs) + AllTextActs(started, cs)
                               + (if IsMetadata(chunk) then FinishActs(cs) else [])
                   else if IsMetadata(chunk) then acts + FinishActs(cs) else acts)
            && (forall a: seq<Act> {:trigger a + []} :: a + [] == a)
            && (!data ==> AllStarted(started, cs) == started)
            && frames + InputFrames(input)
               == (if !data then frames + [Verbatim(bytes)]
                   else if IsMetadata(chunk) then frames + AllAnnounces(cs) + [Metadata(MetadataOnly(chunk))]
                   else frames + AllAnnounces(cs))
            && Final(input) == (if !data then Some(Verbatim(bytes))
                                else if IsMetadata(chunk) then Some(Metadata(MetadataOnly(chunk))) else None)
  {
    hide AllToolActs, CallActs, AllTextActs, FinishActs, AllAnnounces, HasText, HasToolCalls, HasFunctionCall, IsMetadata, AllStarted, MetadataOnly;
    Guards(started, chunk);
  }

  lemma NothingInside(started: set<int>, chunk: Chunk, acts: seq<Act>)
    requires chunk.choices == []
    ensures acts + [] == acts && AllStarted(started, chunk.choices) == started
    ensures !HasData(chunk)
  {
  }

  // ---- whole runs ----

  /**
   After input `j`, which added the frames from `lo` to `n`, the client has what each field could emit,
   a closing frame is the last written, and the added ones are built from the state merged so far.
   */
  ghost predicate Cut(views: Key -> View, outs: seq<Out<Key, Wire>>, lo: nat, n: nat, inputs: seq<Input>, j: nat)
    requires j < |inputs|
  {
    && lo <= n <= |outs|
    && (forall k :: ClientText(outs[..n], k) == Heard(views(k), KeyCalls(Acts(inputs[..j + 1]), k)))
    && Others(outs[..n]) == Frames(inputs[..j + 1])
    && (Final(inputs[j]).Some? ==> n > 0 && outs[n - 1] == Other(Final(inputs[j]).value))
    && Builds(Merged(Acts(inputs[..j + 1])), outs[..n], lo)
  }

  /** Every frame written belongs to the input during which it was written. */
  ghost predicate History(views: Key -> View, outs: seq<Out<Key, Wire>>, cuts: seq<nat>, inputs: seq<Input>) {
    && |cuts| == |inputs| && Begins(cuts, |cuts|) == |outs|
    && forall j: nat :: j < |cuts| ==> Cut(views, outs, Begins(cuts, j), cuts[j], inputs, j)
  }

  lemma HistoryStep(views: Key -> View, calls: map<Key, seq<Call>>, outs: seq<Out<Key, Wire>>, outs2: seq<Out<Key, Wire>>,
                    closers: map<(int, int), J.Track>, merged: seq<Choice>, cuts: seq<nat>, inputs: seq<Input>, input: Input)
    requires History(views, outs, cuts, inputs) && outs <= outs2
    requires Core(views, calls, outs2, closers, Frames(inputs + [input])) && Follows(calls, merged, Acts(inputs + [input]))
    requires Builds(merged, outs2, |outs|)
    requires Final(input).Some? ==> |outs2| > 0 && outs2[|outs2| - 1] == Other(Final(input).value)
    ensures History(views, outs2, cuts + [|outs2|], inputs + [input])
  {
    hide Cut, Core, Follows, Builds, Acts, Frames;
    var all, cuts2 := inputs + [input], cuts + [|outs2|];
    forall j: nat | j < |cuts2|
      ensures Cut(views, outs2, Begins(cuts2, j), cuts2[j], all, j)
    {
      if j < |cuts| {
        CutStays(views, outs, outs2, Begins(cuts, j), cuts[j], inputs, input, j);
      } else {
        NewCut(views, calls, outs, outs2, closers, merged, inputs, input);
      }
    }
  }

  lemma CutStays(views: Key -> View, outs: seq<Out<Key, Wire>>, outs2: seq<Out<Key, Wire>>, lo: nat, n: nat,
                 inputs: seq<Input>, input: Input, j: nat)
    requires j < |inputs| && Cut(views, outs, lo, n, inputs, j) && outs <= outs2
    ensures Cut(views, outs2, lo, n, inputs + [input], j)
  {
    hide KeyCalls, Merged, Acts, Frames, Final, Others, ClientText, Heard, Builds;
    AppendDrop(inputs, [input], j + 1);
    assert outs2[..n] == outs[..n];
  }

  lemma NewCut(views: Key -> View, calls: map<Key, seq<Call>>, outs: seq<Out<Key, Wire>>, outs2: seq<Out<Key, Wire>>,
               closers: map<(int, int), J.Track>, merged: seq<Choice>, inputs: seq<Input>, input: Input)
    requires outs <= outs2 && Builds(merged, outs2, |outs|)
    requires Core(views, calls, outs2, closers, Frames(inputs + [input])) && Follows(calls, merged, Acts(inputs + [input]))
    requires Final(input).Some? ==> |outs2| > 0 && outs2[|outs2| - 1] == Other(Final(input).value)
    ensures Cut(views, outs2, |outs|, |outs2|, inputs + [input], |inputs|)
  {
    hide KeyCalls, Merged, Acts, Frames, Final, Others, ClientText, Heard, Builds, Closers;
    var all := inputs + [input];
    assert all[..|inputs| + 1] == all && outs2[..|outs2|] == outs2;
  }

  lemma EndOfHistory(views: Key -> View, outs: seq<Out<Key, Wire>>, cuts: seq<nat>, inputs: seq<Input>)
    requires History(views, outs, cuts, inputs)
    ensures Begins(cuts, |cuts|) == |outs|
  {
  }

  function Decode(decode: string -> Option<Chunk>, bytes: string): Input {
    match EventFrame.Classify(bytes)
    case Done => Frame(Done, bytes)
    case Passthrough => Frame(Passthrough, bytes)
    case Event(_, data) => Frame(Data(decode(data)), bytes)
  }

  function Reader(decode: string -> Option<Chunk>): string -> Input {
    (bytes: string) => Decode(decode, bytes)
  }

  lemma ToolSuits(choice: int, tool: int)
    ensures Suits(ToolKey(choice, tool), AsTool)
  {
  }

  lemma TextSuits(choice: int)
    ensures Suits(TextKey(choice, Reasoning), AsText) && Suits(TextKey(choice, Content), AsText)
  {
  }

  lemma ToolKeysSuit(calls: map<Key, seq<Call>>, choice: int)
    ensures forall k :: k in ToolKeys(calls, choice) ==> Suits(k, AsTool)
  {
  }

  lemma CallSuits(choice: int)
    ensures Suits(ToolKey(choice, LEGACY), AsCall)
  {
  }

  lemma TextParts(started: set<int>, c: Choice, acts: seq<Act>)
    ensures acts + TextActs(started, c)
            == if c.content == "" && c.reasoning == "" then acts
               else acts + FeedActs(c.index, Reasoning, c.reasoning) + StartActs(started, c)
                    + FeedActs(c.index, Content, c.content) + (if c.finish == "" then [] else [FlushChoice(c.index)])
    ensures c.content == "" ==> StartedAfter(started, c) == started
  {
  }

  lemma OtherKeeps(views: Key -> View, calls: map<Key, seq<Call>>, outs: seq<Out<Key, Wire>>,
                   closers: map<(int, int), J.Track>, frames: seq<Wire>, m: Wire)
    requires Core(views, calls, outs, closers, frames)
    ensures Core(views, calls, outs + [Other(m)], closers, frames + [m])
  {
    hide Closers, Others, ClientText, Heard;
    OutSnoc(outs, Out<Key, Wire>.Other(m));
  }

  lemma NoToolsYet(c: Choice)
    ensures ToolActs(c.index, c.tools[..0]) == [] && Announces(c.index, c.tools[..0]) == []
  {
  }

  lemma OneMoreTool(c: Choice, i: nat, acts: seq<Act>, frames: seq<Wire>)
    requires i < |c.tools|
    ensures var (ts, t) := (c.tools[..i], c.tools[i]);
            && acts + ToolActs(c.index, c.tools[..i + 1])
               == (if Args(t.fn) == "" then acts + ToolActs(c.index, ts)
                   else acts + ToolActs(c.index, ts) + [Feed(ToolKey(c.index, t.index), Args(t.fn), AsTool)])
            && frames + Announces(c.index, c.tools[..i + 1])
               == (if Args(t.fn) == "" then frames + Announces(c.index, ts) + [Announce(c.index, t)]
                   else frames + Announces(c.index, ts))
  {
    TakeSnoc(c.tools, i);
    SnocParts(c.tools[..i], c.tools[i]);
  }

  lemma NoChoicesYet(cs: seq<Choice>, started: set<int>)
    ensures AllToolActs(cs[..0]) == [] && AllAnnounces(cs[..0]) == [] && CallActs(cs[..0]) == []
    ensures AllTextActs(started, cs[..0]) == [] && AllStarted(started, cs[..0]) == started && FinishActs(cs[..0]) == []
  {
  }

  lemma OneMoreTools(cs: seq<Choice>, i: nat)
    requires i < |cs|
    ensures AllToolActs(cs[..i + 1]) == AllToolActs(cs[..i]) + ToolActs(cs[i].index, cs[i].tools)
    ensures AllAnnounces(cs[..i + 1]) == AllAnnounces(cs[..i]) + Announces(cs[i].index, cs[i].tools)
  {
    TakeSnoc(cs, i);
    SnocParts(cs[..i], cs[i]);
  }

  lemma OneMoreCall(cs: seq<Choice>, i: nat, acts: seq<Act>)
    requires i < |cs|
    ensures acts + CallActs(cs[..i + 1])
            == if Args(cs[i].call) == "" then acts + CallActs(cs[..i])
               else acts + CallActs(cs[..i]) + [Feed(ToolKey(cs[i].index, LEGACY), Args(cs[i].call), AsCall)]
  {
    TakeSnoc(cs, i);
    SnocParts(cs[..i], cs[i]);
  }

  lemma OneMoreText(started: set<int>, cs: seq<Choice>, i: nat)
    requires i < |cs|
    ensures AllTextActs(started, cs[..i + 1]) == AllTextActs(started, cs[..i]) + TextActs(AllStarted(started, cs[..i]), cs[i])
    ensures AllStarted(started, cs[..i + 1]) == StartedAfter(AllStarted(started, cs[..i]), cs[i])
  {
    TakeSnoc(cs, i);
    SnocParts(cs[..i], cs[i]);
  }

  lemma OneMoreFinish(cs: seq<Choice>, i: nat, acts: seq<Act>)
    requires i < |cs|
    ensures acts + FinishActs(cs[..i + 1])
            == if cs[i].finish == "" then acts + FinishActs(cs[..i]) else acts + FinishActs(cs[..i]) + [FlushChoice(cs[i].index)]
  {
    TakeSnoc(cs, i);
    SnocParts(cs[..i], cs[i]);
  }

  function ToolKeys(calls: map<Key, seq<Call>>, choice: int): set<Key> {
    set k | k in calls && k.choice == choice && k.field.ToolArguments?
  }

  function ChoicesOf(calls: map<Key, seq<Call>>): set<int> {
    set k | k in calls :: k.choice
  }

  /** The given fields flushed once. */
  function FlushedKeys(merged: seq<Choice>, calls: map<Key, seq<Call>>, keys: set<Key>, route: Route): map<Key, seq<Call>> {
    map k | k in calls :: if k in keys then calls[k] + [FlushCall(merged, k, route)] else calls[k]
  }

  function FlushedChoices(merged: seq<Choice>, calls: map<Key, seq<Call>>, choices: set<int>): map<Key, seq<Call>> {
    map k | k in calls :: if k.choice in choices then FlushedCalls(merged, k, calls[k]) else calls[k]
  }

  lemma TiedKeys(ops: map<Key, seq<Op>>, calls: map<Key, seq<Call>>)
    requires Tied(ops, calls)
    ensures (forall k :: k in ops <==> k in calls) && forall k :: k in calls ==> calls[k] != []
  {
    assert forall k :: k in ops.Keys <==> k in calls.Keys;
  }

  lemma EmittedIs(v: View, ops: seq<Op>, op: Op)
    ensures Emitted(v, ops, op) == Step(v, Stream(v, ops).1, op.chunk, op.flush).0
  {
  }

  lemma FlushOneKey(merged: seq<Choice>, calls: map<Key, seq<Call>>, key: Key, route: Route)
    ensures FlushedKeys(merged, calls, {key}, route)
            == if key in calls then WithCall(calls, key, FlushCall(merged, key, route)) else calls
  {
    hide Found;
  }

  lemma NoKeys(merged: seq<Choice>, calls: map<Key, seq<Call>>, route: Route)
    ensures FlushedKeys(merged, calls, {}, route) == calls
  {
    hide Found;
  }

  lemma MoreKeys(merged: seq<Choice>, calls: map<Key, seq<Call>>, done: set<Key>, key: Key, route: Route)
    requires key !in done
    ensures FlushedKeys(merged, FlushedKeys(merged, calls, done, route), {key}, route)
            == FlushedKeys(merged, calls, done + {key}, route)
  {
    hide Found;
  }

  lemma SomeChoice(choices: set<int>)
    ensures (forall choice :: choice !in choices) ==> choices == {}
  {
    if forall choice :: choice !in choices {
      assert choices == {};
    }
  }

  lemma NoChoices(merged: seq<Choice>, calls: map<Key, seq<Call>>)
    ensures FlushedChoices(merged, calls, {}) == calls
  {
  }

  lemma OneMoreChoice(merged: seq<Choice>, calls: map<Key, seq<Call>>, done: set<int>, choice: int)
    requires choice !in done
    ensures FlushedChoices(merged, FlushedChoices(merged, calls, done), {choice})
            == FlushedChoices(merged, calls, done + {choice})
  {
    hide FlushedCalls;
  }

  /** Text, legacy call and tool calls one after another are one flush of the choice. */
  lemma FlushedChoiceIs(merged: seq<Choice>, calls: map<Key, seq<Call>>, choice: int)
    requires forall k :: k in calls ==> calls[k] != []
    ensures var c1 := FlushedKeys(merged, calls, {TextKey(choice, Reasoning)}, AsText);
            var c2 := FlushedKeys(merged, c1, {TextKey(choice, Content)}, AsText);
            var c3 := FlushedKeys(merged, c2, {ToolKey(choice, LEGACY)}, AsCall);
            FlushedKeys(merged, c3, ToolKeys(c3, choice), AsTool) == FlushedChoices(merged, calls, {choice})
  {
    hide Found;
    var c1 := FlushedKeys(merged, calls, {TextKey(choice, Reasoning)}, AsText);
    var c2 := FlushedKeys(merged, c1, {TextKey(choice, Content)}, AsText);
    var c3 := FlushedKeys(merged, c2, {ToolKey(choice, LEGACY)}, AsCall);
    var left, right := FlushedKeys(merged, c3, ToolKeys(c3, choice), AsTool), FlushedChoices(merged, calls, {choice});
    assert c3.Keys == calls.Keys && left.Keys == right.Keys;
    forall k | k in calls
      ensures left[k] == right[k]
    {
      assert k in ToolKeys(c3, choice) <==> k.choice == choice && k.field.ToolArguments?;
    }
  }

  lemma CloserOf(views: Key -> View, calls: map<Key, seq<Call>>, outs: seq<Out<Key, Wire>>,
                 closers: map<(int, int), J.Track>, frames: seq<Wire>, key: Key)
    requires Core(views, calls, outs, closers, frames)
    ensures Closers(calls, closers)
    ensures key.field.ToolArguments? ==>
              TrackOf(closers, key.choice, key.tool) == J.Run(J.FRESH, Fed(OpsIn(CallsOf(calls, key))))
  {
  }

  lemma TrackUpdated(closers: map<(int, int), J.Track>, choice: int, tool: int, track: J.Track)
    ensures var after := closers[(choice, tool) := track];
            forall k: Key :: TrackOf(after, k.choice, k.tool)
                             == if k.choice == choice && k.tool == tool then track else TrackOf(closers, k.choice, k.tool)
  {
  }

  lemma FollowsFeed(calls: map<Key, seq<Call>>, merged: seq<Choice>, acts: seq<Act>, key: Key, fragment: string, route: Route)
    requires Follows(calls, merged, acts)
    ensures Follows(WithCall(calls, key, Call(FeedOp(key, OpsIn(CallsOf(calls, key)), fragment), Found(merged, key, route))),
                    merged, acts + [Feed(key, fragment, route)])
  {
    hide KeyCalls, Merged, FeedOp, Found, OpsIn;
    KeyCallsSnoc(acts, Feed(key, fragment, route));
  }

  lemma FollowsFlush(calls: map<Key, seq<Call>>, merged: seq<Choice>, acts: seq<Act>, key: Key)
    requires Follows(calls, merged, acts) && (key in calls ==> calls[key] != [])
    ensures Follows(FlushedKeys(merged, calls, {key}, AsText), merged, acts + [FlushField(key)])
  {
    hide KeyCalls, Merged, Found;
    KeyCallsSnoc(acts, FlushField(key));
  }

  lemma FollowsFlushChoice(calls: map<Key, seq<Call>>, merged: seq<Choice>, acts: seq<Act>, choice: int)
    requires Follows(calls, merged, acts)
    ensures Follows(FlushedChoices(merged, calls, {choice}), merged, acts + [FlushChoice(choice)])
  {
    hide KeyCalls, Merged, Found;
    KeyCallsSnoc(acts, FlushChoice(choice));
  }

  lemma FollowsFlushAll(calls: map<Key, seq<Call>>, merged: seq<Choice>, acts: seq<Act>)
    requires Follows(calls, merged, acts)
    ensures Follows(FlushedChoices(merged, calls, ChoicesOf(calls)), merged, acts + [FlushAll])
  {
    hide KeyCalls, Merged, Found;
    KeyCallsSnoc(acts, FlushAll);
  }
}
