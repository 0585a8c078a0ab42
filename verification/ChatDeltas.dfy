/**
 What the acts of a chat-completions run amount to for each field: the text they feed it, which is the text
 the chunks carry, and where they flush it.
 */
module ChatDeltas {
  import opened Text
  import opened Demasking
  import opened DemaskLimits
  import opened FieldStreams
  import opened LongForms
  import opened Reception
  import opened ChatMerge
  import opened ChatCompletions
  import J = JsonClose

  // ---- the text the chunks carry ----

  function ToolText(ts: seq<Tool>, tool: int): string {
    if ts == [] then "" else
      ToolText(ts[..|ts| - 1], tool) + if ts[|ts| - 1].index == tool then Args(ts[|ts| - 1].fn) else ""
  }

  /** The arguments a chunk carries for one tool call, choice by choice. */
  function ToolsText(cs: seq<Choice>, k: Key): string {
    if cs == [] then "" else
      ToolsText(cs[..|cs| - 1], k) + if cs[|cs| - 1].index == k.choice then ToolText(cs[|cs| - 1].tools, k.tool) else ""
  }

  function CallsText(cs: seq<Choice>, k: Key): string {
    if cs == [] then "" else
      CallsText(cs[..|cs| - 1], k) + if cs[|cs| - 1].index == k.choice then Args(cs[|cs| - 1].call) else ""
  }

  function TextsOf(cs: seq<Choice>, k: Key): string {
    if cs == [] then "" else
      var c := cs[|cs| - 1];
      TextsOf(cs[..|cs| - 1], k)
      + if c.index != k.choice then "" else if k.field.Content? then c.content else c.reasoning
  }

  /** The text a chunk carries for one field. */
  function ChunkText(chunk: Chunk, k: Key): string {
    if k.field.ToolArguments? then
      ToolsText(chunk.choices, k) + if k.tool == LEGACY then CallsText(chunk.choices, k) else ""
    else if k.tool == 0 then TextsOf(chunk.choices, k) else ""
  }

  function InputText(input: Input, k: Key): string {
    match input
    case Frame(Data(Some(chunk)), _) => ChunkText(chunk, k)
    case _ => ""
  }

  /** All text the inputs carry for one field. */
  function Deltas(inputs: seq<Input>, k: Key): string {
    if inputs == [] then "" else Deltas(inputs[..|inputs| - 1], k) + InputText(inputs[|inputs| - 1], k)
  }

  // ---- the acts feed exactly that text ----

  function ActsText(acts: seq<Act>, k: Key): string {
    if acts == [] then "" else
      var before, act := ActsText(acts[..|acts| - 1], k), acts[|acts| - 1];
      if act.Feed? && act.key == k then before + act.fragment else before
  }

  lemma {:induction false} ActsTextAppend(a: seq<Act>, b: seq<Act>, k: Key)
    ensures ActsText(a + b, k) == ActsText(a, k) + ActsText(b, k)
  {
    if b == [] {
      assert a + b == a && ActsText(a, k) + "" == ActsText(a, k);
    } else {
      var before, act := b[..|b| - 1], b[|b| - 1];
      assert (a + b)[..|a + b| - 1] == a + before;
      ActsTextAppend(a, before, k);
      if act.Feed? && act.key == k { Reassociate(ActsText(a, k), ActsText(before, k), act.fragment); }
    }
  }

  lemma ActsTextOne(act: Act, k: Key)
    ensures ActsText([act], k) == if act.Feed? && act.key == k then act.fragment else ""
  {
    assert [act][..0] == [] && ActsText([], k) == "";
    if act.Feed? { assert "" + act.fragment == act.fragment; }
  }

  lemma {:induction false} ToolActsText(choice: int, ts: seq<Tool>, k: Key)
    ensures ActsText(ToolActs(choice, ts), k)
            == if k.field.ToolArguments? && k.choice == choice then ToolText(ts, k.tool) else ""
  {
    if ts != [] {
      var before, t := ts[..|ts| - 1], ts[|ts| - 1];
      ToolActsText(choice, before, k);
      assert ToolText(before, k.tool) + "" == ToolText(before, k.tool);
      if Args(t.fn) != "" {
        var act := Feed(ToolKey(choice, t.index), t.fn.value.args, AsTool);
        ActsTextAppend(ToolActs(choice, before), [act], k);
        ActsTextOne(act, k);
      }
    }
  }

  lemma {:induction false} AllToolActsText(cs: seq<Choice>, k: Key)
    ensures ActsText(AllToolActs(cs), k) == if k.field.ToolArguments? then ToolsText(cs, k) else ""
  {
    if cs != [] {
      var before, c := cs[..|cs| - 1], cs[|cs| - 1];
      AllToolActsText(before, k);
      ActsTextAppend(AllToolActs(before), ToolActs(c.index, c.tools), k);
      ToolActsText(c.index, c.tools, k);
    }
  }

  lemma {:induction false} CallActsText(cs: seq<Choice>, k: Key)
    ensures ActsText(CallActs(cs), k) == if k.field.ToolArguments? && k.tool == LEGACY then CallsText(cs, k) else ""
  {
    if cs != [] {
      var before, c := cs[..|cs| - 1], cs[|cs| - 1];
      CallActsText(before, k);
      assert CallsText(before, k) + "" == CallsText(before, k);
      if Args(c.call) != "" {
        var act := Feed(ToolKey(c.index, LEGACY), c.call.value.args, AsCall);
        ActsTextAppend(CallActs(before), [act], k);
        ActsTextOne(act, k);
      }
    }
  }

  lemma FeedActsText(choice: int, field: Field, text: string, k: Key)
    ensures ActsText(FeedActs(choice, field, text), k) == if k == TextKey(choice, field) then text else ""
  {
    if text != "" { ActsTextOne(Feed(TextKey(choice, field), text, AsText), k); }
  }

  lemma TextActsText(started: set<int>, c: Choice, k: Key)
    ensures ActsText(TextActs(started, c), k)
            == if k == TextKey(c.index, Content) then c.content
               else if k == TextKey(c.index, Reasoning) then c.reasoning else ""
  {
    hide ActsText;
    var a1, a2, a3 := FeedActs(c.index, Reasoning, c.reasoning), StartActs(started, c), FeedActs(c.index, Content, c.content);
    var a4 := if c.finish == "" then [] else [FlushChoice(c.index)];
    ActsTextAppend(a1, a2, k);
    ActsTextAppend(a1 + a2, a3, k);
    ActsTextAppend(a1 + a2 + a3, a4, k);
    FeedActsText(c.index, Reasoning, c.reasoning, k);
    FeedActsText(c.index, Content, c.content, k);
    ActsTextOne(FlushField(TextKey(c.index, Reasoning)), k);
    ActsTextOne(FlushChoice(c.index), k);
    ActsTextNone(k);
  }

  lemma ActsTextNone(k: Key)
    ensures ActsText([], k) == ""
  {
  }

  lemma {:induction false} AllTextActsText(started: set<int>, cs: seq<Choice>, k: Key)
    ensures ActsText(AllTextActs(started, cs), k)
            == if !k.field.ToolArguments? && k.tool == 0 then TextsOf(cs, k) else ""
  {
    if cs != [] {
      var before, c := cs[..|cs| - 1], cs[|cs| - 1];
      AllTextActsText(started, before, k);
      var acts := TextActs(AllStarted(started, before), c);
      ActsTextAppend(AllTextActs(started, before), acts, k);
      TextActsText(AllStarted(started, before), c, k);
    }
  }

  lemma {:induction false} FinishActsText(cs: seq<Choice>, k: Key)
    ensures ActsText(FinishActs(cs), k) == ""
  {
    if cs != [] {
      FinishActsText(cs[..|cs| - 1], k);
      ActsTextAppend(FinishActs(cs[..|cs| - 1]), [FlushChoice(cs[|cs| - 1].index)], k);
      ActsTextOne(FlushChoice(cs[|cs| - 1].index), k);
    }
  }

  lemma InputActsText(started: set<int>, done: bool, input: Input, k: Key)
    ensures ActsText(InputActs(started, done, input), k) == InputText(input, k)
  {
    hide ActsText, AllToolActs, CallActs, AllTextActs, FinishActs, ToolsText, CallsText, TextsOf;
    ActsTextOne(FlushAll, k);
    ActsTextNone(k);
    match input
    case Frame(Data(Some(chunk)), _) =>
      var cs := chunk.choices;
      AllToolActsText(cs, k);
      CallActsText(cs, k);
      AllTextActsText(started, cs, k);
      FinishActsText(cs, k);
      ActsTextAppend(AllToolActs(cs), CallActs(cs), k);
      ActsTextAppend(AllToolActs(cs) + CallActs(cs), AllTextActs(started, cs), k);
      ActsTextAppend(AllToolActs(cs) + CallActs(cs) + AllTextActs(started, cs), FinishActs(cs), k);
      ActsTextAppend([Merge(cs)], ChunkActs(started, chunk), k);
      ActsTextOne(Merge(cs), k);
      EmptyChunkText(k);
    case _ =>
  }

  lemma EmptyChunkText(k: Key)
    ensures ToolsText([], k) == "" && CallsText([], k) == "" && TextsOf([], k) == ""
  {
  }

  lemma {:induction false} ActsCarryDeltas(inputs: seq<Input>, k: Key)
    ensures ActsText(Acts(inputs), k) == Deltas(inputs, k)
  {
    hide InputActs, InputText;
    if inputs != [] {
      var before, input := inputs[..|inputs| - 1], inputs[|inputs| - 1];
      ActsCarryDeltas(before, k);
      InputActsText(Started(before), DoneIn(before), input, k);
      ActsTextAppend(Acts(before), InputActs(Started(before), DoneIn(before), input), k);
    }
  }

  lemma ActFed(act: Act, k: Key, ops: seq<Op>)
    ensures Fed(AfterAct(act, k, ops)) == if act.Feed? && act.key == k then Fed(ops) + act.fragment else Fed(ops)
  {
    hide Fed;
    FedSnoc(ops, FLUSH);
    FedSnoc(ops + [FLUSH], FLUSH);
    assert Fed(ops) + "" == Fed(ops);
    if act.Feed? { FedSnoc(ops, FeedOp(k, ops, act.fragment)); }
  }

  lemma {:induction false} DeltasAreFed(acts: seq<Act>, k: Key)
    ensures Fed(KeyOps(acts, k)) == ActsText(acts, k)
  {
    hide AfterAct;
    if acts != [] {
      var before, act := acts[..|acts| - 1], acts[|acts| - 1];
      DeltasAreFed(before, k);
      ActFed(act, k, KeyOps(before, k));
    }
  }

  // ---- flushing ----

  /** Acts that flush only. */
  predicate Flushing(acts: seq<Act>) {
    forall a :: a in acts ==> !a.Feed?
  }

  lemma {:induction false} StaysClosed(acts: seq<Act>, more: seq<Act>, k: Key)
    requires Closed(KeyOps(acts, k)) && Flushing(more)
    ensures Closed(KeyOps(acts + more, k))
  {
    if more == [] {
      assert acts + more == acts;
    } else {
      var before := more[..|more| - 1];
      StaysClosed(acts, before, k);
      assert (acts + more)[..|acts + more| - 1] == acts + before;
      assert more[|more| - 1] in more;
    }
  }

  /** Only live fields are ever fed. */
  predicate Proper(acts: seq<Act>) {
    forall a :: a in acts ==> (a.Feed? ==> Live(a.key)) && (a.FlushField? ==> !a.key.field.ToolArguments?)
  }

  lemma {:induction false} ProperOps(acts: seq<Act>, k: Key)
    requires Proper(acts) && !Live(k)
    ensures KeyOps(acts, k) == []
  {
    if acts != [] {
      assert acts[|acts| - 1] in acts;
      ProperOps(acts[..|acts| - 1], k);
    }
  }

  lemma {:induction false} ToolActsProper(choice: int, ts: seq<Tool>)
    ensures Proper(ToolActs(choice, ts))
  {
    if ts != [] { ToolActsProper(choice, ts[..|ts| - 1]); }
  }

  lemma TextActsProper(started: set<int>, c: Choice)
    ensures Proper(TextActs(started, c))
  {
  }

  lemma {:induction false} ChoiceActsProper(started: set<int>, cs: seq<Choice>)
    ensures Proper(AllToolActs(cs)) && Proper(CallActs(cs)) && Proper(AllTextActs(started, cs))
    ensures Proper(FinishActs(cs)) && Flushing(FinishActs(cs))
  {
    hide TextActs, ToolActs, AllStarted;
    if cs != [] {
      ChoiceActsProper(started, cs[..|cs| - 1]);
      ToolActsProper(cs[|cs| - 1].index, cs[|cs| - 1].tools);
      TextActsProper(AllStarted(started, cs[..|cs| - 1]), cs[|cs| - 1]);
    }
  }

  lemma {:induction false} ActsProper(inputs: seq<Input>)
    ensures Proper(Acts(inputs))
  {
    hide AllToolActs, CallActs, AllTextActs, FinishActs, AllStarted;
    if inputs != [] {
      var before, input := inputs[..|inputs| - 1], inputs[|inputs| - 1];
      ActsProper(before);
      if input.Frame? && input.kind.Data? && input.kind.chunk.Some? {
        ChoiceActsProper(Started(before), input.kind.chunk.value.choices);
      }
    }
  }

  /** A flush of everything, or of a field's choice, closes the field. */
  lemma FlushCloses(inputs: seq<Input>, acts: seq<Act>, act: Act, more: seq<Act>, k: Key)
    requires Proper(acts) && Flushing(more)
    requires act.FlushAll? || (act.FlushChoice? && act.choice == k.choice)
    ensures Closed(KeyOps(acts + [act] + more, k))
  {
    KeyOpsSnoc(acts, act);
    if !Live(k) { ProperOps(acts, k); }
    StaysClosed(acts + [act], more, k);
  }

  // ---- where a field is flushed ----

  /** All choices of all chunks, in arrival order. */
  function Arrived(inputs: seq<Input>): seq<Choice> {
    if inputs == [] then [] else
      Arrived(inputs[..|inputs| - 1]) + ChoicesIn(inputs[|inputs| - 1])
  }

  function ChoicesIn(input: Input): seq<Choice> {
    match input
    case Frame(Data(Some(chunk)), _) => chunk.choices
    case _ => []
  }

  /** The inputs that end field `k`: its choice's finish reason, [DONE], the end of the stream. */
  predicate Ends(done: bool, input: Input, k: Key) {
    match input
    case Frame(Done, _) => true
    case Frame(Data(Some(chunk)), _) => exists c :: c in chunk.choices && c.index == k.choice && c.finish != ""
    case EndOfStream => !done
    case _ => false
  }

  predicate HasContent(cs: seq<Choice>, choice: int) {
    exists c :: c in cs && c.index == choice && c.content != ""
  }

  /** A choice's entry ends the text before it: it finishes the choice, or is its first with content and ends the reasoning. */
  predicate EndsText(earlier: seq<Choice>, c: Choice, k: Key) {
    && c.index == k.choice
    && (c.finish != "" || (k.field.Reasoning? && c.content != "" && !HasContent(earlier, k.choice)))
  }

  /** The `i`-th entry of input `j` ends field `k`, fed `p` bytes by then. */
  predicate EntryEnds(inputs: seq<Input>, k: Key, p: nat, j: nat, i: nat) {
    && j < |inputs| && i < |ChoicesIn(inputs[j])| && !k.field.ToolArguments? && k.tool == 0
    && EndsText(Arrived(inputs[..j]) + ChoicesIn(inputs[j])[..i], ChoicesIn(inputs[j])[i], k)
    && p == |Deltas(inputs[..j], k)| + |TextsOf(ChoicesIn(inputs[j])[..i + 1], k)|
  }

  /** Input `j` ends field `k`, fed `p` bytes by then. */
  predicate InputEnds(inputs: seq<Input>, k: Key, p: nat, j: nat) {
    j < |inputs| && Ends(DoneIn(inputs[..j]), inputs[j], k) && p == |Deltas(inputs[..j + 1], k)|
  }

  /**
   Where field `k` may be flushed: at its ends, text also at each entry that ends it, arguments also
   anywhere behind the close of their object.
   */
  ghost predicate FlushPoint(inputs: seq<Input>, k: Key, p: nat) {
    || (k.field.ToolArguments? && p <= |Deltas(inputs, k)| && J.Closes(J.FRESH, Deltas(inputs, k)[..p]))
    || (exists j: nat :: InputEnds(inputs, k, p, j))
    || (exists j: nat, i: nat :: EntryEnds(inputs, k, p, j, i))
  }

  /** No placeholder lies across a flush point. */
  ghost predicate Intact(v: View, inputs: seq<Input>, k: Key) {
    forall p: nat :: FlushPoint(inputs, k, p) ==> IntactAt(v.Whole(), Deltas(inputs, k), p)
  }

  predicate Covers(act: Act, k: Key) {
    match act
    case FlushField(key) => key == k
    case FlushChoice(choice) => choice == k.choice
    case FlushAll => true
    case _ => false
  }

  /** The act feeds the arguments of `k` and closes their object. */
  predicate Closing(acts: seq<Act>, k: Key, a: nat) {
    && a < |acts| && acts[a].Feed? && acts[a].key == k && k.field.ToolArguments?
    && J.Closes(J.FRESH, ActsText(acts[..a + 1], k))
  }

  lemma NothingFed(k: Key)
    ensures KeyOps([], k) == [] && OpsIn([]) == []
  {
  }

  lemma ActsTextSnoc(acts: seq<Act>, act: Act, k: Key)
    ensures ActsText(acts + [act], k) == if act.Feed? && act.key == k then ActsText(acts, k) + act.fragment else ActsText(acts, k)
  {
    SnocParts(acts, act);
  }

  /** Every flush of a demasker comes from an act that flushes its field, or closes its object. */
  lemma {:induction false} FlushAct(acts: seq<Act>, k: Key, i: nat) returns (a: nat)
    requires i < |KeyOps(acts, k)| && KeyOps(acts, k)[i].flush
    ensures a < |acts| && (Covers(acts[a], k) || Closing(acts, k, a))
    ensures Fed(KeyOps(acts, k)[..i + 1]) == ActsText(acts[..a + 1], k)
  {
    hide KeyOps, Fed, ActsText, AfterAct, J.Closes;
    if acts == [] {
      assert KeyOps(acts, k) == [] by { NothingFed(k); }
    } else {
      var n := |acts| - 1;
      var before, ops := acts[..n], KeyOps(acts[..n], k);
      SnocEq(acts);
      KeyOpsSnoc(before, acts[n]);
      if i < |ops| {
        OpsGrow(acts[n], k, ops);
        a := FlushAct(before, k, i);
        assert before[..a + 1] == acts[..a + 1] && KeyOps(acts, k)[..i + 1] == ops[..i + 1];
      } else {
        a := n;
        assert acts[..n + 1] == acts;
        DeltasAreFed(acts, k);
        DeltasAreFed(before, k);
        ActsTextSnoc(before, acts[n], k);
        NewFlush(acts[n], k, ops, i);
      }
    }
  }

  lemma OpsGrow(act: Act, k: Key, ops: seq<Op>)
    ensures ops <= AfterAct(act, k, ops)
  {
    hide FeedOp;
  }

  lemma NewFlush(act: Act, k: Key, ops: seq<Op>, i: nat)
    requires |ops| <= i < |AfterAct(act, k, ops)| && AfterAct(act, k, ops)[i].flush
    ensures Fed(AfterAct(act, k, ops)[..i + 1]) == Fed(AfterAct(act, k, ops))
    ensures Covers(act, k)
            || (act.Feed? && act.key == k && k.field.ToolArguments? && J.Closes(J.FRESH, Fed(ops) + act.fragment))
  {
    hide Fed, J.Closes, J.Run;
    var after := AfterAct(act, k, ops);
    FedSnoc(ops, FLUSH);
    FedSnoc(ops + [FLUSH], FLUSH);
    assert Fed(ops) + "" == Fed(ops);
    if act.Feed? { J.RunAppend(J.FRESH, Fed(ops), act.fragment); }
    assert after[..|after|] == after;
    if i + 1 < |after| {
      assert after[..i + 1] == ops + [FLUSH];
    }
  }

  // ---- which acts those are ----

  predicate OnlyFeeds(acts: seq<Act>) {
    forall a :: a in acts ==> a.Feed?
  }

  lemma {:induction false} ToolActsFeed(choice: int, ts: seq<Tool>)
    ensures OnlyFeeds(ToolActs(choice, ts))
  {
    if ts != [] { ToolActsFeed(choice, ts[..|ts| - 1]); }
  }

  lemma {:induction false} DeltaActsFeed(cs: seq<Choice>)
    ensures OnlyFeeds(AllToolActs(cs)) && OnlyFeeds(CallActs(cs))
  {
    hide ToolActs;
    if cs != [] {
      DeltaActsFeed(cs[..|cs| - 1]);
      ToolActsFeed(cs[|cs| - 1].index, cs[|cs| - 1].tools);
    }
  }

  lemma {:induction false} FinishedBy(cs: seq<Choice>, x: nat)
    requires x < |FinishActs(cs)|
    ensures FinishActs(cs)[x].FlushChoice? && exists c :: c in cs && c.index == FinishActs(cs)[x].choice && c.finish != ""
  {
    var before, c := cs[..|cs| - 1], cs[|cs| - 1];
    if x < |FinishActs(before)| {
      FinishedBy(before, x);
    } else {
      assert c in cs;
    }
  }

  /** The text of the first `x` acts and the one after them. */
  lemma ActsTextSplit(a: seq<Act>, b: seq<Act>, x: nat, k: Key)
    requires x < |b|
    ensures (a + b)[..|a| + x + 1] == a + b[..x + 1]
    ensures ActsText((a + b)[..|a| + x + 1], k) == ActsText(a, k) + ActsText(b[..x + 1], k)
  {
    assert (a + b)[..|a| + x + 1] == a + b[..x + 1];
    ActsTextAppend(a, b[..x + 1], k);
  }

  lemma StartedAfterIs(started: set<int>, c: Choice, choice: int)
    ensures choice in StartedAfter(started, c) <==> choice in started || (c.index == choice && c.content != "")
  {
  }

  lemma {:induction false} AllStartedIs(started: set<int>, cs: seq<Choice>, choice: int)
    ensures choice in AllStarted(started, cs) <==> choice in started || HasContent(cs, choice)
  {
    if cs != [] {
      SnocEq(cs);
      AllStartedIs(started, cs[..|cs| - 1], choice);
      StartedAfterIs(AllStarted(started, cs[..|cs| - 1]), cs[|cs| - 1], choice);
    }
  }

  lemma ContentAppend(a: seq<Choice>, b: seq<Choice>, choice: int)
    ensures HasContent(a + b, choice) <==> HasContent(a, choice) || HasContent(b, choice)
  {
    assert forall c :: c in a + b <==> c in a || c in b;
  }

  lemma {:induction false} StartedIs(inputs: seq<Input>, choice: int)
    ensures choice in Started(inputs) <==> HasContent(Arrived(inputs), choice)
  {
    hide HasContent, AllStarted;
    if inputs == [] {
      NoContent(choice);
    } else {
      var before, input := inputs[..|inputs| - 1], inputs[|inputs| - 1];
      StartedIs(before, choice);
      AllStartedIs(Started(before), ChoicesIn(input), choice);
      ContentAppend(Arrived(before), ChoicesIn(input), choice);
      NoContent(choice);
    }
  }

  lemma NoContent(choice: int)
    ensures !HasContent([], choice) && forall started :: AllStarted(started, []) == started
  {
  }

  /** An entry's own flush of a text field comes after its part of the text. */
  lemma OwnFlush(started: set<int>, c: Choice, k: Key, x: nat)
    requires x < |TextActs(started, c)| && Covers(TextActs(started, c)[x], k)
    ensures c.index == k.choice && (c.finish != "" || (k == TextKey(c.index, Reasoning) && c.content != "" && c.index !in started))
    ensures !k.field.ToolArguments? && k.tool == 0 ==>
              ActsText(TextActs(started, c)[..x + 1], k) == if k.field.Content? then c.content else c.reasoning
  {
    hide ActsText;
    var a1, a2, a3 := FeedActs(c.index, Reasoning, c.reasoning), StartActs(started, c), FeedActs(c.index, Content, c.content);
    var a4 := if c.finish == "" then [] else [FlushChoice(c.index)];
    var acts := TextActs(started, c);
    assert acts == a1 + a2 + a3 + a4;
    if x == |acts| - 1 && c.finish != "" {
      assert acts[..x + 1] == acts;
      TextActsText(started, c, k);
    } else {
      assert acts[x] == a2[0] && acts[..x + 1] == a1 + a2;
      ActsTextAppend(a1, a2, k);
      FeedActsText(c.index, Reasoning, c.reasoning, k);
      ActsTextOne(a2[0], k);
    }
  }

  lemma {:induction false} TextFlush(earlier: seq<Choice>, started: set<int>, cs: seq<Choice>, k: Key, x: nat) returns (i: nat)
    requires x < |AllTextActs(started, cs)| && Covers(AllTextActs(started, cs)[x], k)
    requires k.choice in started <==> HasContent(earlier, k.choice)
    ensures i < |cs| && cs[i].index == k.choice && (cs[i].finish != "" || EndsText(earlier + cs[..i], cs[i], k))
    ensures k.field.ToolArguments? ==> cs[i].finish != ""
    ensures !k.field.ToolArguments? && k.tool == 0 ==>
              ActsText(AllTextActs(started, cs)[..x + 1], k) == TextsOf(cs[..i + 1], k)
  {
    hide ActsText, TextActs, HasContent, Covers;
    var n := |cs| - 1;
    var before, c := cs[..n], cs[n];
    var acts := AllTextActs(started, before);
    if x < |acts| {
      i := TextFlush(earlier, started, before, k, x);
      assert before[..i] == cs[..i] && before[..i + 1] == cs[..i + 1];
      assert AllTextActs(started, cs)[..x + 1] == acts[..x + 1];
    } else {
      i := n;
      assert cs[..n + 1] == cs;
      OwnFlush(AllStarted(started, before), c, k, x - |acts|);
      ActsTextSplit(acts, TextActs(AllStarted(started, before), c), x - |acts|, k);
      AllTextActsText(started, before, k);
      AllStartedIs(started, before, k.choice);
      ContentAppend(earlier, before, k.choice);
    }
  }

  /** What the acts of a chunk flush, they flush at its ends. */
  lemma ChunkFlush(before: seq<Input>, chunk: Chunk, k: Key, x: nat) returns (i: nat)
    requires x < |ChunkActs(Started(before), chunk)| && Covers(ChunkActs(Started(before), chunk)[x], k)
    ensures var text := ActsText(ChunkActs(Started(before), chunk)[..x + 1], k);
            || (text == ChunkText(chunk, k) && exists c :: c in chunk.choices && c.index == k.choice && c.finish != "")
            || (!k.field.ToolArguments? && k.tool == 0 && i < |chunk.choices| && text == TextsOf(chunk.choices[..i + 1], k)
                && EndsText(Arrived(before) + chunk.choices[..i], chunk.choices[i], k))
            || (!k.field.ToolArguments? && k.tool != 0)
  {
    hide ActsText, AllToolActs, CallActs, AllTextActs, FinishActs, Covers, HasContent, Arrived, Started, TextsOf, ToolsText, CallsText;
    var cs, started := chunk.choices, Started(before);
    var deltas := AllToolActs(cs) + CallActs(cs);
    var texts := AllTextActs(started, cs);
    DeltaActsFeed(cs);
    i := 0;
    ActsTextAppend(AllToolActs(cs), CallActs(cs), k);
    AllToolActsText(cs, k);
    CallActsText(cs, k);
    AllTextActsText(started, cs, k);
    assert ActsText(deltas, k) + "" == ActsText(deltas, k);
    assert ChunkActs(started, chunk) == deltas + (texts + FinishActs(cs));
    NotAmongFeeds(deltas, texts + FinishActs(cs), k, x);
    if x < |deltas| + |texts| {
      var y := x - |deltas|;
      assert ChunkActs(started, chunk)[x] == texts[y];
      StartedIs(before, k.choice);
      i := TextFlush(Arrived(before), started, cs, k, y);
      ActsTextSplit(deltas, texts, y, k);
      assert ChunkActs(started, chunk)[..x + 1] == (deltas + texts)[..x + 1];
      NoArguments(texts[..y + 1], started, cs, k, y + 1);
    } else {
      var y := x - |deltas| - |texts|;
      assert ChunkActs(started, chunk)[x] == FinishActs(cs)[y];
      FinishedBy(cs, y);
      CoversItsChoice(FinishActs(cs)[y], k);
      ActsTextSplit(deltas + texts, FinishActs(cs), y, k);
      ActsTextAppend(deltas, texts, k);
      FinishTextNone(cs, y + 1, k);
    }
  }

  lemma NotAmongFeeds(feeds: seq<Act>, others: seq<Act>, k: Key, x: nat)
    requires OnlyFeeds(feeds) && x < |feeds + others| && Covers((feeds + others)[x], k)
    ensures x >= |feeds|
  {
    assert forall i :: 0 <= i < |feeds| ==> (feeds + others)[i] == feeds[i] && feeds[i] in feeds;
  }

  lemma CoversItsChoice(act: Act, k: Key)
    requires Covers(act, k) && act.FlushChoice?
    ensures act.choice == k.choice
  {
  }

  lemma PrefixTextNone(acts: seq<Act>, n: nat, k: Key)
    requires n <= |acts| && ActsText(acts, k) == ""
    ensures ActsText(acts[..n], k) == ""
  {
    assert acts == acts[..n] + acts[n..];
    ActsTextAppend(acts[..n], acts[n..], k);
  }

  lemma NoArguments(part: seq<Act>, started: set<int>, cs: seq<Choice>, k: Key, n: nat)
    requires n <= |AllTextActs(started, cs)| && part == AllTextActs(started, cs)[..n]
    ensures k.field.ToolArguments? ==> ActsText(part, k) == ""
  {
    AllTextActsText(started, cs, k);
    if k.field.ToolArguments? { PrefixTextNone(AllTextActs(started, cs), n, k); }
  }

  lemma FinishTextNone(cs: seq<Choice>, n: nat, k: Key)
    requires n <= |FinishActs(cs)|
    ensures ActsText(FinishActs(cs)[..n], k) == ""
  {
    FinishActsText(cs, k);
    PrefixTextNone(FinishActs(cs), n, k);
  }

  /** A field is flushed at its flush points only. */
  lemma {:induction false} CoveredAtPoint(inputs: seq<Input>, k: Key, a: nat)
    requires Live(k) && a < |Acts(inputs)| && Covers(Acts(inputs)[a], k)
    ensures var p := |ActsText(Acts(inputs)[..a + 1], k)|;
            (exists j: nat :: InputEnds(inputs, k, p, j)) || (exists j: nat, i: nat :: EntryEnds(inputs, k, p, j, i))
  {
    hide ActsText, Deltas, Covers, InputActs, TextsOf, Arrived, EndsText, Ends;
    var n := |inputs| - 1;
    var before, input := inputs[..n], inputs[n];
    var acts := Acts(before);
    var p := |ActsText(Acts(inputs)[..a + 1], k)|;
    if a < |acts| {
      assert Acts(inputs)[..a + 1] == acts[..a + 1];
      CoveredAtPoint(before, k, a);
      if j: nat :| InputEnds(before, k, p, j) {
        assert before[..j] == inputs[..j] && before[..j + 1] == inputs[..j + 1];
        assert InputEnds(inputs, k, p, j);
      } else {
        var j: nat, i: nat :| EntryEnds(before, k, p, j, i);
        assert before[..j] == inputs[..j];
        assert EntryEnds(inputs, k, p, j, i);
      }
    } else {
      var more := InputActs(Started(before), DoneIn(before), input);
      ActsTextSplit(acts, more, a - |acts|, k);
      ActsCarryDeltas(before, k);
      var j, i := InputPoint(before, input, k, a - |acts|);
      assert inputs[..n + 1] == inputs;
      DeltasLength(before, input, k);
      SnocEq(inputs);
      if j == 0 {
        assert InputEnds(inputs, k, p, n);
      } else {
        assert EntryEnds(inputs, k, p, n, i);
      }
    }
  }

  lemma DeltasLength(before: seq<Input>, input: Input, k: Key)
    ensures |Deltas(before + [input], k)| == |Deltas(before, k)| + |InputText(input, k)|
  {
    SnocParts(before, input);
  }

  /** The same for the acts of one input: at its end (`how` is 0) or at one of its entries. */
  lemma InputPoint(before: seq<Input>, input: Input, k: Key, x: nat) returns (how: nat, i: nat)
    requires Live(k) && x < |InputActs(Started(before), DoneIn(before), input)|
    requires Covers(InputActs(Started(before), DoneIn(before), input)[x], k)
    ensures var p := |ActsText(InputActs(Started(before), DoneIn(before), input)[..x + 1], k)|;
            if how == 0 then Ends(DoneIn(before), input, k) && p == |InputText(input, k)|
            else
              && i < |ChoicesIn(input)| && !k.field.ToolArguments? && k.tool == 0
              && EndsText(Arrived(before) + ChoicesIn(input)[..i], ChoicesIn(input)[i], k)
              && p == |TextsOf(ChoicesIn(input)[..i + 1], k)|
  {
    hide ActsText, ChunkActs, TextsOf, Arrived, EndsText, ChunkText;
    var acts := InputActs(Started(before), DoneIn(before), input);
    how, i := 0, 0;
    OneFlush(k);
    match input
    case Frame(Data(Some(chunk)), _) =>
      assert x > 0;
      ActsTextSplit([Merge(chunk.choices)], ChunkActs(Started(before), chunk), x - 1, k);
      ActsTextOne(Merge(chunk.choices), k);
      i := ChunkFlush(before, chunk, k, x - 1);
      if !(exists c :: c in chunk.choices && c.index == k.choice && c.finish != "")
         || ActsText(ChunkActs(Started(before), chunk)[..x], k) != ChunkText(chunk, k) {
        how := 1;
      }
    case _ =>
  }

  lemma OneFlush(k: Key)
    ensures ActsText([FlushAll][..1], k) == ""
  {
    assert [FlushAll][..1] == [FlushAll];
    ActsTextOne(FlushAll, k);
  }

  // ---- reasoning comes before content ----

  lemma {:induction false} ContentHasText(cs: seq<Choice>, choice: int)
    requires HasContent(cs, choice)
    ensures TextsOf(cs, TextKey(choice, Content)) != ""
  {
    SnocEq(cs);
    var before, c := cs[..|cs| - 1], cs[|cs| - 1];
    if HasContent(before, choice) {
      ContentHasText(before, choice);
    } else {
      var x :| x in cs && x.index == choice && x.content != "";
      assert x == c;
    }
  }

  lemma {:induction false} StartedHasText(inputs: seq<Input>, choice: int)
    requires choice in Started(inputs)
    ensures Deltas(inputs, TextKey(choice, Content)) != ""
  {
    hide AllStarted, HasContent, TextsOf;
    var before, input := inputs[..|inputs| - 1], inputs[|inputs| - 1];
    if choice in Started(before) {
      StartedHasText(before, choice);
    } else {
      AllStartedIs(Started(before), ChoicesIn(input), choice);
      ContentHasText(ChoicesIn(input), choice);
    }
  }

  /** Content is fed right after its choice's reasoning was flushed, unless some was fed before. */
  lemma {:induction false} ContentFollows(started: set<int>, cs: seq<Choice>, choice: int, x: nat)
    requires var acts := AllTextActs(started, cs); x < |acts| && acts[x].Feed? && acts[x].key == TextKey(choice, Content)
    ensures var acts := AllTextActs(started, cs);
            || choice in started || ActsText(acts[..x], TextKey(choice, Content)) != ""
            || (x > 0 && acts[x - 1] == FlushField(TextKey(choice, Reasoning)))
  {
    hide ActsText, HasContent, TextsOf;
    var before, c, acts := cs[..|cs| - 1], cs[|cs| - 1], AllTextActs(started, cs[..|cs| - 1]);
    var own := TextActs(AllStarted(started, before), c);
    if x < |acts| {
      ContentFollows(started, before, choice, x);
      assert AllTextActs(started, cs)[..x] == acts[..x];
    } else {
      var y := x - |acts|;
      OwnContent(AllStarted(started, before), c, choice, y);
      if choice in AllStarted(started, before) && choice !in started {
        AllStartedIs(started, before, choice);
        ContentHasText(before, choice);
        AllTextActsText(started, before, TextKey(choice, Content));
        assert (acts + own)[..x] == acts + own[..y];
        ActsTextAppend(acts, own[..y], TextKey(choice, Content));
      }
    }
  }

  lemma OwnContent(started: set<int>, c: Choice, choice: int, y: nat)
    requires var own := TextActs(started, c); y < |own| && own[y].Feed? && own[y].key == TextKey(choice, Content)
    ensures c.index == choice
    ensures choice !in started ==> y > 0 && TextActs(started, c)[y - 1] == FlushField(TextKey(choice, Reasoning))
  {
  }

  /** Nothing of a choice's reasoning is held back when the first of its content is fed. */
  lemma {:induction false} ReasoningBeforeContent(inputs: seq<Input>, choice: int, a: nat)
    requires a < |Acts(inputs)| && Acts(inputs)[a].Feed? && Acts(inputs)[a].key == TextKey(choice, Content)
    requires ActsText(Acts(inputs)[..a], TextKey(choice, Content)) == ""
    ensures Segments(KeyOps(Acts(inputs)[..a], TextKey(choice, Reasoning))).1 == ""
  {
    hide ActsText, KeyOps, Segments, InputActs, TextsOf, Deltas;
    var n := |inputs| - 1;
    var before, input, acts := inputs[..n], inputs[n], Acts(inputs[..n]);
    if a < |acts| {
      assert Acts(inputs)[..a] == acts[..a];
      ReasoningBeforeContent(before, choice, a);
    } else {
      var more, y := InputActs(Started(before), DoneIn(before), input), a - |acts|;
      assert Acts(inputs)[..a] == acts + more[..y];
      ActsTextAppend(acts, more[..y], TextKey(choice, Content));
      ActsCarryDeltas(before, TextKey(choice, Content));
      if choice in Started(before) { StartedHasText(before, choice); }
      InputContent(Started(before), DoneIn(before), input, choice, y);
      assert Acts(inputs)[..a] == Acts(inputs)[..a - 1] + [more[y - 1]];
      JustFlushed(Acts(inputs)[..a - 1], TextKey(choice, Reasoning));
    }
  }

  lemma JustFlushed(acts: seq<Act>, k: Key)
    ensures Segments(KeyOps(acts + [FlushField(k)], k)).1 == ""
  {
    KeyOpsSnoc(acts, FlushField(k));
    SnocParts(KeyOps(acts, k), FLUSH);
  }

  lemma InputContent(started: set<int>, done: bool, input: Input, choice: int, y: nat)
    requires var more := InputActs(started, done, input); y < |more| && more[y].Feed? && more[y].key == TextKey(choice, Content)
    requires choice !in started && ActsText(InputActs(started, done, input)[..y], TextKey(choice, Content)) == ""
    ensures y > 0 && InputActs(started, done, input)[y - 1] == FlushField(TextKey(choice, Reasoning))
  {
    hide ActsText, AllToolActs, CallActs, AllTextActs, FinishActs;
    var more, cs, k := InputActs(started, done, input), ChoicesIn(input), TextKey(choice, Content);
    var front, texts := [Merge(cs)] + AllToolActs(cs) + CallActs(cs), AllTextActs(started, cs);
    assert more == front + texts + FinishActs(cs);
    ChoiceActsProper(started, cs);
    ArgumentsOnly(cs);
    assert forall x :: 0 <= x < |front| ==> more[x] in [Merge(cs)] || more[x] in AllToolActs(cs) || more[x] in CallActs(cs);
    assert forall x :: |front| + |texts| <= x < |more| ==> more[x] in FinishActs(cs);
    var x := y - |front|;
    assert more[y] == texts[x] && more[..y] == front + texts[..x];
    ActsTextAppend(front, texts[..x], k);
    ContentFollows(started, cs, choice, x);
  }

  lemma {:induction false} ToolArgumentsOnly(choice: int, ts: seq<Tool>)
    ensures forall a :: a in ToolActs(choice, ts) ==> a.Feed? && a.key.field.ToolArguments?
  {
    if ts != [] { ToolArgumentsOnly(choice, ts[..|ts| - 1]); }
  }

  lemma {:induction false} ArgumentsOnly(cs: seq<Choice>)
    ensures forall a :: a in AllToolActs(cs) || a in CallActs(cs) ==> a.Feed? && a.key.field.ToolArguments?
  {
    hide ToolActs;
    if cs != [] {
      ArgumentsOnly(cs[..|cs| - 1]);
      ToolArgumentsOnly(cs[|cs| - 1].index, cs[|cs| - 1].tools);
    }
  }

  lemma FlushedAtPoint(inputs: seq<Input>, k: Key, i: nat)
    requires i < |KeyOps(Acts(inputs), k)| && KeyOps(Acts(inputs), k)[i].flush
    ensures FlushPoint(inputs, k, |Fed(KeyOps(Acts(inputs), k)[..i + 1])|)
  {
    hide KeyOps, Acts, ActsText, Deltas, Fed, Covers, InputEnds, EntryEnds, J.Closes;
    ActsProper(inputs);
    if !Live(k) { ProperOps(Acts(inputs), k); }
    var a := FlushAct(Acts(inputs), k, i);
    if Covers(Acts(inputs)[a], k) {
      CoveredAtPoint(inputs, k, a);
    } else {
      ActsCarryDeltas(inputs, k);
      assert Acts(inputs) == Acts(inputs)[..a + 1] + Acts(inputs)[a + 1..];
      ActsTextAppend(Acts(inputs)[..a + 1], Acts(inputs)[a + 1..], k);
    }
  }

  lemma IntactIsUnbroken(v: View, inputs: seq<Input>, k: Key)
    requires Intact(v, inputs, k)
    ensures Unbroken(v, Segments(KeyOps(Acts(inputs), k)).0)
  {
    hide KeyOps, Acts, ActsText, Deltas, FlushPoint, IntactAt, View.Whole, Unbroken, Segments;
    var ops := KeyOps(Acts(inputs), k);
    forall i: nat | i < |ops| && ops[i].flush
      ensures IntactAt(v.Whole(), Deltas(inputs, k), |Fed(ops[..i + 1])|)
    {
      FlushedAtPoint(inputs, k, i);
    }
    DeltasAreFed(Acts(inputs), k);
    ActsCarryDeltas(inputs, k);
    FlushedIntact(v, ops, Deltas(inputs, k));
  }

  /** Nothing is fed after a [DONE]. */
  predicate QuietAfterDone(inputs: seq<Input>) {
    inputs == [] ||
    var before, input := inputs[..|inputs| - 1], inputs[|inputs| - 1];
    QuietAfterDone(before) && (DoneIn(before) ==> !Feeding(input))
  }

  predicate Feeding(input: Input) {
    input.Frame? && input.kind.Data? && input.kind.chunk.Some? && HasData(input.kind.chunk.value)
  }

  lemma QuietInput(started: set<int>, done: bool, input: Input)
    requires !Feeding(input)
    ensures Flushing(InputActs(started, done, input))
  {
    hide AllToolActs, CallActs, AllTextActs, FinishActs, AllStarted, HasText, HasToolCalls, HasFunctionCall;
    if input.Frame? && input.kind.Data? && input.kind.chunk.Some? {
      var chunk := input.kind.chunk.value;
      Guards(started, chunk);
      ChoiceActsProper(started, chunk.choices);
    }
  }

  lemma {:induction false} QuietIsClosed(inputs: seq<Input>, k: Key)
    requires QuietAfterDone(inputs) && DoneIn(inputs)
    ensures Closed(KeyOps(Acts(inputs), k))
  {
    hide KeyOps, Feeding, InputActs;
    var before, input := inputs[..|inputs| - 1], inputs[|inputs| - 1];
    var more := InputActs(Started(before), DoneIn(before), input);
    if DoneIn(before) {
      QuietIsClosed(before, k);
      QuietInput(Started(before), DoneIn(before), input);
      StaysClosed(Acts(before), more, k);
    } else {
      DoneActs(Started(before), false, input);
      ActsProper(before);
      FlushCloses(before, Acts(before), FlushAll, [], k);
      assert Acts(before) + [FlushAll] + [] == Acts(before) + [FlushAll];
    }
  }

  lemma DoneActs(started: set<int>, done: bool, input: Input)
    ensures IsDone(input) || (input.EndOfStream? && !done) ==> InputActs(started, done, input) == [FlushAll]
    ensures input.EndOfStream? && done ==> InputActs(started, done, input) == []
    ensures input.EndOfStream? ==> InputText(input, Key(0, 0, Content)) == ""
  {
  }

  /** The end of the stream finds or leaves every field flushed. */
  lemma EndCloses(body: seq<Input>, k: Key)
    requires QuietAfterDone(body)
    ensures Closed(KeyOps(Acts(body + [EndOfStream]), k))
  {
    hide KeyOps, Acts, DoneIn, Started, InputActs;
    Advance(body, EndOfStream);
    DoneActs(Started(body), DoneIn(body), EndOfStream);
    if DoneIn(body) {
      QuietIsClosed(body, k);
      assert Acts(body) + [] == Acts(body);
    } else {
      ActsProper(body);
      FlushCloses(body, Acts(body), FlushAll, [], k);
      assert Acts(body) + [FlushAll] + [] == Acts(body) + [FlushAll];
    }
  }

  lemma DeltasEnd(body: seq<Input>, k: Key)
    ensures Deltas(body + [EndOfStream], k) == Deltas(body, k)
  {
    SnocParts(body, EndOfStream);
    assert Deltas(body, k) + "" == Deltas(body, k);
  }
}
