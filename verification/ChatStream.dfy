/** What a whole chat-completions stream guarantees, for every run of the processor. */
module ChatStream {
  import opened Text
  import opened Demasking
  import opened DemaskLimits
  import opened FieldStreams
  import opened LongForms
  import opened Reception
  import opened ChatMerge
  import opened ChatArrivals
  import opened ChatDeltas
  import opened ChatCompletions
  import Framing
  import J = JsonClose

  // ---- what is found ----

  /** No act feeds an empty fragment. */
  predicate Filled(acts: seq<Act>) {
    forall a :: a in acts ==> a.Feed? ==> a.fragment != ""
  }

  lemma {:induction false} ToolActsFilled(choice: int, ts: seq<Tool>)
    ensures Filled(ToolActs(choice, ts))
  {
    if ts != [] { ToolActsFilled(choice, ts[..|ts| - 1]); }
  }

  lemma {:induction false} ChoiceActsFilled(started: set<int>, cs: seq<Choice>)
    ensures Filled(AllToolActs(cs)) && Filled(CallActs(cs)) && Filled(AllTextActs(started, cs)) && Filled(FinishActs(cs))
  {
    if cs != [] {
      ChoiceActsFilled(started, cs[..|cs| - 1]);
      ToolActsFilled(cs[|cs| - 1].index, cs[|cs| - 1].tools);
      assert Filled(TextActs(AllStarted(started, cs[..|cs| - 1]), cs[|cs| - 1]));
    }
  }

  lemma {:induction false} ActsFilled(inputs: seq<Input>)
    ensures Filled(Acts(inputs))
  {
    hide AllToolActs, CallActs, AllTextActs, FinishActs, AllStarted;
    if inputs != [] {
      var before, input := inputs[..|inputs| - 1], inputs[|inputs| - 1];
      ActsFilled(before);
      if input.Frame? && input.kind.Data? && input.kind.chunk.Some? {
        ChoiceActsFilled(Started(before), input.kind.chunk.value.choices);
      }
    }
  }

  lemma {:induction false} CallsActive(acts: seq<Act>, k: Key)
    requires Filled(acts)
    ensures Active(KeyCalls(acts, k))
  {
    hide Found, FeedOp, Live;
    if acts != [] {
      assert acts[|acts| - 1] in acts;
      CallsActive(acts[..|acts| - 1], k);
      StaysActive(acts[|acts| - 1], Merged(acts[..|acts| - 1]), k, KeyCalls(acts[..|acts| - 1], k));
    }
  }

  lemma StaysActive(act: Act, merged: seq<Choice>, k: Key, calls: seq<Call>)
    requires Active(calls) && (act.Feed? ==> act.fragment != "")
    ensures Active(CallsAfter(act, merged, k, calls))
  {
    hide Found, Live;
  }

  /** All fields' frames look their choice or call up the same way, except for a tool call numbered -1. */
  predicate Routed(acts: seq<Act>, k: Key) {
    forall a :: a in acts ==>
      && (a.Feed? && a.key == k ==> a.route == FlushRoute(k))
      && (a.FlushField? && a.key == k ==> !k.field.ToolArguments?)
  }

  /** Whenever the field is fed, its frame can be built from the state merged so far. */
  predicate FedFound(acts: seq<Act>, k: Key) {
    acts == [] ||
    var before, act := acts[..|acts| - 1], acts[|acts| - 1];
    FedFound(before, k) && (act.Feed? && act.key == k ==> Found(Merged(before), k, act.route))
  }

  lemma FoundStays(act: Act, merged: seq<Choice>, k: Key, route: Route)
    requires Found(merged, k, route)
    ensures Found(AfterMerge(act, merged), k, route)
  {
    hide Found, MergeAll;
    if act.Merge? { MergeAllKeeps(merged, act.choices, k, route); }
  }

  /** Flushing makes no difference: what was found when fed is found when flushed. */
  lemma {:induction false} ReachesWhenFedFound(acts: seq<Act>, k: Key)
    requires Filled(acts) && Routed(acts, k)
    ensures Reaches(KeyCalls(acts, k)) <==> FedFound(acts, k)
    ensures FedFound(acts, k) && KeyCalls(acts, k) != [] ==> Found(Merged(acts), k, FlushRoute(k))
  {
    hide Found, FeedOp, KeyCalls, Merged;
    if acts == [] {
      NoCalls(k);
    } else {
      var before, act := acts[..|acts| - 1], acts[|acts| - 1];
      SnocEq(acts);
      assert act in acts && forall a :: a in before ==> a in acts;
      ReachesWhenFedFound(before, k);
      KeyCallsSnoc(before, act);
      ReachedAfter(act, Merged(before), k, KeyCalls(before, k));
      if Found(Merged(before), k, FlushRoute(k)) { FoundStays(act, Merged(before), k, FlushRoute(k)); }
    }
  }

  lemma NoCalls(k: Key)
    ensures KeyCalls([], k) == [] && Reaches([]) && FedFound([], k)
  {
  }

  /** One act's calls reach if the ones before did and what it feeds is found. */
  lemma ReachedAfter(act: Act, merged: seq<Choice>, k: Key, calls: seq<Call>)
    requires calls != [] && Reaches(calls) ==> Found(merged, k, FlushRoute(k))
    requires act.Feed? && act.key == k ==> act.route == FlushRoute(k) && act.fragment != ""
    requires act.FlushField? && act.key == k ==> !k.field.ToolArguments?
    ensures Reaches(CallsAfter(act, merged, k, calls))
            <==> Reaches(calls) && (act.Feed? && act.key == k ==> Found(merged, k, act.route))
    ensures CallsAfter(act, merged, k, calls) != [] ==> calls != [] || (act.Feed? && act.key == k)
  {
    hide Found, FeedOp, OpsIn, Heard, Active, Reaches, Due;
    if act.Feed? && act.key == k {
      CallSnoc(calls, Call(FeedOp(k, OpsIn(calls), act.fragment), Found(merged, k, act.route)));
      FeedOpChunk(k, OpsIn(calls), act.fragment);
      DueWithText(OpsIn(calls), FeedOp(k, OpsIn(calls), act.fragment));
    }
    var c := FlushCall(merged, k, FlushRoute(k));
    CallSnoc(calls, c);
    SecondFlush(merged, k, calls + [c]);
  }

  lemma FeedOpChunk(k: Key, ops: seq<Op>, fragment: string)
    ensures FeedOp(k, ops, fragment).chunk == fragment
  {
  }

  lemma DueWithText(ops: seq<Op>, op: Op)
    requires op.chunk != ""
    ensures Due(ops, op) != ""
  {
    assert |Due(ops, op)| == |Segments(ops).1| + |op.chunk|;
  }

  /** A second flush right after the first lets nothing go, found or not. */
  lemma {:induction false} SecondFlush(merged: seq<Choice>, k: Key, calls: seq<Call>)
    requires calls != [] && calls[|calls| - 1].op == FLUSH
    ensures Reaches(calls + [FlushCall(merged, k, AsTool)]) <==> Reaches(calls)
  {
    hide Found, Heard, Active, Reaches;
    CallSnoc(calls, FlushCall(merged, k, AsTool));
    assert calls == calls[..|calls| - 1] + [calls[|calls| - 1]];
    CallSnoc(calls[..|calls| - 1], calls[|calls| - 1]);
    SnocParts(OpsIn(calls[..|calls| - 1]), FLUSH);
    assert "" + "" == "";
  }

  // ---- who finds and who does not ----

  /** Acts that feed `k` only when its frame is found in the given state. */
  predicate FindsIn(acts: seq<Act>, k: Key, merged: seq<Choice>) {
    forall a :: a in acts && a.Feed? && a.key == k ==> Found(merged, k, a.route)
  }

  predicate Merging(acts: seq<Act>) {
    exists a :: a in acts && a.Merge?
  }

  lemma {:induction false} FedFoundAppend(acts: seq<Act>, more: seq<Act>, k: Key)
    requires FedFound(acts, k) && !Merging(more) && FindsIn(more, k, Merged(acts))
    ensures FedFound(acts + more, k) && Merged(acts + more) == Merged(acts)
  {
    hide Found;
    if more == [] {
      assert acts + more == acts;
    } else {
      var before := more[..|more| - 1];
      assert forall a :: a in before ==> a in more;
      assert more[|more| - 1] in more;
      FedFoundAppend(acts, before, k);
      assert (acts + more)[..|acts + more| - 1] == acts + before;
    }
  }

  /** A choice's fields as an act of the chunk feeds them. */
  predicate FeedOf(c: Choice, a: Act) {
    && a.Feed? && a.key.choice == c.index
    && match a.route
       case AsText => !a.key.field.ToolArguments?
       case AsTool => a.key.field.ToolArguments? && FeedsTool(c, a.key.tool)
       case AsCall => a.key == ToolKey(c.index, LEGACY) && c.call.Some?
  }

  /** Every feeding act belongs to a choice of the chunk. */
  ghost predicate FeedsOf(cs: seq<Choice>, acts: seq<Act>) {
    && !Merging(acts)
    && (forall a :: a in acts && a.Feed? ==> exists c :: c in cs && FeedOf(c, a))
    && (forall a :: a in acts && a.FlushField? ==> !a.key.field.ToolArguments?)
  }

  lemma {:induction false} ToolFeeds(c: Choice, ts: seq<Tool>)
    requires forall t :: t in ts ==> t in c.tools
    ensures FeedsOf([c], ToolActs(c.index, ts))
  {
    if ts != [] {
      var t := ts[|ts| - 1];
      ToolFeeds(c, ts[..|ts| - 1]);
      if Args(t.fn) != "" {
        assert t in ts;
        assert FeedOf(c, Feed(ToolKey(c.index, t.index), t.fn.value.args, AsTool));
        assert c in [c];
      }
    }
  }

  lemma MoreFeeds(cs: seq<Choice>, ds: seq<Choice>, a: seq<Act>, b: seq<Act>)
    requires FeedsOf(cs, a) && FeedsOf(ds, b)
    ensures FeedsOf(cs + ds, a + b)
  {
    hide FeedOf;
    forall x | x in a + b && x.Feed?
      ensures exists c :: c in cs + ds && FeedOf(c, x)
    {
      if x in a {
        var c :| c in cs && FeedOf(c, x);
        assert c in cs + ds;
      } else {
        var c :| c in ds && FeedOf(c, x);
        assert c in cs + ds;
      }
    }
  }

  lemma {:induction false} ChoiceFeeds(started: set<int>, cs: seq<Choice>)
    ensures FeedsOf(cs, AllToolActs(cs)) && FeedsOf(cs, CallActs(cs)) && FeedsOf(cs, AllTextActs(started, cs))
    ensures FeedsOf(cs, FinishActs(cs))
  {
    if cs != [] {
      var before, c := cs[..|cs| - 1], cs[|cs| - 1];
      SnocEq(cs);
      ChoiceFeeds(started, before);
      ToolFeeds(c, c.tools);
      OneChoiceFeeds(AllStarted(started, before), c);
      MoreFeeds(before, [c], AllToolActs(before), ToolActs(c.index, c.tools));
      MoreFeeds(before, [c], AllTextActs(started, before), TextActs(AllStarted(started, before), c));
      MoreFeeds(before, [c], CallActs(before), if Args(c.call) == "" then [] else [Feed(ToolKey(c.index, LEGACY), c.call.value.args, AsCall)]);
      MoreFeeds(before, [c], FinishActs(before), if c.finish == "" then [] else [FlushChoice(c.index)]);
      assert CallActs(before) + [] == CallActs(before) && FinishActs(before) + [] == FinishActs(before);
    }
  }

  lemma OneChoiceFeeds(started: set<int>, c: Choice)
    ensures FeedsOf([c], TextActs(started, c))
    ensures FeedsOf([c], if Args(c.call) == "" then [] else [Feed(ToolKey(c.index, LEGACY), c.call.value.args, AsCall)])
    ensures FeedsOf([c], if c.finish == "" then [] else [FlushChoice(c.index)])
  {
    assert c in [c];
  }

  /** All deltas of a chunk find their frames in the state with the chunk merged, tool calls if the chunk is sane. */
  lemma ChunkFinds(started: set<int>, chunk: Chunk, merged: seq<Choice>, k: Key)
    requires k.field.ToolArguments? ==> forall c :: c in chunk.choices ==> Sane(c)
    ensures !Merging(ChunkActs(started, chunk)) && FindsIn(ChunkActs(started, chunk), k, MergeAll(merged, chunk.choices))
    ensures Routed(ChunkActs(started, chunk), k)
  {
    hide Found, Sane, FeedsTool, AllToolActs, CallActs, AllTextActs, FinishActs, MergeAll;
    var cs, acts := chunk.choices, ChunkActs(started, chunk);
    ChoiceFeeds(started, cs);
    forall a | a in acts && a.Feed? && a.key == k
      ensures Found(MergeAll(merged, cs), k, a.route) && a.route == FlushRoute(k)
    {
      var c :| c in cs && FeedOf(c, a);
      var i :| 0 <= i < |cs| && cs[i] == c;
      MergeAllBrings(merged, cs, i, k);
      SaneTool(c, k.tool);
    }
  }

  lemma SaneTool(c: Choice, tool: int)
    ensures Sane(c) && FeedsTool(c, tool) ==> tool != LEGACY
  {
  }

  /** Every chunk's deltas are sane. */
  predicate SaneInputs(inputs: seq<Input>) {
    forall i :: i in inputs && i.Frame? && i.kind.Data? && i.kind.chunk.Some? ==>
      forall c :: c in i.kind.chunk.value.choices ==> Sane(c)
  }

  /** Content and reasoning always find their frames, and so do the calls of a well-behaved upstream. */
  lemma {:induction false} WellBehavedFound(inputs: seq<Input>, k: Key)
    requires k.field.ToolArguments? ==> SaneInputs(inputs)
    ensures FedFound(Acts(inputs), k) && Routed(Acts(inputs), k)
  {
    hide Found, Sane, ChunkActs, FindsIn, Merging, Started, Merged, MergeAll;
    if inputs != [] {
      var before, input := inputs[..|inputs| - 1], inputs[|inputs| - 1];
      assert input in inputs && forall i :: i in before ==> i in inputs;
      WellBehavedFound(before, k);
      InputFound(Acts(before), Started(before), DoneIn(before), input, k);
    }
  }

  lemma InputFound(acts: seq<Act>, started: set<int>, done: bool, input: Input, k: Key)
    requires FedFound(acts, k) && Routed(acts, k)
    requires k.field.ToolArguments? ==> SaneInputs([input])
    ensures FedFound(acts + InputActs(started, done, input), k) && Routed(acts + InputActs(started, done, input), k)
  {
    hide Found, Sane, ChunkActs, FedFound, Merged, MergeAll;
    if input.Frame? && input.kind.Data? && input.kind.chunk.Some? && input.kind.chunk.value.choices != [] {
      var chunk := input.kind.chunk.value;
      assert input in [input];
      MergeFound(acts, chunk.choices, k);
      ChunkFinds(started, chunk, Merged(acts), k);
      FedFoundAppend(acts + [Merge(chunk.choices)], ChunkActs(started, chunk), k);
      Reassociate(acts, [Merge(chunk.choices)], ChunkActs(started, chunk));
    } else {
      FedFoundAppend(acts, InputActs(started, done, input), k);
    }
  }

  lemma MergeFound(acts: seq<Act>, choices: seq<Choice>, k: Key)
    requires FedFound(acts, k)
    ensures FedFound(acts + [Merge(choices)], k) && Merged(acts + [Merge(choices)]) == MergeAll(Merged(acts), choices)
  {
    SnocParts(acts, Merge(choices));
  }

  /** So their text always reaches the client. */
  lemma WellBehavedReaches(inputs: seq<Input>, k: Key)
    requires k.field.ToolArguments? ==> SaneInputs(inputs)
    ensures Reaches(KeyCalls(Acts(inputs), k))
  {
    hide Acts, KeyCalls, FedFound, Routed, Filled, Reaches;
    WellBehavedFound(inputs, k);
    ActsFilled(inputs);
    ReachesWhenFedFound(Acts(inputs), k);
  }

  // ---- conservation ----

  /**
   Conservation: at the end of every stream with no data after [DONE], and no flush point inside a
   placeholder, the client has received of each field whose calls find their frames the one-shot
   demasking of all its deltas.
   */
  lemma StreamConserved(views: Key -> View, calls: map<Key, seq<Call>>, outs: seq<Out<Key, Wire>>,
                        closers: map<(int, int), J.Track>, merged: seq<Choice>, frames: seq<Wire>, body: seq<Input>, k: Key)
    requires Core(views, calls, outs, closers, frames) && Follows(calls, merged, Acts(body + [EndOfStream]))
    requires Reaches(KeyCalls(Acts(body + [EndOfStream]), k))
    requires Steady(views(k)) && Fits(views(k), Deltas(body, k)) && QuietAfterDone(body)
    requires Intact(views(k), body + [EndOfStream], k)
    ensures ClientText(outs, k) == OneShot(views(k), Deltas(body, k))
  {
    hide Intact, Steady, Fits, KeyOps, KeyCalls, Merged, Unbroken, Segments, Stream, OneShot, QuietAfterDone, ClientText, Deltas, Acts,
         Closers, Others, Heard, Reaches;
    var all := body + [EndOfStream];
    EndCloses(body, k);
    IntactIsUnbroken(views(k), all, k);
    DeltasAreFed(Acts(all), k);
    ActsCarryDeltas(all, k);
    DeltasEnd(body, k);
    ClosedWhereFits(views(k), KeyOps(Acts(all), k));
    ReachedIsHeard(views(k), KeyCalls(Acts(all), k));
    CallsAreOps(Acts(all), k);
  }

  /**
   Whatever the placeholders are, the client receives all text of a field, restored, if and only if
   every call with text to let go finds its frame in the state merged so far, and no text comes
   after the [DONE] and before the next flush.
   */
  lemma DeliversExactlyWhenFound(body: seq<Input>, k: Key)
    ensures HearsAll(KeyCalls(Acts(body + [EndOfStream]), k))
            <==> Reaches(KeyCalls(Acts(body + [EndOfStream]), k))
                 && (!DoneIn(body) || Segments(KeyOps(Acts(body), k)).1 == "")
  {
    hide HearsAll, Reaches, Acts, DoneIn, Started, Segments, InputActs, KeyOps, KeyCalls, Active, Filled;
    var acts, all := Acts(body), Acts(body + [EndOfStream]);
    Advance(body, EndOfStream);
    DoneActs(Started(body), DoneIn(body), EndOfStream);
    assert acts + [] == acts;
    ActsFilled(body + [EndOfStream]);
    CallsActive(all, k);
    CallsAreOps(all, k);
    HearsAllExactlyWhen(KeyCalls(all, k));
    KeyOpsSnoc(acts, FlushAll);
    ActsProper(body);
    if !Live(k) { ProperOps(acts, k); }
    FlushedIsSettled(k, KeyOps(acts, k));
  }

  // ---- text that is lost ----

  /** A chunk with one choice that carries nothing but tool deltas. */
  function ToolsOnly(ts: seq<Tool>): Input {
    Frame(Data(Some(Chunk([Choice(0, None, "", "", ts, None, "")], false))), "")
  }

  /** The first delta of a choice, with the function of its tool call in a repeated entry only. */
  function RepeatedEntry(args: string): seq<Input> {
    [ToolsOnly([Tool(0, "a", "function", None), Tool(0, "", "", Some(Fn("f", args)))])]
  }

  /** A tool call numbered -1. */
  function NumberedAsLegacy(args: string): seq<Input> {
    [ToolsOnly([Tool(LEGACY, "a", "function", Some(Fn("f", args)))])]
  }

  lemma OneToolDelta(ts: seq<Tool>, tool: int, args: string)
    requires args != "" && ToolActs(0, ts) == [Feed(ToolKey(0, tool), args, AsTool)]
    ensures var c := Choice(0, None, "", "", ts, None, "");
            Acts([ToolsOnly(ts)]) == [Merge([c]), Feed(ToolKey(0, tool), args, AsTool)]
            && Merged([Merge([c])]) == [c] && !DoneIn([ToolsOnly(ts)])
  {
    hide ToolActs, AllToolActs, CallActs, AllTextActs, FinishActs, AllStarted, Merged;
    var c := Choice(0, None, "", "", ts, None, "");
    var cs: seq<Choice> := [c];
    OneMerged(c);
    OneChoiceActs(c);
    assert [ToolsOnly(ts)][..0] == [];
    var acts := [Feed(ToolKey(0, tool), args, AsTool)];
    assert [Merge(cs)] + (acts + [] + [] + []) == [Merge(cs), acts[0]];
  }

  /** A choice with nothing but tool deltas. */
  lemma OneChoiceActs(c: Choice)
    requires c.content == "" && c.reasoning == "" && c.call.None? && c.finish == ""
    ensures AllToolActs([c]) == ToolActs(c.index, c.tools) && CallActs([c]) == []
    ensures AllTextActs({}, [c]) == [] && FinishActs([c]) == []
  {
    hide ToolActs;
    assert [c][..0] == [];
    assert [] + ToolActs(c.index, c.tools) == ToolActs(c.index, c.tools);
  }

  lemma OneMerged(c: Choice)
    requires c.content == "" && c.reasoning == ""
    ensures Merged([Merge([c])]) == [c] && [c][..0] == []
  {
    var none: seq<Choice>, noActs: seq<Act> := [], [];
    assert [c][..0] == none && none + [c] == [c] && c.(content := "", reasoning := "") == c;
    assert noActs + [Merge([c])] == [Merge([c])];
    SnocParts(noActs, Merge([c]));
    assert MergeAll(none, none) == none && FindChoice(none, c.index) == -1;
    assert MergeChoice(none, c) == [c];
  }

  /** The calls of a stream with a single delta for one tool call. */
  lemma OneDeltaCalls(ts: seq<Tool>, tool: int, args: string)
    requires args != "" && ToolActs(0, ts) == [Feed(ToolKey(0, tool), args, AsTool)]
    ensures var k, c := ToolKey(0, tool), Choice(0, None, "", "", ts, None, "");
            KeyCalls(Acts([ToolsOnly(ts)] + [EndOfStream]), k)
            == FlushedCalls([c], k, [Call(Op(args, J.Closes(J.FRESH, args)), Found([c], k, AsTool))])
  {
    hide ToolActs, InputActs, Started, FlushedCalls, Found, Merged, J.Closes, J.Run, KeyCalls, Acts, ToolsOnly, OpsIn, FeedOp;
    var k, c, inputs := ToolKey(0, tool), Choice(0, None, "", "", ts, None, ""), [ToolsOnly(ts)];
    var none: seq<Act>, noCalls: seq<Call> := [], [];
    OneToolDelta(ts, tool, args);
    Advance(inputs, EndOfStream);
    DoneActs(Started(inputs), false, EndOfStream);
    var a1, feed := [Merge([c])], Feed(k, args, AsTool);
    assert none + [Merge([c])] == a1 && a1 + [feed] == Acts(inputs);
    NoCalls(k);
    KeyCallsSnoc(none, Merge([c]));
    KeyCallsSnoc(a1, feed);
    KeyCallsSnoc(a1 + [feed], FlushAll);
    FirstFeed(k, args);
    assert noCalls + [Call(Op(args, J.Closes(J.FRESH, args)), Found([c], k, AsTool))]
           == [Call(Op(args, J.Closes(J.FRESH, args)), Found([c], k, AsTool))];
  }

  lemma OneDeltaText(ts: seq<Tool>, tool: int, args: string)
    requires args != "" && ToolActs(0, ts) == [Feed(ToolKey(0, tool), args, AsTool)]
    ensures Deltas([ToolsOnly(ts)], ToolKey(0, tool)) == args
  {
    hide ToolActs, Acts, Deltas, ActsText, ToolsOnly;
    var k, c := ToolKey(0, tool), Choice(0, None, "", "", ts, None, "");
    var a1, feed := [Merge([c])], Feed(k, args, AsTool);
    OneToolDelta(ts, tool, args);
    ActsCarryDeltas([ToolsOnly(ts)], k);
    assert a1 + [feed] == [Merge([c]), feed];
    ActsTextAppend(a1, [feed], k);
    ActsTextOne(Merge([c]), k);
    ActsTextOne(feed, k);
    assert "" + args == args;
  }

  lemma FirstFeed(k: Key, args: string)
    requires k.field.ToolArguments?
    ensures FeedOp(k, OpsIn([]), args) == Op(args, J.Closes(J.FRESH, args))
  {
    assert Fed([]) == "" && J.Run(J.FRESH, "") == J.FRESH;
  }

  /**
   A repeated entry that comes first without its function hides the function for good: whatever the
   placeholders are, the client receives nothing of the arguments.
   */
  lemma RepeatedEntryLosesText(views: Key -> View, calls: map<Key, seq<Call>>, outs: seq<Out<Key, Wire>>,
                               closers: map<(int, int), J.Track>, merged: seq<Choice>, frames: seq<Wire>, args: string)
    requires args != ""
    requires Core(views, calls, outs, closers, frames) && Follows(calls, merged, Acts(RepeatedEntry(args) + [EndOfStream]))
    ensures Deltas(RepeatedEntry(args), ToolKey(0, 0)) == args && ClientText(outs, ToolKey(0, 0)) == ""
  {
    hide Acts, KeyCalls, ClientText, Deltas, Heard, J.Closes;
    var k := ToolKey(0, 0);
    var ts := [Tool(0, "a", "function", None), Tool(0, "", "", Some(Fn("f", args)))];
    TwoEntries(args);
    OneDeltaCalls(ts, 0, args);
    OneDeltaText(ts, 0, args);
    var c := Choice(0, None, "", "", ts, None, "");
    FirstTool(ts, 0, 0);
    FirstChoice([c], 0, 0);
    assert !Found([c], k, AsTool);
    NothingHeard(views(k), Op(args, J.Closes(J.FRESH, args)));
  }

  lemma TwoEntries(args: string)
    requires args != ""
    ensures ToolActs(0, [Tool(0, "a", "function", None), Tool(0, "", "", Some(Fn("f", args)))]) == [Feed(ToolKey(0, 0), args, AsTool)]
  {
    var ts := [Tool(0, "a", "function", None), Tool(0, "", "", Some(Fn("f", args)))];
    assert ts[..1] == [ts[0]] && [ts[0]][..0] == [];
    assert ToolActs(0, [ts[0]]) == [];
  }

  lemma NothingHeard(v: View, op: Op)
    ensures Heard(v, [Call(op, false)] + [Call(FLUSH, false)]) == ""
  {
    hide Emitted;
    var none: seq<Call> := [];
    assert none + [Call(op, false)] == [Call(op, false)];
    CallSnoc(none, Call(op, false));
    CallSnoc([Call(op, false)], Call(FLUSH, false));
    assert "" + "" == "";
  }

  /** No text of the field is open whenever its choice is flushed. */
  predicate ShutWhenFlushed(acts: seq<Act>, k: Key) {
    acts == [] ||
    var before, act := acts[..|acts| - 1], acts[|acts| - 1];
    && ShutWhenFlushed(before, k)
    && (act.FlushAll? || (act.FlushChoice? && act.choice == k.choice) ==> Segments(KeyOps(before, k)).1 == "")
  }

  /** No delta of the choice brings a legacy function call. */
  predicate WithoutCall(cs: seq<Choice>, choice: int) {
    forall c :: c in cs && c.index == choice ==> c.call.None?
  }

  predicate NoCallMerged(acts: seq<Act>, choice: int) {
    forall a :: a in acts && a.Merge? ==> WithoutCall(a.choices, choice)
  }

  /** No delta of a choice brings a legacy function call, in a whole stream. */
  predicate NoFunctionCall(inputs: seq<Input>, choice: int) {
    forall i :: i in inputs && i.Frame? && i.kind.Data? && i.kind.chunk.Some? ==> WithoutCall(i.kind.chunk.value.choices, choice)
  }

  lemma NoCallStays(cs: seq<Choice>, arriving: Choice, k: Key)
    requires !Found(cs, k, AsCall) && (arriving.index == k.choice ==> arriving.call.None?)
    ensures !Found(MergeChoice(cs, arriving), k, AsCall)
  {
    var i := FindChoice(cs, k.choice);
    if i != -1 {
      FirstChoice(MergeChoice(cs, arriving), k.choice, i);
    } else if arriving.index == k.choice {
      FirstChoice(MergeChoice(cs, arriving), k.choice, |cs|);
    }
  }

  lemma {:induction false} NoCallStaysAll(cs: seq<Choice>, arriving: seq<Choice>, k: Key)
    requires !Found(cs, k, AsCall) && WithoutCall(arriving, k.choice)
    ensures !Found(MergeAll(cs, arriving), k, AsCall)
  {
    hide Found, MergeChoice;
    if arriving != [] {
      NoCallStaysAll(cs, arriving[..|arriving| - 1], k);
      assert arriving[|arriving| - 1] in arriving;
      NoCallStays(MergeAll(cs, arriving[..|arriving| - 1]), arriving[|arriving| - 1], k);
    }
  }

  lemma {:induction false} NoCallFound(acts: seq<Act>, k: Key)
    requires NoCallMerged(acts, k.choice)
    ensures !Found(Merged(acts), k, AsCall)
  {
    hide MergeAll, WithoutCall;
    if acts != [] {
      NoCallFound(acts[..|acts| - 1], k);
      var act := acts[|acts| - 1];
      assert act in acts;
      if act.Merge? { NoCallStaysAll(Merged(acts[..|acts| - 1]), act.choices, k); }
    }
  }

  lemma {:induction false} NoCallInActs(inputs: seq<Input>, choice: int)
    requires NoFunctionCall(inputs, choice)
    ensures NoCallMerged(Acts(inputs), choice)
  {
    hide WithoutCall, AllToolActs, CallActs, AllTextActs, FinishActs, AllStarted;
    if inputs != [] {
      var before, input := inputs[..|inputs| - 1], inputs[|inputs| - 1];
      assert input in inputs && forall i :: i in before ==> i in inputs;
      NoCallInActs(before, choice);
      if input.Frame? && input.kind.Data? && input.kind.chunk.Some? {
        ChoiceFeeds(Started(before), input.kind.chunk.value.choices);
      }
    }
  }

  /**
   Without a legacy function call a tool call numbered -1 is dropped by the flush of its choice, for
   it is looked up as one first.
   */
  lemma {:induction false} ReachesWhenShut(acts: seq<Act>, k: Key)
    requires Filled(acts) && Proper(acts) && NoCallMerged(acts, k.choice) && k == ToolKey(k.choice, LEGACY)
    ensures Reaches(KeyCalls(acts, k)) <==> FedFound(acts, k) && ShutWhenFlushed(acts, k)
  {
    hide Found, FeedOp, KeyCalls, KeyOps, Merged, WithoutCall, Segments;
    if acts == [] {
      NoCalls(k);
    } else {
      var before, act := acts[..|acts| - 1], acts[|acts| - 1];
      SnocEq(acts);
      assert act in acts && forall a :: a in before ==> a in acts;
      ReachesWhenShut(before, k);
      NoCallFound(before, k);
      KeyCallsSnoc(before, act);
      CallsAreOps(before, k);
      LegacyAfter(act, Merged(before), k, KeyCalls(before, k));
    }
  }

  lemma LegacyAfter(act: Act, merged: seq<Choice>, k: Key, calls: seq<Call>)
    requires k == ToolKey(k.choice, LEGACY) && !Found(merged, k, AsCall)
    requires (act.Feed? ==> act.fragment != "") && (act.FlushField? ==> !act.key.field.ToolArguments?)
    ensures Reaches(CallsAfter(act, merged, k, calls))
            <==> Reaches(calls) && (act.Feed? && act.key == k ==> Found(merged, k, act.route))
                 && (act.FlushAll? || (act.FlushChoice? && act.choice == k.choice) ==> Segments(OpsIn(calls)).1 == "")
  {
    hide Found, FeedOp, OpsIn, Heard, Active, Reaches, Segments;
    if act.Feed? && act.key == k {
      CallSnoc(calls, Call(FeedOp(k, OpsIn(calls), act.fragment), Found(merged, k, act.route)));
      FeedOpChunk(k, OpsIn(calls), act.fragment);
      DueWithText(OpsIn(calls), FeedOp(k, OpsIn(calls), act.fragment));
    }
    var c := FlushCall(merged, k, AsCall);
    CallSnoc(calls, c);
    SecondFlush(merged, k, calls + [c]);
    assert Segments(OpsIn(calls)).1 + "" == Segments(OpsIn(calls)).1;
    if calls == [] { NothingOpen(); }
  }

  lemma NothingOpen()
    ensures Segments(OpsIn([])).1 == ""
  {
  }

  /**
   A tool call numbered -1, in a choice without a legacy function call: its text is safe if and only
   if every delta of it finds its function and no text of it is open at any flush of the choice, nor
   at the end.
   */
  lemma NumberedAsLegacyDelivers(body: seq<Input>, choice: int)
    requires NoFunctionCall(body, choice)
    ensures var (k, acts) := (ToolKey(choice, LEGACY), Acts(body));
            HearsAll(KeyCalls(Acts(body + [EndOfStream]), k))
            <==> FedFound(acts, k) && ShutWhenFlushed(acts, k) && Segments(KeyOps(acts, k)).1 == ""
  {
    hide HearsAll, Reaches, Acts, DoneIn, Started, Segments, KeyOps, KeyCalls, Filled, Merged, Found, NoFunctionCall, NoCallMerged,
         WithoutCall, Proper;
    var k, acts, all := ToolKey(choice, LEGACY), Acts(body), Acts(body + [EndOfStream]);
    Advance(body, EndOfStream);
    assert acts + [] == acts;
    SnocParts(acts, FlushAll);
    DeliversExactlyWhenFound(body, k);
    NoCallAtEnd(body, choice);
    NoCallInActs(body + [EndOfStream], choice);
    ActsFilled(body + [EndOfStream]);
    ActsProper(body + [EndOfStream]);
    ReachesWhenShut(all, k);
  }

  /** For example in a stream with one delta for it: exactly when its arguments close in that delta. */
  lemma NumberedAsLegacyLosesTail(args: string)
    requires args != ""
    ensures HearsAll(KeyCalls(Acts(NumberedAsLegacy(args) + [EndOfStream]), ToolKey(0, LEGACY))) <==> J.Closes(J.FRESH, args)
  {
    hide *;
    var k, ts := ToolKey(0, LEGACY), [Tool(LEGACY, "a", "function", Some(Fn("f", args)))];
    var c := Choice(0, None, "", "", ts, None, "");
    LegacyEntry(args);
    OneToolDelta(ts, LEGACY, args);
    NumberedAsLegacyDelivers(NumberedAsLegacy(args), 0);
    FoundAlone(ts, LEGACY);
    OneFedFound([c], k, args);
    OneFedOpen([c], k, args);
  }

  lemma LegacyEntry(args: string)
    requires args != ""
    ensures var ts := [Tool(LEGACY, "a", "function", Some(Fn("f", args)))];
            && NumberedAsLegacy(args) == [ToolsOnly(ts)] && NoFunctionCall(NumberedAsLegacy(args), 0)
            && ToolActs(0, ts) == [Feed(ToolKey(0, LEGACY), args, AsTool)]
            && ts[0].index == LEGACY && ts[0].fn.Some? && ToolKey(0, LEGACY).field.ToolArguments?
  {
    var ts := [Tool(LEGACY, "a", "function", Some(Fn("f", args)))];
    assert ts[..0] == [];
  }

  lemma OneFedFound(cs: seq<Choice>, k: Key, args: string)
    requires Merged([Merge(cs)]) == cs && Found(cs, k, AsTool)
    ensures FedFound([Merge(cs), Feed(k, args, AsTool)], k) && ShutWhenFlushed([Merge(cs), Feed(k, args, AsTool)], k)
  {
    hide Segments, Found, KeyOps, Merged;
    var none: seq<Act>, merge, feed := [], [Merge(cs)], Feed(k, args, AsTool);
    assert none + [Merge(cs)] == merge && merge + [feed] == [Merge(cs), feed];
    SnocParts(none, Merge(cs));
    SnocParts(merge, feed);
    assert FedFound(merge, k) && ShutWhenFlushed(merge, k);
  }

  lemma OneFedOpen(cs: seq<Choice>, k: Key, args: string)
    requires args != "" && k.field.ToolArguments?
    ensures Segments(KeyOps([Merge(cs), Feed(k, args, AsTool)], k)).1 == "" <==> J.Closes(J.FRESH, args)
  {
    hide J.Closes, J.Run, Segments, KeyOps, FeedOp, OpsIn;
    var none: seq<Act>, merge, feed := [], [Merge(cs)], Feed(k, args, AsTool);
    var op := Op(args, J.Closes(J.FRESH, args));
    assert none + [Merge(cs)] == merge && merge + [feed] == [Merge(cs), feed];
    KeyOpsSnoc(none, Merge(cs));
    KeyOpsSnoc(merge, feed);
    FirstFeed(k, args);
    NothingFed(k);
    OneOpOpen(op);
  }

  lemma FoundAlone(ts: seq<Tool>, tool: int)
    requires |ts| == 1 && ts[0].index == tool && ts[0].fn.Some?
    ensures Found([Choice(0, None, "", "", ts, None, "")], ToolKey(0, tool), AsTool)
  {
    FirstTool(ts, tool, 0);
    FirstChoice([Choice(0, None, "", "", ts, None, "")], 0, 0);
  }

  lemma OneOpOpen(op: Op)
    requires op.chunk != ""
    ensures Segments([] + [op]).1 == "" <==> op.flush
  {
    var none: seq<Op> := [];
    SnocParts(none, op);
  }

  lemma NoCallAtEnd(body: seq<Input>, choice: int)
    requires NoFunctionCall(body, choice)
    ensures NoFunctionCall(body + [EndOfStream], choice)
  {
    hide WithoutCall;
  }

  lemma FlushedIsSettled(k: Key, ops: seq<Op>)
    requires Live(k) || ops == []
    ensures Segments(Flushed(k, ops)).1 == ""
  {
    SnocParts(ops, FLUSH);
    SnocParts(ops + [FLUSH], FLUSH);
  }

  lemma {:induction false} FinishAt(cs: seq<Choice>, k: Key) returns (before: seq<Act>, more: seq<Act>)
    requires exists c :: c in cs && c.index == k.choice && c.finish != ""
    ensures FinishActs(cs) == before + [FlushChoice(k.choice)] + more && Flushing(before) && Flushing(more)
  {
    var init, last := cs[..|cs| - 1], cs[|cs| - 1];
    ChoiceActsProper({}, init);
    if last.index == k.choice && last.finish != "" {
      before, more := FinishActs(init), [];
    } else {
      assert forall c :: c in cs ==> c in init || c == last;
      before, more := FinishAt(init, k);
      if last.finish != "" {
        Reassociate(before + [FlushChoice(k.choice)], more, [FlushChoice(last.index)]);
        more := more + [FlushChoice(last.index)];
      }
    }
  }

  lemma EndingCloses(inputs: seq<Input>, input: Input, k: Key)
    requires Ends(DoneIn(inputs), input, k)
    ensures Closed(KeyOps(Acts(inputs + [input]), k))
  {
    hide KeyOps, Acts, DoneIn, Started, AllToolActs, CallActs, AllTextActs, FinishActs, AllStarted;
    Advance(inputs, input);
    ActsProper(inputs);
    var acts := Acts(inputs);
    if input.Frame? && input.kind.Data? && input.kind.chunk.Some? {
      var cs := input.kind.chunk.value.choices;
      ChoiceActsProper(Started(inputs), cs);
      var before, more := FinishAt(cs, k);
      var deltas := AllToolActs(cs) + CallActs(cs) + AllTextActs(Started(inputs), cs);
      var head := acts + ([Merge(cs)] + deltas);
      FlushCloses(inputs, head + before, FlushChoice(k.choice), more, k);
      Reassociate([Merge(cs)], deltas, before + [FlushChoice(k.choice)] + more);
      Regroup(acts, [Merge(cs)] + deltas, before, [FlushChoice(k.choice)], more);
    } else {
      FlushCloses(inputs, acts, FlushAll, [], k);
      assert acts + [FlushAll] + [] == acts + [FlushAll];
    }
  }

  lemma Regroup<T>(a: seq<T>, b: seq<T>, c: seq<T>, d: seq<T>, e: seq<T>)
    ensures a + (b + (c + d + e)) == a + b + c + d + e
  {
  }

  /** The field is fed and flushed as its frames can be built, under a demasker fit for its text. */
  ghost predicate Ending(views: Key -> View, inputs: seq<Input>, j: nat, k: Key)
    requires j < |inputs|
  {
    && Ends(DoneIn(inputs[..j]), inputs[j], k) && Reaches(KeyCalls(Acts(inputs[..j + 1]), k))
    && Steady(views(k)) && Fits(views(k), Deltas(inputs[..j + 1], k))
  }

  /**
   The first `n` frames end with the one that closes input `j`, and the text before it is all the
   field was fed, restored.
   */
  ghost predicate EndSettled(views: Key -> View, outs: seq<Out<Key, Wire>>, n: nat, inputs: seq<Input>, j: nat, k: Key)
    requires j < |inputs|
  {
    var ops := KeyOps(Acts(inputs[..j + 1]), k);
    && n <= |outs| && Others(outs[..n]) == Frames(inputs[..j + 1])
    && ClientText(outs[..n], k) == Restored(views(k), Segments(ops).0)
    && Join(Segments(ops).0) == Deltas(inputs[..j + 1], k)
    && (Intact(views(k), inputs[..j + 1], k) ==> ClientText(outs[..n], k) == OneShot(views(k), Deltas(inputs[..j + 1], k)))
    && (inputs[j].Frame? ==>
          n > 0 && Final(inputs[j]).Some? && outs[n - 1] == Other(Final(inputs[j]).value)
          && ClientText(outs[..n - 1], k) == ClientText(outs[..n], k))
  }

  /** A flushed field has let all its text go, in one shot when no placeholder lies across a flush. */
  lemma ClosedField(v: View, inputs: seq<Input>, k: Key)
    requires Steady(v) && Fits(v, Deltas(inputs, k)) && Closed(KeyOps(Acts(inputs), k))
    ensures var ops := KeyOps(Acts(inputs), k);
            && Stream(v, ops) == (Restored(v, Segments(ops).0), "") && Join(Segments(ops).0) == Deltas(inputs, k)
            && (Intact(v, inputs, k) ==> Stream(v, ops).0 == OneShot(v, Deltas(inputs, k)))
  {
    hide *;
    DeltasAreFed(Acts(inputs), k);
    ActsCarryDeltas(inputs, k);
    if Intact(v, inputs, k) { IntactIsUnbroken(v, inputs, k); }
    ClosedWhereFits(v, KeyOps(Acts(inputs), k));
  }

  /**
   Flush before end: when a chunk with a finish reason, a [DONE] or the end of the stream has been
   handled, every demasker it covers holds nothing, all text fed so far is with the client, and the
   frame with the finish reason or the [DONE] comes after that text.
   */
  lemma FlushBeforeEnd(views: Key -> View, outs: seq<Out<Key, Wire>>, lo: nat, n: nat,
                       inputs: seq<Input>, j: nat, k: Key)
    requires j < |inputs| && Cut(views, outs, lo, n, inputs, j) && Ending(views, inputs, j, k)
    ensures EndSettled(views, outs, n, inputs, j, k)
    ensures Stream(views(k), KeyOps(Acts(inputs[..j + 1]), k)).1 == ""
  {
    hide Steady, Fits, KeyOps, KeyCalls, Acts, Segments, Stream, DoneIn, ClientText, Deltas, Restored, HasData, MetadataOnly,
         Frames, Others, Heard, Reaches, Merged, Builds, Intact, OneShot;
    TakeSnoc(inputs, j);
    var ops := KeyOps(Acts(inputs[..j + 1]), k);
    EndingCloses(inputs[..j], inputs[j], k);
    ClosedField(views(k), inputs[..j + 1], k);
    ReachedIsHeard(views(k), KeyCalls(Acts(inputs[..j + 1]), k));
    CallsAreOps(Acts(inputs[..j + 1]), k);
    if inputs[j].Frame? {
      TakeSnoc(outs, n - 1);
      OutSnoc(outs[..n - 1], outs[n - 1]);
    }
  }

  /** Every closing frame of the output follows the text it closes. */
  ghost predicate EndsInOrder(views: Key -> View, outs: seq<Out<Key, Wire>>, inputs: seq<Input>) {
    exists cuts: seq<nat> :: |cuts| == |inputs| && forall j: nat, k ::
      j < |inputs| && Ending(views, inputs, j, k) ==> EndSettled(views, outs, cuts[j], inputs, j, k)
  }

  lemma HistoryInOrder(views: Key -> View, outs: seq<Out<Key, Wire>>, cuts: seq<nat>, inputs: seq<Input>)
    requires History(views, outs, cuts, inputs)
    ensures EndsInOrder(views, outs, inputs)
  {
    hide Cut, Ending, EndSettled;
    forall j: nat, k | j < |inputs| && Ending(views, inputs, j, k)
      ensures EndSettled(views, outs, cuts[j], inputs, j, k)
    {
      FlushBeforeEnd(views, outs, Begins(cuts, j), cuts[j], inputs, j, k);
    }
  }

  /**
   After each input the client has, of every field whose calls find their frames, all but a bounded tail of
   what was fed so far, restored.
   */
  ghost predicate Prompt(views: Key -> View, outs: seq<Out<Key, Wire>>, inputs: seq<Input>) {
    exists cuts: seq<nat> :: |cuts| == |inputs| && forall j: nat, k :: j < |cuts| ==> PromptAt(views, outs, cuts[j], inputs, j, k)
  }

  ghost predicate PromptAt(views: Key -> View, outs: seq<Out<Key, Wire>>, n: nat, inputs: seq<Input>, j: nat, k: Key)
    requires j < |inputs|
  {
    var ops := KeyOps(Acts(inputs[..j + 1]), k);
    && n <= |outs| && Others(outs[..n]) == Frames(inputs[..j + 1])
    && (Reaches(KeyCalls(Acts(inputs[..j + 1]), k)) && Fits(views(k), Deltas(inputs[..j + 1], k)) && Readable(views(k), ops) ==>
          AllButTail(views(k), ops, ClientText(outs[..n], k)))
  }

  lemma HistoryPrompt(views: Key -> View, outs: seq<Out<Key, Wire>>, cuts: seq<nat>, inputs: seq<Input>)
    requires History(views, outs, cuts, inputs) && forall k :: Steady(views(k))
    ensures Prompt(views, outs, inputs)
  {
    hide Acts, Frames, Merged, Builds, Fits, Steady, Readable, AllButTail, KeyOps, KeyCalls, Deltas, Others, ClientText, Stream, Heard,
         Reaches, Final;
    forall j: nat, k | j < |cuts|
      ensures PromptAt(views, outs, cuts[j], inputs, j, k)
    {
      assert Cut(views, outs, Begins(cuts, j), cuts[j], inputs, j);
      var acts := Acts(inputs[..j + 1]);
      DeltasAreFed(acts, k);
      ActsCarryDeltas(inputs[..j + 1], k);
      CallsAreOps(acts, k);
      if Reaches(KeyCalls(acts, k)) && Fits(views(k), Deltas(inputs[..j + 1], k)) && Readable(views(k), KeyOps(acts, k)) {
        ReachedIsHeard(views(k), KeyCalls(acts, k));
        DeliversAllButTail(views(k), KeyOps(acts, k));
      }
    }
  }

  // ---- what the other frames tell ----

  /** The chunk carries text, a tool call, or arguments of a legacy function call. */
  predicate Carries(chunk: Chunk) {
    exists c :: c in chunk.choices && (c.content != "" || c.reasoning != "" || c.tools != [] || Args(c.call) != "")
  }

  predicate Concludes(chunk: Chunk) {
    chunk.usage || exists c :: c in chunk.choices && c.finish != ""
  }

  /** `m` keeps of the chunk its usage and the finish reason of each choice, and nothing of the deltas. */
  predicate KeepsEnd(m: Chunk, chunk: Chunk) {
    && m.usage == chunk.usage && |m.choices| == |chunk.choices|
    && forall i :: 0 <= i < |m.choices| ==>
         var (kept, c) := (m.choices[i], chunk.choices[i]);
         && kept.index == c.index && kept.finish == c.finish
         && kept.role.None? && kept.content == "" && kept.reasoning == "" && kept.tools == [] && kept.call.None?
  }

  /** A tool call's entry without arguments, which no later text would carry. */
  predicate Bare(w: Wire, cs: seq<Choice>) {
    exists c, t :: c in cs && t in c.tools && Args(t.fn) == "" && w == Announce(c.index, t)
  }

  lemma {:induction false} ToolAnnounced(choice: int, ts: seq<Tool>, w: Wire)
    ensures w in Announces(choice, ts) <==> exists t :: t in ts && Args(t.fn) == "" && w == Announce(choice, t)
  {
    if ts != [] {
      SnocEq(ts);
      ToolAnnounced(choice, ts[..|ts| - 1], w);
    }
  }

  lemma {:induction false} AllAnnounced(cs: seq<Choice>, w: Wire)
    ensures w in AllAnnounces(cs) <==> Bare(w, cs)
  {
    hide Announces, Args;
    if cs != [] {
      var before, c := cs[..|cs| - 1], cs[|cs| - 1];
      SnocEq(cs);
      AllAnnounced(before, w);
      ToolAnnounced(c.index, c.tools, w);
    }
  }

  /**
   A chunk that carries nothing goes through as it came; of another one go through the entries of tool calls
   without arguments and, last, the end it may bring, without the deltas.
   */
  lemma FramesOfChunk(chunk: Chunk, bytes: string)
    ensures var frames := InputFrames(Frame(Data(Some(chunk)), bytes));
            if !Carries(chunk) then frames == [Verbatim(bytes)]
            else
              && (forall w :: w in frames && !w.Metadata? ==> Bare(w, chunk.choices))
              && (forall w :: Bare(w, chunk.choices) ==> w in frames)
              && (forall i :: 0 <= i < |frames| && frames[i].Metadata? ==>
                    i == |frames| - 1 && Concludes(chunk) && KeepsEnd(frames[i].chunk, chunk))
              && (Concludes(chunk) ==> frames != [] && frames[|frames| - 1].Metadata?)
  {
    hide AllAnnounces, MetadataOnly, Bare;
    CarriesIsData(chunk);
    EndKept(chunk);
    var all := AllAnnounces(chunk.choices);
    forall w
      ensures w in all <==> Bare(w, chunk.choices)
      ensures w in all ==> w.Announce?
    {
      AllAnnounced(chunk.choices, w);
      BareIsAnnounce(w, chunk.choices);
    }
    assert forall i :: 0 <= i < |all| ==> all[i] in all;
  }

  /** The frame that closes an input is the last of its frames. */
  lemma FinalIsLast(input: Input)
    ensures Final(input).Some? ==> InputFrames(input) != [] && InputFrames(input)[|InputFrames(input)| - 1] == Final(input).value
    ensures Final(input).None? ==> forall w :: w in InputFrames(input) ==> w.Announce?
  {
    hide AllAnnounces, MetadataOnly;
    if input.Frame? && input.kind.Data? && input.kind.chunk.Some? { AnnouncedOnly(input.kind.chunk.value.choices); }
  }

  lemma AnnouncedOnly(cs: seq<Choice>)
    ensures forall w :: w in AllAnnounces(cs) ==> w.Announce?
  {
    forall w | w in AllAnnounces(cs)
      ensures w.Announce?
    {
      AllAnnounced(cs, w);
      BareIsAnnounce(w, cs);
    }
  }

  lemma BareIsAnnounce(w: Wire, cs: seq<Choice>)
    ensures Bare(w, cs) ==> w.Announce?
  {
  }

  lemma CarriesIsData(chunk: Chunk)
    ensures HasData(chunk) <==> Carries(chunk)
    ensures IsMetadata(chunk) <==> Concludes(chunk)
  {
  }

  lemma EndKept(chunk: Chunk)
    ensures KeepsEnd(MetadataOnly(chunk), chunk)
  {
  }

  // ---- what text frames tell ----

  lemma {:induction false} MergedAppend(acts: seq<Act>, more: seq<Act>)
    requires !Merging(more)
    ensures Merged(acts + more) == Merged(acts)
  {
    hide MergeAll;
    if more == [] {
      assert acts + more == acts;
    } else {
      var before := more[..|more| - 1];
      assert more[|more| - 1] in more && forall a :: a in before ==> a in more;
      MergedAppend(acts, before);
      assert (acts + more)[..|acts + more| - 1] == acts + before;
    }
  }

  lemma InputMerged(acts: seq<Act>, started: set<int>, done: bool, input: Input)
    ensures Merged(acts + InputActs(started, done, input))
            == MergeAll(Merged(acts), ChoicesIn(input))
  {
    hide MergeAll, ChunkActs, Merged;
    var more := InputActs(started, done, input);
    if input.Frame? && input.kind.Data? && input.kind.chunk.Some? && input.kind.chunk.value.choices != [] {
      var chunk := input.kind.chunk.value;
      ChunkKeepsMerged(started, chunk);
      Reassociate(acts, [Merge(chunk.choices)], ChunkActs(started, chunk));
      KeyCallsSnoc(acts, Merge(chunk.choices));
      MergedAppend(acts + [Merge(chunk.choices)], ChunkActs(started, chunk));
    } else {
      NoneMerged(Merged(acts));
      MergedAppend(acts, more);
    }
  }

  lemma NoneMerged(cs: seq<Choice>)
    ensures MergeAll(cs, []) == cs
  {
  }

  lemma ChunkKeepsMerged(started: set<int>, chunk: Chunk)
    ensures !Merging(ChunkActs(started, chunk))
  {
    hide FeedOf, AllToolActs, CallActs, AllTextActs, FinishActs;
    ChoiceFeeds(started, chunk.choices);
  }

  /** The merged state is what merging everything that arrived gives. */
  lemma {:induction false} MergedIsArrived(inputs: seq<Input>)
    ensures Merged(Acts(inputs)) == MergeAll([], Arrived(inputs))
  {
    hide MergeAll, InputActs, Merged;
    if inputs == [] {
      NothingArrived();
    } else {
      var before, input := inputs[..|inputs| - 1], inputs[|inputs| - 1];
      MergedIsArrived(before);
      InputMerged(Acts(before), Started(before), DoneIn(before), input);
      MergeAllAppend([], Arrived(before), ChoicesIn(input));
    }
  }

  lemma NothingArrived()
    ensures Merged(Acts([])) == MergeAll([], Arrived([]))
  {
  }

  /**
   A text frame tells the first role its choice was given; the first non-blank name of its function call;
   or the first non-blank ID, type and name among the entries for its tool call.
   */
  predicate Tells(arrived: seq<Choice>, o: Out<Key, Wire>) {
    o.Other? ||
    var deltas := DeltasOf(arrived, o.key.choice);
    deltas != [] &&
    match o.frame
    case TextDelta(role) => !o.key.field.ToolArguments? && FirstRole(role, deltas)
    case CallDelta(name) =>
      && o.key.field.ToolArguments? && o.key.tool == LEGACY
      && (exists c :: c in deltas && c.call.Some?) && name == FirstNonBlank(CallNames(deltas))
    case ToolDelta(id, typ, name) =>
      var es := Entries(deltas, o.key.tool);
      && o.key.field.ToolArguments? && SomeFunction(es)
      && id == FirstNonBlank(Ids(es)) && typ == FirstNonBlank(Types(es)) && name == FirstNonBlank(Names(es))
    case Announce(choice, call) =>
      var es := Entries(deltas, o.key.tool);
      && o.key.field.ToolArguments? && o.text == "" && es != [] && !SomeFunction(es)
      && choice == o.key.choice
      && call == Tool(o.key.tool, FirstNonBlank(Ids(es)), FirstNonBlank(Types(es)), None)
    case _ => false
  }

  lemma BuiltTells(arrived: seq<Choice>, o: Out<Key, Wire>)
    requires Built(MergeAll([], arrived), o)
    ensures Tells(arrived, o)
  {
    hide MergeAll, FirstRole, LastFinish, FirstNonBlank, DeltasOf, Entries;
    if o.Text? {
      MergedTells(arrived, o.key.choice);
      var deltas := DeltasOf(arrived, o.key.choice);
      assert ToolsTell(MergeAll([], arrived)[FindChoice(MergeAll([], arrived), o.key.choice)].tools, o.key.tool, Entries(deltas, o.key.tool));
    }
  }

  /** Every frame of the output belongs to an input, and its text frames tell what has arrived up to it. */
  ghost predicate Accounted(outs: seq<Out<Key, Wire>>, inputs: seq<Input>) {
    exists cuts: seq<nat> :: |cuts| == |inputs| && Begins(cuts, |cuts|) == |outs| && forall j: nat :: j < |cuts| ==>
      && Begins(cuts, j) <= cuts[j] <= |outs|
      && Others(outs[..cuts[j]]) == Frames(inputs[..j + 1])
      && forall i: nat :: Begins(cuts, j) <= i < cuts[j] ==> Tells(Arrived(inputs[..j + 1]), outs[i])
  }

  lemma HistoryAccounted(views: Key -> View, outs: seq<Out<Key, Wire>>, cuts: seq<nat>, inputs: seq<Input>)
    requires History(views, outs, cuts, inputs)
    ensures Accounted(outs, inputs)
  {
    hide Others, Frames, Acts, Merged, ClientText, Heard, KeyCalls, Final, Built, Tells, Arrived, MergeAll;
    forall j: nat | j < |cuts|
      ensures Begins(cuts, j) <= cuts[j] <= |outs| && Others(outs[..cuts[j]]) == Frames(inputs[..j + 1])
      ensures forall i: nat :: Begins(cuts, j) <= i < cuts[j] ==> Tells(Arrived(inputs[..j + 1]), outs[i])
    {
      assert Cut(views, outs, Begins(cuts, j), cuts[j], inputs, j);
      MergedIsArrived(inputs[..j + 1]);
      forall i: nat | Begins(cuts, j) <= i < cuts[j]
        ensures Tells(Arrived(inputs[..j + 1]), outs[i])
      {
        assert outs[..cuts[j]][i] == outs[i];
        BuiltTells(Arrived(inputs[..j + 1]), outs[i]);
      }
    }
  }

  // ---- end to end ----

  function StreamInputs(decode: string -> Option<Chunk>, bytes: string): seq<Input> {
    Framing.ReadAll(Reader(decode), Framing.Complete(bytes))
  }

  /** All of the field's calls find their frames, and no flush point splits a placeholder. */
  ghost predicate Conserving(views: Key -> View, body: seq<Input>, k: Key) {
    && Reaches(KeyCalls(Acts(body + [EndOfStream]), k)) && Fits(views(k), Deltas(body, k))
    && Intact(views(k), body + [EndOfStream], k)
  }

  /**
   Feeding a response body in any chunks: the client receives, of every field of every choice, the
   text whose frames are found, which is the one-shot demasking of its deltas when all are; every
   other frame comes in order, closing frames come after the text they close, and every text frame
   names the role, or the call, that the chunks before it have merged into.
   */
  method Relay(views: Key -> View, decode: string -> Option<Chunk>, cpus: nat, chunks: seq<string>, last: string)
    returns (out: seq<Out<Key, Wire>>)
    requires cpus > 0 && forall k :: Steady(views(k))
    ensures var body := StreamInputs(decode, Join(chunks) + last);
            && Others(out) == Frames(body)
            && EndsInOrder(views, out, body + [EndOfStream]) && Accounted(out, body + [EndOfStream])
            && Prompt(views, out, body + [EndOfStream])
            && (forall k :: ClientText(out, k) == Heard(views(k), KeyCalls(Acts(body + [EndOfStream]), k)))
            && (QuietAfterDone(body) ==> forall k :: Conserving(views, body, k) ==>
                  ClientText(out, k) == OneShot(views(k), Deltas(body, k)))
  {
    hide *;
    SteadyViews(views);
    var p := new Processor(views, decode, cpus);
    NoOutput(p);
    out := [];
    var i := 0;
    Framing.CarryNothing(Reader(decode), chunks);
    while i < |chunks|
      invariant 0 <= i <= |chunks|
      invariant p.Valid() && p.outputBuf == [] && fresh(p) && fresh(p.aggr) && fresh(p.fields) && fresh(p.fields.repr)
      invariant p.fields.views == views && p.decode == decode
      invariant p.Outs() == out
      invariant p.inputs == Framing.ReadAll(Reader(decode), Framing.Carry(chunks[..i]).0) && p.tailBuf == Framing.Carry(chunks[..i]).1
    {
      Framing.CarryMore(Reader(decode), chunks, i);
      var part := p.ProcessChunk(chunks[i], false);
      out := out + part;
      i := i + 1;
    }
    assert chunks[..i] == chunks;
    var part := p.ProcessChunk(last, true);
    out := out + part;
    Framing.WholeSession(Reader(decode), chunks, last);
    InputsOf(decode, Join(chunks) + last);
    Conclude(p, StreamInputs(decode, Join(chunks) + last));
  }

  lemma SteadyViews(views: Key -> View)
    requires forall k :: Steady(views(k))
    ensures forall k :: views(k).Wf()
  {
  }

  lemma NoOutput(p: Processor)
    requires p.Outs() == []
    ensures p.outputBuf == []
  {
  }

  lemma InputsOf(decode: string -> Option<Chunk>, bytes: string)
    ensures StreamInputs(decode, bytes) == Framing.ReadAll(Reader(decode), Framing.Complete(bytes))
  {
  }

  lemma Conclude(p: Processor, body: seq<Input>)
    requires p.Valid() && p.inputs == body + [EndOfStream]
    requires forall k :: Steady(p.fields.views(k))
    ensures Others(p.Outs()) == Frames(body) && EndsInOrder(p.fields.views, p.Outs(), body + [EndOfStream])
    ensures Accounted(p.Outs(), body + [EndOfStream]) && Prompt(p.fields.views, p.Outs(), body + [EndOfStream])
    ensures forall k :: ClientText(p.Outs(), k) == Heard(p.fields.views(k), KeyCalls(Acts(body + [EndOfStream]), k))
    ensures QuietAfterDone(body) ==> forall k :: Conserving(p.fields.views, body, k) ==>
              ClientText(p.Outs(), k) == OneShot(p.fields.views(k), Deltas(body, k))
  {
    hide Steady, Fits, KeyOps, KeyCalls, Merged, Intact, Segments, OneShot, QuietAfterDone, ClientText, Deltas, Closers,
         Acts, DoneIn, Started, Frames, Others, FieldDemaskers.Valid, History, Final, EndsInOrder, Heard, Reaches, Accounted, Builds, Prompt;
    var views := p.fields.views;
    HistoryInOrder(views, p.Outs(), p.cuts, p.inputs);
    HistoryAccounted(views, p.Outs(), p.cuts, p.inputs);
    HistoryPrompt(views, p.Outs(), p.cuts, p.inputs);
    Advance(body, EndOfStream);
    assert Frames(body) + [] == Frames(body);
    if QuietAfterDone(body) {
      forall k | Conserving(views, body, k)
        ensures ClientText(p.Outs(), k) == OneShot(views(k), Deltas(body, k))
      {
        StreamConserved(views, p.calls, p.Outs(), p.aggr.closers, p.aggr.merged, p.frames, body, k);
      }
    }
  }
}
