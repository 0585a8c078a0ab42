/** What a whole Messages stream guarantees, for every run of the processor. */
module MessagesStream {
  import opened Text
  import opened Demasking
  import opened DemaskLimits
  import opened FieldStreams
  import opened LongForms
  import opened Messages
  import Framing
  import J = JsonClose

  // ---- the text the events carry ----

  /** The type the latest start gave a block; blank without one. */
  function TypeOf(inputs: seq<Input>, index: int): string {
    if inputs == [] then "" else
      match inputs[|inputs| - 1]
      case Frame(Named(BlockStart(i, typ)), _) => if i == index then typ else TypeOf(inputs[..|inputs| - 1], index)
      case _ => TypeOf(inputs[..|inputs| - 1], index)
  }

  /** The text an event carries for one field: a delta's fragment, unless its block is redacted. */
  function InputText(before: seq<Input>, input: Input, k: Key): string {
    match input
    case Frame(Named(BlockDelta(i, Some(f), fragment)), _) =>
      if k == Key(i, f) && TypeOf(before, i) != "redacted_thinking" then fragment else ""
    case _ => ""
  }

  /** All text the inputs carry for one field. */
  function Deltas(inputs: seq<Input>, k: Key): string {
    if inputs == [] then "" else
      var before, input := inputs[..|inputs| - 1], inputs[|inputs| - 1];
      Deltas(before, k) + InputText(before, input, k)
  }

  /** The tool input a block has received since its latest start. */
  function ToolText(inputs: seq<Input>, index: int): string {
    if inputs == [] then "" else
      var before, input := inputs[..|inputs| - 1], inputs[|inputs| - 1];
      match input
      case Frame(Named(BlockStart(i, _)), _) => if i == index then "" else ToolText(before, index)
      case _ => ToolText(before, index) + InputText(before, input, Key(index, ToolInput))
  }

  /** A tool input's object closes with this event. */
  predicate Closing(before: seq<Input>, input: Input, k: Key) {
    var text := InputText(before, input, k);
    k.field.ToolInput? && text != "" && J.Closes(J.Run(J.FRESH, ToolText(before, k.block)), text)
  }

  /** The events that end a field: its block's stop, [DONE], the end of a stream without one. */
  predicate Ends(before: seq<Input>, input: Input, k: Key) {
    match input
    case Frame(Named(BlockStop(i)), _) => i == k.block
    case Frame(Done, _) => true
    case EndOfStream => forall i :: i in before ==> !i.Frame? || !i.kind.Done?
    case _ => false
  }

  predicate CarriesText(before: seq<Input>, input: Input) {
    match input
    case Frame(Named(BlockDelta(i, Some(_), fragment)), _) => fragment != "" && TypeOf(before, i) != "redacted_thinking"
    case _ => false
  }

  /** The frames that carry no text, as they came. */
  function Untouched(inputs: seq<Input>): seq<Origin> {
    if inputs == [] then [] else
      var before, input := inputs[..|inputs| - 1], inputs[|inputs| - 1];
      Untouched(before) + if input.Frame? && !CarriesText(before, input) then [Original(input.bytes)] else []
  }

  // ---- what the processor makes of the events ----

  /** A block's state is what its events say. */
  lemma {:induction false} BlockIs(inputs: seq<Input>, index: int)
    ensures var b := BlockOf(BlocksAt(inputs), index);
            b.typ == TypeOf(inputs, index) && b.track == J.Run(J.FRESH, ToolText(inputs, index))
  {
    hide J.Run;
    RunNothing();
    if inputs != [] {
      var before, input := inputs[..|inputs| - 1], inputs[|inputs| - 1];
      BlockIs(before, index);
      var text := InputText(before, input, Key(index, ToolInput));
      J.RunAppend(J.FRESH, ToolText(before, index), text);
      assert ToolText(before, index) + "" == ToolText(before, index);
    }
  }

  lemma {:induction false} DoneSeen(inputs: seq<Input>)
    ensures DoneIn(inputs) <==> exists i :: i in inputs && i.Frame? && i.kind.Done?
  {
    if inputs != [] {
      SnocEq(inputs);
      DoneSeen(inputs[..|inputs| - 1]);
    }
  }

  lemma EndsFlush(before: seq<Input>, input: Input, k: Key)
    ensures Flushes(DoneIn(before), input, k) <==> Ends(before, input, k)
  {
    hide DoneIn;
    DoneSeen(before);
  }

  /** Each event's text is fed to its own field, and flushed with it if it closes a tool input. */
  lemma TextIsFed(before: seq<Input>, input: Input, k: Key)
    ensures FedKey(BlocksAt(before), input) == Some(k) <==> InputText(before, input, k) != ""
    ensures InputText(before, input, k) != "" ==>
              FeedOp(BlocksAt(before), input) == Op(InputText(before, input, k), Closing(before, input, k))
    ensures CarriesText(before, input) <==> FedKey(BlocksAt(before), input).Some?
  {
    hide BlocksAt, TypeOf, ToolText, BlockOf, J.Run, J.Closes;
    if input.Frame? && input.kind.Named? && input.kind.event.BlockDelta? { BlockIs(before, input.kind.event.index); }
  }

  /** The calls on one demasker, event by event. */
  lemma CallsFollow(before: seq<Input>, input: Input, k: Key)
    ensures var (ops, text) := (KeyOps(before, k), InputText(before, input, k));
            KeyOps(before + [input], k)
            == if text != "" then ops + [Op(text, Closing(before, input, k))]
               else if Ends(before, input, k) && ops != [] then ops + [FLUSH]
               else ops
  {
    hide FedKey, FeedOp, BlocksAt, DoneIn, Flushes, KeyOps, InputText, Closing, Ends, CarriesText;
    Advance(before, input);
    TextIsFed(before, input, k);
    EndsFlush(before, input, k);
  }

  lemma {:induction false} UntouchedForwarded(inputs: seq<Input>)
    ensures Forwarded(inputs) == Untouched(inputs)
  {
    hide FedKey, BlocksAt, CarriesText;
    if inputs != [] {
      var before, input := inputs[..|inputs| - 1], inputs[|inputs| - 1];
      UntouchedForwarded(before);
      TextIsFed(before, input, Key(0, TextField));
      assert Untouched(before) + [] == Untouched(before);
    }
  }

  lemma DeltasSnoc(before: seq<Input>, input: Input, k: Key)
    ensures Deltas(before + [input], k) == Deltas(before, k) + InputText(before, input, k)
  {
    SnocParts(before, input);
  }

  /** Each field is fed exactly the text the events carry for it. */
  lemma {:induction false} DeltasAreFed(inputs: seq<Input>, k: Key)
    ensures Fed(KeyOps(inputs, k)) == Deltas(inputs, k)
  {
    hide KeyOps, InputText, Closing, Ends;
    if inputs == [] {
      NoCalls(k);
    } else {
      var before, input := inputs[..|inputs| - 1], inputs[|inputs| - 1];
      SnocEq(inputs);
      DeltasAreFed(before, k);
      CallsFollow(before, input, k);
      FedSnoc(KeyOps(before, k), FLUSH);
      FedSnoc(KeyOps(before, k), Op(InputText(before, input, k), Closing(before, input, k)));
      assert Deltas(before, k) + "" == Deltas(before, k);
    }
  }

  lemma NoCalls(k: Key)
    ensures KeyOps([], k) == []
  {
  }

  // ---- where a field is flushed ----

  /** No placeholder lies across an end of the field or of a tool input's object. */
  ghost predicate Intact(v: View, inputs: seq<Input>, k: Key) {
    forall j: nat :: j < |inputs| && (Ends(inputs[..j], inputs[j], k) || Closing(inputs[..j], inputs[j], k)) ==>
      IntactAt(v.Whole(), Deltas(inputs, k), |Deltas(inputs[..j + 1], k)|)
  }

  /** A field is flushed nowhere else. */
  lemma {:induction false} FlushedAtEnds(inputs: seq<Input>, k: Key, i: nat) returns (j: nat)
    requires i < |KeyOps(inputs, k)| && KeyOps(inputs, k)[i].flush
    ensures j < |inputs| && (Ends(inputs[..j], inputs[j], k) || Closing(inputs[..j], inputs[j], k))
    ensures Fed(KeyOps(inputs, k)[..i + 1]) == Deltas(inputs[..j + 1], k)
  {
    hide KeyOps, InputText, Closing, Ends, Deltas, Fed;
    if inputs == [] {
      NoCalls(k);
    } else {
      var n := |inputs| - 1;
      var before, ops := inputs[..n], KeyOps(inputs[..n], k);
      SnocEq(inputs);
      CallsFollow(before, inputs[n], k);
      if i < |ops| {
        j := FlushedAtEnds(before, k, i);
        assert inputs[..n][..j] == inputs[..j] && inputs[..n][..j + 1] == inputs[..j + 1];
        assert KeyOps(inputs, k)[..i + 1] == ops[..i + 1];
      } else {
        j := n;
        DeltasAreFed(inputs, k);
        assert inputs[..n + 1] == inputs && KeyOps(inputs, k)[..i + 1] == KeyOps(inputs, k);
      }
    }
  }

  lemma IntactIsUnbroken(v: View, inputs: seq<Input>, k: Key)
    requires Intact(v, inputs, k)
    ensures Unbroken(v, Segments(KeyOps(inputs, k)).0)
  {
    hide KeyOps, Deltas, Ends, Closing, IntactAt, View.Whole, Unbroken, Segments;
    var ops := KeyOps(inputs, k);
    forall i: nat | i < |ops| && ops[i].flush
      ensures IntactAt(v.Whole(), Deltas(inputs, k), |Fed(ops[..i + 1])|)
    {
      var j := FlushedAtEnds(inputs, k, i);
    }
    DeltasAreFed(inputs, k);
    FlushedIntact(v, ops, Deltas(inputs, k));
  }

  /** Nothing is fed after a [DONE]. */
  predicate QuietAfterDone(inputs: seq<Input>) {
    inputs == [] ||
    var before, input := inputs[..|inputs| - 1], inputs[|inputs| - 1];
    QuietAfterDone(before) && (DoneIn(before) ==> !CarriesText(before, input))
  }

  lemma {:induction false} QuietIsClosed(inputs: seq<Input>, k: Key)
    requires QuietAfterDone(inputs) && DoneIn(inputs)
    ensures Closed(KeyOps(inputs, k))
  {
    hide FedKey, BlocksAt, CarriesText;
    var before, input := inputs[..|inputs| - 1], inputs[|inputs| - 1];
    TextIsFed(before, input, k);
    if DoneIn(before) {
      QuietIsClosed(before, k);
    } else {
      DoneFeedsNothing(BlocksAt(before), input);
    }
  }

  lemma DoneFeedsNothing(blocks: map<int, Block>, input: Input)
    requires !input.Frame? || input.kind.Done?
    ensures FedKey(blocks, input).None?
  {
  }

  /** The end of the stream finds or leaves every field flushed. */
  lemma EndCloses(body: seq<Input>, k: Key)
    requires QuietAfterDone(body)
    ensures Closed(KeyOps(body + [EndOfStream], k))
    ensures Deltas(body + [EndOfStream], k) == Deltas(body, k)
  {
    hide KeyOps, Deltas, FedKey, BlocksAt, DoneIn;
    Advance(body, EndOfStream);
    DoneFeedsNothing(BlocksAt(body), EndOfStream);
    DeltasSnoc(body, EndOfStream, k);
    assert Deltas(body, k) + "" == Deltas(body, k);
    if DoneIn(body) { QuietIsClosed(body, k); }
  }

  /**
   Conservation: at the end of every stream with no delta after [DONE], and no flush point inside a
   placeholder, the client has received of each field the one-shot demasking of its deltas.
   */
  lemma StreamConserved(views: Key -> View, ops: map<Key, seq<Op>>, outs: seq<Out<Key, Origin>>,
                        blocks: map<int, Block>, doneSent: bool, body: seq<Input>, k: Key)
    requires Mirrors(views, ops, outs, blocks, doneSent, body + [EndOfStream])
    requires Steady(views(k)) && Fits(views(k), Deltas(body, k)) && QuietAfterDone(body)
    requires Intact(views(k), body + [EndOfStream], k)
    ensures ClientText(outs, k) == OneShot(views(k), Deltas(body, k))
  {
    hide Intact, Steady, Fits, KeyOps, Unbroken, Segments, Stream, OneShot, QuietAfterDone, ClientText, Deltas;
    var all := body + [EndOfStream];
    EndCloses(body, k);
    IntactIsUnbroken(views(k), all, k);
    DeltasAreFed(all, k);
    ClosedWhereFits(views(k), KeyOps(all, k));
  }

  /** A field loses text exactly when some of it arrives after the [DONE] and before the next flush. */
  lemma LosesExactlyTheTailAfterDone(body: seq<Input>, k: Key)
    ensures NeverLoses(KeyOps(body + [EndOfStream], k)) <==> !DoneIn(body) || Segments(KeyOps(body, k)).1 == ""
  {
    hide NeverLoses, BlocksAt, DoneIn, KeyOps, Segments;
    var ops := KeyOps(body, k);
    Advance(body, EndOfStream);
    DoneFeedsNothing(BlocksAt(body), EndOfStream);
    LosesNothingExactlyWhenFlushed(KeyOps(body + [EndOfStream], k));
    SegmentsFlushed(ops);
  }

  lemma SegmentsFlushed(ops: seq<Op>)
    ensures Segments(ops + [FLUSH]).1 == "" && Segments([]).1 == ""
  {
    SnocParts(ops, FLUSH);
  }

  /** For instance a delta right after the [DONE] is held back for good. */
  lemma DeltaAfterDoneIsLost(fragment: string)
    requires fragment != ""
    ensures !NeverLoses(KeyOps(DoneThenDelta(fragment) + [EndOfStream], Key(0, TextField)))
  {
    hide NeverLoses, DoneIn, KeyOps, DoneThenDelta;
    LateDeltaOps(fragment);
    var none: seq<Op> := [];
    SnocParts(none, Op(fragment, false));
    assert none + [Op(fragment, false)] == [Op(fragment, false)];
    LosesExactlyTheTailAfterDone(DoneThenDelta(fragment), Key(0, TextField));
  }

  function DoneThenDelta(fragment: string): seq<Input> {
    [Frame(Done, "data: [DONE]\n\n"), Frame(Named(BlockDelta(0, Some(TextField), fragment)), "")]
  }

  lemma LateDeltaOps(fragment: string)
    requires fragment != ""
    ensures DoneIn(DoneThenDelta(fragment)) && KeyOps(DoneThenDelta(fragment), Key(0, TextField)) == [Op(fragment, false)]
  {
    hide Segments;
    var none: seq<Input> := [];
    var done, delta := DoneThenDelta(fragment)[0], DoneThenDelta(fragment)[1];
    assert DoneThenDelta(fragment) == none + [done] + [delta];
    Advance(none, done);
    Advance(none + [done], delta);
    var ops: seq<Op> := [];
    assert KeyOps(none + [done], Key(0, TextField)) == ops;
    assert ops + [Op(fragment, false)] == [Op(fragment, false)];
  }

  /** Input `j` ends field `k`, whose demasker is fit for its text. */
  ghost predicate Ending(views: Key -> View, inputs: seq<Input>, j: nat, k: Key)
    requires j < |inputs|
  {
    Ends(inputs[..j], inputs[j], k) && Steady(views(k)) && Fits(views(k), Deltas(inputs[..j + 1], k))
  }

  /**
   The first `n` frames end with the one of input `j`, and the text before it is all the field was
   fed, restored.
   */
  ghost predicate EndSettled(views: Key -> View, outs: seq<Out<Key, Origin>>, n: nat, inputs: seq<Input>, j: nat, k: Key)
    requires j < |inputs|
  {
    var ops := KeyOps(inputs[..j + 1], k);
    && n <= |outs| && Others(outs[..n]) == Untouched(inputs[..j + 1])
    && ClientText(outs[..n], k) == Restored(views(k), Segments(ops).0)
    && Join(Segments(ops).0) == Deltas(inputs[..j + 1], k)
    && (Intact(views(k), inputs[..j + 1], k) ==> ClientText(outs[..n], k) == OneShot(views(k), Deltas(inputs[..j + 1], k)))
    && (inputs[j].Frame? ==> n > 0 && outs[n - 1] == Other(Original(inputs[j].bytes))
                             && ClientText(outs[..n - 1], k) == ClientText(outs[..n], k))
  }

  /** A flushed field has delivered its text, in one shot when no placeholder lies across a flush. */
  lemma ClosedField(v: View, inputs: seq<Input>, k: Key)
    requires Steady(v) && Fits(v, Deltas(inputs, k)) && Closed(KeyOps(inputs, k))
    ensures var ops := KeyOps(inputs, k);
            && Stream(v, ops) == (Restored(v, Segments(ops).0), "") && Join(Segments(ops).0) == Deltas(inputs, k)
            && (Intact(v, inputs, k) ==> Stream(v, ops).0 == OneShot(v, Deltas(inputs, k)))
  {
    hide *;
    DeltasAreFed(inputs, k);
    if Intact(v, inputs, k) { IntactIsUnbroken(v, inputs, k); }
    ClosedWhereFits(v, KeyOps(inputs, k));
  }

  /**
   Flush before end: when a content_block_stop, a [DONE] or the end of the stream has been handled,
   every demasker it covers holds nothing, all text fed so far is with the client, and the frame
   itself comes after that text.
   */
  lemma FlushBeforeEnd(views: Key -> View, outs: seq<Out<Key, Origin>>, lo: nat, n: nat, inputs: seq<Input>, j: nat, k: Key)
    requires j < |inputs| && Cut(views, outs, lo, n, inputs, j) && Ending(views, inputs, j, k)
    ensures EndSettled(views, outs, n, inputs, j, k)
    ensures Stream(views(k), KeyOps(inputs[..j + 1], k)).1 == ""
  {
    hide Steady, Fits, KeyOps, Segments, Stream, BlocksAt, DoneIn, ClientText, Deltas, Restored, Others, Forwarded, AddsFlushed,
         Intact, Untouched, Ends, Unbroken, OneShot;
    var before, input, ops := inputs[..j], inputs[j], KeyOps(inputs[..j + 1], k);
    TakeSnoc(inputs, j);
    EndsFlush(before, input, k);
    UntouchedForwarded(inputs[..j + 1]);
    Advance(before, input);
    FlushesForward(BlocksAt(before), DoneIn(before), input, k);
    ClosedField(views(k), inputs[..j + 1], k);
    if input.Frame? {
      TakeSnoc(outs, n - 1);
      OutSnoc(outs[..n - 1], outs[n - 1]);
    }
  }

  /** Every ending frame of the output follows the text it ends. */
  ghost predicate EndsInOrder(views: Key -> View, outs: seq<Out<Key, Origin>>, inputs: seq<Input>) {
    exists cuts: seq<nat> :: |cuts| == |inputs| && forall j: nat, k ::
      j < |inputs| && Ending(views, inputs, j, k) ==> EndSettled(views, outs, cuts[j], inputs, j, k)
  }

  lemma HistoryInOrder(views: Key -> View, outs: seq<Out<Key, Origin>>, cuts: seq<nat>, inputs: seq<Input>)
    requires History(views, outs, cuts, inputs)
    ensures EndsInOrder(views, outs, inputs)
  {
    hide Cut, Ending, EndSettled;
    forall j: nat, k | j < |inputs| && Ending(views, inputs, j, k)
      ensures EndSettled(views, outs, cuts[j], inputs, j, k)
    {
      FlushBeforeEnd(views, outs, Begins(cuts, j), cuts[j], inputs, j, k);
    }
  }

  lemma FlushesForward(blocks: map<int, Block>, done: bool, input: Input, k: Key)
    requires Flushes(done, input, k)
    ensures FedKey(blocks, input).None? && (input.Frame? ==> Forwards(blocks, input))
  {
  }

  /** Every frame of the output belongs to an input, as that input is handled. */
  ghost predicate Accounted(outs: seq<Out<Key, Origin>>, inputs: seq<Input>) {
    exists cuts: seq<nat> :: |cuts| == |inputs| && Begins(cuts, |cuts|) == |outs| && forall j: nat :: j < |cuts| ==>
      && Begins(cuts, j) <= cuts[j] <= |outs|
      && Adds(BlocksAt(inputs[..j]), DoneIn(inputs[..j]), inputs[j], outs[..Begins(cuts, j)], outs[..cuts[j]])
  }

  lemma HistoryAccounted(views: Key -> View, outs: seq<Out<Key, Origin>>, cuts: seq<nat>, inputs: seq<Input>)
    requires History(views, outs, cuts, inputs)
    ensures Accounted(outs, inputs)
  {
    hide Adds, BlocksAt, DoneIn;
    forall j: nat | j < |cuts|
      ensures Begins(cuts, j) <= cuts[j] <= |outs|
      ensures Adds(BlocksAt(inputs[..j]), DoneIn(inputs[..j]), inputs[j], outs[..Begins(cuts, j)], outs[..cuts[j]])
    {
      assert Cut(views, outs, Begins(cuts, j), cuts[j], inputs, j);
    }
  }

  /** After each input the client has of every field all but a bounded tail of what was fed so far, restored. */
  ghost predicate Prompt(views: Key -> View, outs: seq<Out<Key, Origin>>, inputs: seq<Input>) {
    exists cuts: seq<nat> :: |cuts| == |inputs| && forall j: nat, k :: j < |cuts| ==> PromptAt(views, outs, cuts[j], inputs, j, k)
  }

  ghost predicate PromptAt(views: Key -> View, outs: seq<Out<Key, Origin>>, n: nat, inputs: seq<Input>, j: nat, k: Key)
    requires j < |inputs|
  {
    var ops := KeyOps(inputs[..j + 1], k);
    && n <= |outs| && Others(outs[..n]) == Untouched(inputs[..j + 1])
    && (Fits(views(k), Deltas(inputs[..j + 1], k)) && Readable(views(k), ops) ==> AllButTail(views(k), ops, ClientText(outs[..n], k)))
  }

  lemma HistoryPrompt(views: Key -> View, outs: seq<Out<Key, Origin>>, cuts: seq<nat>, inputs: seq<Input>)
    requires History(views, outs, cuts, inputs) && forall k :: Steady(views(k))
    ensures Prompt(views, outs, inputs)
  {
    hide Adds, BlocksAt, DoneIn, Fits, Steady, Readable, AllButTail, KeyOps, Deltas, Untouched, Forwarded, Others, ClientText, Stream;
    forall j: nat, k | j < |cuts|
      ensures PromptAt(views, outs, cuts[j], inputs, j, k)
    {
      assert Cut(views, outs, Begins(cuts, j), cuts[j], inputs, j);
      UntouchedForwarded(inputs[..j + 1]);
      DeltasAreFed(inputs[..j + 1], k);
      var ops := KeyOps(inputs[..j + 1], k);
      if Fits(views(k), Deltas(inputs[..j + 1], k)) && Readable(views(k), ops) { DeliversAllButTail(views(k), ops); }
    }
  }

  // ---- tool input ----

  /** The deltas that carry a tool input in fragments. */
  function ToolDeltas(index: int, fragments: seq<string>): seq<Input> {
    if fragments == [] then [] else
      ToolDeltas(index, fragments[..|fragments| - 1]) + [ToolDelta(index, fragments[|fragments| - 1])]
  }

  function ToolDelta(index: int, fragment: string): Input {
    Frame(Named(BlockDelta(index, Some(ToolInput), fragment)), "")
  }

  /** What one tool-input fragment does. */
  lemma ToolStep(inputs: seq<Input>, index: int, typ: string, track: J.Track, fragment: string)
    requires typ != REDACTED && fragment != ""
    requires index in BlocksAt(inputs) && BlocksAt(inputs)[index] == Block(typ, track)
    ensures var all, k := inputs + [ToolDelta(index, fragment)], Key(index, ToolInput);
            && index in BlocksAt(all) && BlocksAt(all)[index] == Block(typ, J.Run(track, fragment))
            && KeyOps(all, k) == KeyOps(inputs, k) + [Op(fragment, J.Closes(track, fragment))]
  {
    hide J.Run, J.Closes;
    Advance(inputs, ToolDelta(index, fragment));
  }

  /** The state after a block start and some tool-input fragments. */
  lemma {:induction false} ToolRun(inputs: seq<Input>, index: int, typ: string, fragments: seq<string>)
    requires typ != REDACTED && "" !in fragments
    requires index in BlocksAt(inputs) && BlocksAt(inputs)[index] == Block(typ, J.FRESH)
    ensures var all := inputs + ToolDeltas(index, fragments);
            index in BlocksAt(all) && BlocksAt(all)[index] == Block(typ, J.Run(J.FRESH, Join(fragments)))
  {
    hide J.Run, J.Closes, BlocksAt, KeyOps, ToolDelta;
    if fragments == [] {
      assert inputs + [] == inputs;
      J.RunAppend(J.FRESH, "", "");
      RunNothing();
    } else {
      var before, last := fragments[..|fragments| - 1], fragments[|fragments| - 1];
      assert last in fragments && forall f :: f in before ==> f in fragments;
      ToolRun(inputs, index, typ, before);
      Reassociate(inputs, ToolDeltas(index, before), [ToolDelta(index, last)]);
      ToolStep(inputs + ToolDeltas(index, before), index, typ, J.Run(J.FRESH, Join(before)), last);
      SnocEq(fragments);
      JoinSnoc(before, last);
      J.RunAppend(J.FRESH, Join(before), last);
    }
  }

  lemma RunNothing()
    ensures J.Run(J.FRESH, "") == J.FRESH
  {
  }

  /**
   However the JSON object of a tool call is cut into fragments, its demasker is flushed exactly
   when the object is complete: the whole object is one segment.
   */
  lemma {:induction false} ToolInputIsOneSegment(inputs: seq<Input>, index: int, typ: string, v: J.Json, fragments: seq<string>)
    requires typ != REDACTED && "" !in fragments && fragments != []
    requires index in BlocksAt(inputs) && BlocksAt(inputs)[index] == Block(typ, J.FRESH)
    requires KeyOps(inputs, Key(index, ToolInput)) == []
    requires v.Obj? && J.WellFormed(v) && Join(fragments) == J.Print(v)
    ensures Segments(KeyOps(inputs + ToolDeltas(index, fragments), Key(index, ToolInput))) == ([J.Print(v)], "")
  {
    hide BlocksAt, KeyOps, J.Run, J.Closes, ToolDelta, J.Print, J.WellFormed;
    var k, before, last := Key(index, ToolInput), fragments[..|fragments| - 1], fragments[|fragments| - 1];
    assert last in fragments && forall f :: f in before ==> f in fragments;
    SnocEq(fragments);
    JoinSnoc(before, last);
    J.ObjectCloses(v);
    var s := J.Print(v);
    OpenSegment(inputs, index, typ, s, before);
    ToolRun(inputs, index, typ, before);
    J.RunAppend(J.FRESH, Join(before), last);
    J.PrefixOpen(J.FRESH, s, |Join(before)|);
    assert s[..|Join(before)|] == Join(before);
    Reassociate(inputs, ToolDeltas(index, before), [ToolDelta(index, last)]);
    ToolStep(inputs + ToolDeltas(index, before), index, typ, J.Run(J.FRESH, Join(before)), last);
    SnocParts(KeyOps(inputs + ToolDeltas(index, before), k), Op(last, true));
    assert [] + [s] == [s];
  }

  /** While the object is incomplete nothing is flushed. */
  lemma {:induction false} OpenSegment(inputs: seq<Input>, index: int, typ: string, s: string, fragments: seq<string>)
    requires typ != REDACTED && "" !in fragments
    requires index in BlocksAt(inputs) && BlocksAt(inputs)[index] == Block(typ, J.FRESH)
    requires KeyOps(inputs, Key(index, ToolInput)) == []
    requires |Join(fragments)| < |s| && s[..|Join(fragments)|] == Join(fragments) && !J.Closes(J.FRESH, s[..|s| - 1])
    ensures Segments(KeyOps(inputs + ToolDeltas(index, fragments), Key(index, ToolInput))) == ([], Join(fragments))
  {
    hide BlocksAt, KeyOps, J.Run, J.Closes, ToolDelta, J.Print, J.WellFormed;
    var k := Key(index, ToolInput);
    if fragments == [] {
      assert inputs + [] == inputs;
    } else {
      var before, last := fragments[..|fragments| - 1], fragments[|fragments| - 1];
      assert last in fragments && forall f :: f in before ==> f in fragments;
      SnocEq(fragments);
      JoinSnoc(before, last);
      assert s[..|Join(before)|] == Join(before);
      OpenSegment(inputs, index, typ, s, before);
      ToolRun(inputs, index, typ, before);
      J.RunAppend(J.FRESH, Join(before), last);
      J.PrefixOpen(J.FRESH, s, |Join(fragments)|);
      Reassociate(inputs, ToolDeltas(index, before), [ToolDelta(index, last)]);
      ToolStep(inputs + ToolDeltas(index, before), index, typ, J.Run(J.FRESH, Join(before)), last);
      SnocParts(KeyOps(inputs + ToolDeltas(index, before), k), Op(last, false));
    }
  }

  // ---- end to end ----

  /** What the inputs of a stream are, from its bytes alone. */
  function StreamInputs(decode: string -> Event, bytes: string): seq<Input> {
    Framing.ReadAll(Reader(decode), Framing.Complete(bytes))
  }

  /**
   Feeding a response body in any chunks: the client receives, of every field, the one-shot
   demasking of the deltas in the body, however the bytes were cut.
   */
  method Relay(views: Key -> View, decode: string -> Event, cpus: nat, chunks: seq<string>, last: string)
    returns (out: seq<Out<Key, Origin>>)
    requires cpus > 0 && forall k :: Steady(views(k))
    ensures var body := StreamInputs(decode, Join(chunks) + last);
            && Others(out) == Untouched(body) && Prompt(views, out, body + [EndOfStream])
            && EndsInOrder(views, out, body + [EndOfStream]) && Accounted(out, body + [EndOfStream])
            && (QuietAfterDone(body) ==> forall k ::
                  Fits(views(k), Deltas(body, k)) && Intact(views(k), body + [EndOfStream], k) ==>
                  ClientText(out, k) == OneShot(views(k), Deltas(body, k)))
  {
    hide *;
    SteadyViews(views);
    var p := new Processor(views, decode, cpus);
    NoOutput(p);
    out := [];
    var i := 0;
    Framing.CarryNothing(Reader(decode), chunks);
    while i < |chunks|
      invariant 0 <= i <= |chunks|
      invariant p.Valid() && p.outputBuf == [] && fresh(p) && fresh(p.fields) && fresh(p.fields.repr)
      invariant p.fields.views == views && p.decode == decode
      invariant p.Outs() == out
      invariant p.inputs == Framing.ReadAll(Reader(decode), Framing.Carry(chunks[..i]).0) && p.tailBuf == Framing.Carry(chunks[..i]).1
    {
      Framing.CarryMore(Reader(decode), chunks, i);
      var part := p.ProcessChunk(chunks[i], false);
      out := out + part;
      i := i + 1;
    }
    assert chunks[..i] == chunks;
    var part := p.ProcessChunk(last, true);
    out := out + part;
    Framing.WholeSession(Reader(decode), chunks, last);
    InputsOf(decode, Join(chunks) + last);
    Conclude(p, StreamInputs(decode, Join(chunks) + last));
  }

  lemma SteadyViews(views: Key -> View)
    requires forall k :: Steady(views(k))
    ensures forall k :: views(k).Wf()
  {
  }

  lemma NoOutput(p: Processor)
    requires p.Outs() == []
    ensures p.outputBuf == []
  {
  }

  lemma InputsOf(decode: string -> Event, bytes: string)
    ensures StreamInputs(decode, bytes) == Framing.ReadAll(Reader(decode), Framing.Complete(bytes))
  {
  }

  lemma Conclude(p: Processor, body: seq<Input>)
    requires p.Valid() && p.inputs == body + [EndOfStream]
    requires forall k :: Steady(p.fields.views(k))
    ensures Others(p.Outs()) == Untouched(body) && EndsInOrder(p.fields.views, p.Outs(), body + [EndOfStream])
    ensures Accounted(p.Outs(), body + [EndOfStream]) && Prompt(p.fields.views, p.Outs(), body + [EndOfStream])
    ensures QuietAfterDone(body) ==> forall k ::
              Fits(p.fields.views(k), Deltas(body, k)) && Intact(p.fields.views(k), body + [EndOfStream], k) ==>
              ClientText(p.Outs(), k) == OneShot(p.fields.views(k), Deltas(body, k))
  {
    hide Steady, Fits, KeyOps, Unbroken, Segments, OneShot, QuietAfterDone, ClientText, Deltas, BlocksAt, History, EndsInOrder, Accounted,
         Delivered, Forwarded, Others, DoneIn, FieldDemaskers.Valid, Prompt, Intact, Untouched;
    var views := p.fields.views;
    HistoryInOrder(views, p.Outs(), p.cuts, p.inputs);
    HistoryAccounted(views, p.Outs(), p.cuts, p.inputs);
    HistoryPrompt(views, p.Outs(), p.cuts, p.inputs);
    UntouchedForwarded(body);
    Advance(body, EndOfStream);
    if QuietAfterDone(body) {
      forall k | Fits(views(k), Deltas(body, k)) && Intact(views(k), body + [EndOfStream], k)
        ensures ClientText(p.Outs(), k) == OneShot(views(k), Deltas(body, k))
      {
        StreamConserved(views, p.fields.ops, p.Outs(), p.blocks, p.doneSent, body, k);
      }
    }
  }
}
