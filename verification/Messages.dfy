/** The Anthropic Messages stream: frames routed to one demasker per content block and field. */
module Messages {
  import opened Text
  import opened Demasking
  import opened FieldStreams
  import Framing
  import EventFrame
  import J = JsonClose

  datatype Field = TextField | ThinkingField | ToolInput
  datatype Key = Key(block: int, field: Field)

  /** What the routing reads out of a payload. */
  datatype Event =
    | BlockStart(index: int, typ: string)
    | BlockDelta(index: int, field: Option<Field>, fragment: string)
    | BlockStop(index: int)
    | OtherEvent

  datatype Kind = Done | Passthrough | Named(event: Event)

  /** What the processor handles one after another. */
  datatype Input = Frame(kind: Kind, bytes: string) | EndOfStream

  /** Where a written frame comes from: forwarded bytes, a delta with its text replaced, or made up. */
  datatype Origin = Original(bytes: string) | Patched(bytes: string) | Synthetic

  datatype Block = Block(typ: string, track: J.Track)

  const REDACTED := "redacted_thinking"
  const NEW_BLOCK := Block("", J.FRESH)

  // ---- what each field is fed, read off the inputs alone ----

  function BlockOf(blocks: map<int, Block>, index: int): Block {
    if index in blocks then blocks[index] else NEW_BLOCK
  }

  /** A start resets its block; a tool-input delta advances the close tracker. */
  function NextBlocks(blocks: map<int, Block>, input: Input): map<int, Block> {
    match input
    case Frame(Named(BlockStart(i, typ)), _) => blocks[i := Block(typ, J.FRESH)]
    case Frame(Named(BlockDelta(i, Some(f), fragment)), _) =>
      if fragment == "" then blocks else
        var b := BlockOf(blocks, i);
        blocks[i := if f.ToolInput? && b.typ != REDACTED then b.(track := J.Run(b.track, fragment)) else b]
    case _ => blocks
  }

  function BlocksAt(inputs: seq<Input>): map<int, Block> {
    if inputs == [] then map[] else NextBlocks(BlocksAt(inputs[..|inputs| - 1]), inputs[|inputs| - 1])
  }

  predicate IsDone(input: Input) {
    input.Frame? && input.kind.Done?
  }

  predicate DoneIn(inputs: seq<Input>) {
    inputs != [] && (DoneIn(inputs[..|inputs| - 1]) || IsDone(inputs[|inputs| - 1]))
  }

  /** The field a frame feeds: non-empty deltas of known kind, except in redacted blocks. */
  function FedKey(blocks: map<int, Block>, input: Input): Option<Key> {
    match input
    case Frame(Named(BlockDelta(i, Some(f), fragment)), _) =>
      if fragment != "" && BlockOf(blocks, i).typ != REDACTED then Some(Key(i, f)) else None
    case _ => None
  }

  /** The call a feeding frame makes: tool input is flushed when its object closes. */
  function FeedOp(blocks: map<int, Block>, input: Input): Op
    requires FedKey(blocks, input).Some?
  {
    var d := input.kind.event;
    Op(d.fragment, d.field == Some(ToolInput) && J.Closes(BlockOf(blocks, d.index).track, d.fragment))
  }

  /** A block's end flushes its fields; [DONE], or the end of a stream without it, flushes all. */
  predicate Flushes(done: bool, input: Input, k: Key) {
    match input
    case Frame(Named(BlockStop(i)), _) => i == k.block
    case Frame(Done, _) => true
    case EndOfStream => !done
    case _ => false
  }

  function NextOps(blocks: map<int, Block>, done: bool, input: Input, k: Key, ops: seq<Op>): seq<Op> {
    if FedKey(blocks, input) == Some(k) then ops + [FeedOp(blocks, input)]
    else if Flushes(done, input, k) && ops != [] then ops + [FLUSH]
    else ops
  }

  /** The calls on the demasker of one field. */
  function KeyOps(inputs: seq<Input>, k: Key): seq<Op> {
    if inputs == [] then [] else
      var before, input := inputs[..|inputs| - 1], inputs[|inputs| - 1];
      NextOps(BlocksAt(before), DoneIn(before), input, k, KeyOps(before, k))
  }

  /** The frames that go through untouched: all but the ones that feed a demasker. */
  predicate Forwards(blocks: map<int, Block>, input: Input) {
    input.Frame? && FedKey(blocks, input).None?
  }

  function NextForwarded(blocks: map<int, Block>, input: Input, frames: seq<Origin>): seq<Origin> {
    if Forwards(blocks, input) then frames + [Original(input.bytes)] else frames
  }

  function Forwarded(inputs: seq<Input>): seq<Origin> {
    if inputs == [] then [] else
      var before, input := inputs[..|inputs| - 1], inputs[|inputs| - 1];
      NextForwarded(BlocksAt(before), input, Forwarded(before))
  }

  lemma Advance(inputs: seq<Input>, input: Input)
    ensures forall k :: KeyOps(inputs + [input], k) == NextOps(BlocksAt(inputs), DoneIn(inputs), input, k, KeyOps(inputs, k))
    ensures BlocksAt(inputs + [input]) == NextBlocks(BlocksAt(inputs), input)
    ensures DoneIn(inputs + [input]) == (DoneIn(inputs) || IsDone(input))
    ensures Forwarded(inputs + [input]) == NextForwarded(BlocksAt(inputs), input, Forwarded(inputs))
  {
    SnocParts(inputs, input);
  }

  // ---- the processor ----

  /** The state is determined by the inputs, up to the order of frames within a flush. */
  ghost predicate Mirrors(views: Key -> View, ops: map<Key, seq<Op>>, outs: seq<Out<Key, Origin>>,
                          blocks: map<int, Block>, doneSent: bool, inputs: seq<Input>)
  {
    && (forall k :: OpsOf(ops, k) == KeyOps(inputs, k))
    && (forall k :: k in ops ==> ops[k] != [])
    && Delivered(views, ops, outs)
    && Others(outs) == Forwarded(inputs)
    && blocks == BlocksAt(inputs)
    && doneSent == DoneIn(inputs)
  }

  lemma NothingYet(views: Key -> View)
    ensures Mirrors(views, map[], [], map[], false, [])
  {
  }

  /** A forwarded frame that moves no field. */
  lemma PassStep(views: Key -> View, ops: map<Key, seq<Op>>, outs: seq<Out<Key, Origin>>,
                 blocks: map<int, Block>, doneSent: bool, inputs: seq<Input>, input: Input)
    requires Mirrors(views, ops, outs, blocks, doneSent, inputs)
    requires Forwards(blocks, input) && !IsDone(input) && forall k :: !Flushes(doneSent, input, k)
    ensures Mirrors(views, ops, outs + [Other(Original(input.bytes))], NextBlocks(blocks, input), doneSent, inputs + [input])
  {
    hide KeyOps, BlocksAt, DoneIn, Forwarded, Delivered, Others, NextBlocks, FeedOp;
    Advance(inputs, input);
    DeliveredOther(views, ops, outs, Original(input.bytes));
    OutSnoc(outs, Out<Key, Origin>.Other(Original(input.bytes)));
  }

  /** A delta that feeds its field: `outs2` is what was written after the demasker call. */
  lemma FeedStep(views: Key -> View, ops: map<Key, seq<Op>>, outs: seq<Out<Key, Origin>>, outs2: seq<Out<Key, Origin>>,
                 blocks: map<int, Block>, doneSent: bool, inputs: seq<Input>, input: Input)
    requires Mirrors(views, ops, outs, blocks, doneSent, inputs)
    requires FedKey(blocks, input).Some?
    requires Others(outs2) == Others(outs)
    requires var key := FedKey(blocks, input).value;
             Delivered(views, AfterCall(ops, key, FeedOp(blocks, input)), outs2)
    ensures var key := FedKey(blocks, input).value;
            Mirrors(views, AfterCall(ops, key, FeedOp(blocks, input)), outs2, NextBlocks(blocks, input), doneSent, inputs + [input])
  {
    hide KeyOps, BlocksAt, DoneIn, Forwarded, Delivered, Others, NextBlocks, FeedOp;
    Advance(inputs, input);
  }

  /** An input that flushes fields and is then forwarded, if it is a frame. */
  lemma FlushedStep(views: Key -> View, ops: map<Key, seq<Op>>, outs: seq<Out<Key, Origin>>, outs2: seq<Out<Key, Origin>>,
                    blocks: map<int, Block>, doneSent: bool, inputs: seq<Input>, input: Input, keys: set<Key>)
    requires Mirrors(views, ops, outs, blocks, doneSent, inputs)
    requires FedKey(blocks, input).None? && NextBlocks(blocks, input) == blocks
    requires forall k :: k in ops ==> (k in keys <==> Flushes(doneSent, input, k))
    requires Delivered(views, AfterFlush(ops, keys), outs2) && Others(outs2) == Others(outs)
    ensures Mirrors(views, AfterFlush(ops, keys), if input.Frame? then outs2 + [Other(Original(input.bytes))] else outs2,
                    blocks, doneSent || IsDone(input), inputs + [input])
  {
    hide KeyOps, BlocksAt, DoneIn, Forwarded, Delivered, Others, NextBlocks, FeedOp;
    Advance(inputs, input);
    if input.Frame? {
      DeliveredOther(views, AfterFlush(ops, keys), outs2, Original(input.bytes));
      OutSnoc(outs2, Out<Key, Origin>.Other(Original(input.bytes)));
    }
  }

  // ---- which input a frame comes from ----

  const MADE: Origin -> bool := (origin: Origin) => origin.Synthetic?

  /** At most one frame was added, with text of the field. */
  predicate OneText(outs: seq<Out<Key, Origin>>, outs2: seq<Out<Key, Origin>>, key: Key, origin: Origin) {
    && outs <= outs2
    && (outs2 == outs ||
        var o := outs2[|outs|];
        |outs2| == |outs| + 1 && o.Text? && o.text != "" && o.key == key && o.frame == origin)
  }

  /** Only text of fields the input flushes was added. */
  predicate AddsFlushed(done: bool, input: Input, outs: seq<Out<Key, Origin>>, outs2: seq<Out<Key, Origin>>) {
    outs <= outs2 && forall i :: |outs| <= i < |outs2| ==> Inserted(MADE, outs2[i]) && Flushes(done, input, outs2[i].key)
  }

  /**
   What handling an input adds: for a delta its frame at most, with the text replaced; for another
   frame the text it flushes and then itself; at the end of the stream the text it flushes.
   */
  ghost predicate Adds(blocks: map<int, Block>, done: bool, input: Input, outs: seq<Out<Key, Origin>>, outs2: seq<Out<Key, Origin>>) {
    && outs <= outs2
    && match FedKey(blocks, input)
       case Some(k) => OneText(outs, outs2, k, Patched(input.bytes))
       case None =>
         if input.EndOfStream? then AddsFlushed(done, input, outs, outs2)
         else |outs2| > |outs| && AddsFlushed(done, input, outs, outs2[..|outs2| - 1])
              && outs2[|outs2| - 1] == Other(Original(input.bytes))
  }

  lemma TextSurfaced(outs: seq<Out<Key, Origin>>, outs2: seq<Out<Key, Origin>>, key: Key)
    requires OneText(outs, outs2, key, Synthetic)
    ensures Surfaced(MADE, outs, outs2, {key})
  {
  }

  lemma FrameAdds(blocks: map<int, Block>, done: bool, input: Input, outs: seq<Out<Key, Origin>>, mid: seq<Out<Key, Origin>>, keys: set<Key>)
    requires Surfaced(MADE, outs, mid, keys) && forall k :: k in keys ==> Flushes(done, input, k)
    requires Forwards(blocks, input)
    ensures Adds(blocks, done, input, outs, mid + [Other(Original(input.bytes))])
  {
    hide Inserted, Flushes, FedKey;
    assert (mid + [Out<Key, Origin>.Other(Original(input.bytes))])[..|mid|] == mid;
  }

  lemma EndAdds(blocks: map<int, Block>, done: bool, outs: seq<Out<Key, Origin>>, outs2: seq<Out<Key, Origin>>, keys: set<Key>)
    requires Surfaced(MADE, outs, outs2, keys) && forall k :: k in keys ==> Flushes(done, EndOfStream, k)
    ensures Adds(blocks, done, EndOfStream, outs, outs2)
  {
    hide Inserted, Flushes;
  }

  lemma AddsMore(blocks: map<int, Block>, done: bool, input: Input, outs: seq<Out<Key, Origin>>, outs2: seq<Out<Key, Origin>>)
    requires Adds(blocks, done, input, outs, outs2)
    ensures outs <= outs2
  {
  }

  /** A delta that feeds nothing is forwarded. */
  lemma DeltaPasses(blocks: map<int, Block>, done: bool, input: Input, outs: seq<Out<Key, Origin>>)
    ensures Forwards(blocks, input) ==> Adds(blocks, done, input, outs, outs + [Other(Original(input.bytes))])
  {
    if Forwards(blocks, input) {
      SurfacedNone(MADE, outs, {});
      FrameAdds(blocks, done, input, outs, outs, {});
    }
  }

  lemma DeltaAdds(blocks: map<int, Block>, done: bool, input: Input, outs: seq<Out<Key, Origin>>, outs2: seq<Out<Key, Origin>>)
    requires FedKey(blocks, input).Some? && OneText(outs, outs2, FedKey(blocks, input).value, Patched(input.bytes))
    ensures Adds(blocks, done, input, outs, outs2)
  {
  }

  /**
   After input `j`, which added the frames from `lo` to `n`, the client has what each demasker
   emitted and every forwarded frame so far.
   */
  ghost predicate Cut(views: Key -> View, outs: seq<Out<Key, Origin>>, lo: nat, n: nat, inputs: seq<Input>, j: nat)
    requires j < |inputs|
  {
    && lo <= n <= |outs|
    && (forall k :: ClientText(outs[..n], k) == Stream(views(k), KeyOps(inputs[..j + 1], k)).0)
    && Others(outs[..n]) == Forwarded(inputs[..j + 1])
    && Adds(BlocksAt(inputs[..j]), DoneIn(inputs[..j]), inputs[j], outs[..lo], outs[..n])
  }

  /** Every frame written belongs to the input during which it was written. */
  ghost predicate History(views: Key -> View, outs: seq<Out<Key, Origin>>, cuts: seq<nat>, inputs: seq<Input>) {
    && |cuts| == |inputs| && Begins(cuts, |cuts|) == |outs|
    && forall j: nat :: j < |cuts| ==> Cut(views, outs, Begins(cuts, j), cuts[j], inputs, j)
  }

  function Decode(decode: string -> Event, bytes: string): Input {
    match EventFrame.Classify(bytes)
    case Done => Frame(Done, bytes)
    case Passthrough => Frame(Passthrough, bytes)
    case Event(_, data) => Frame(Named(decode(data)), bytes)
  }

  function Reader(decode: string -> Event): string -> Input {
    (bytes: string) => Decode(decode, bytes)
  }

  class Processor {
    const fields: FieldDemaskers<Key>
    const decode: string -> Event
    var tailBuf: string
    var outputBuf: seq<Out<Key, Origin>>
    var blocks: map<int, Block>
    var doneSent: bool
    ghost var taken: seq<Out<Key, Origin>>
    ghost var inputs: seq<Input>
    ghost var cuts: seq<nat>

    /** Everything written so far. */
    ghost function Outs(): seq<Out<Key, Origin>>
      reads this
    {
      taken + outputBuf
    }

    ghost predicate Tracks(seen: seq<Input>)
      reads this, fields, fields.repr
    {
      fields.Valid() && Mirrors(fields.views, fields.ops, Outs(), blocks, doneSent, seen)
    }

    ghost predicate Valid()
      reads this, fields, fields.repr
    {
      Tracks(inputs) && History(fields.views, Outs(), cuts, inputs)
    }

    constructor (views: Key -> View, decode: string -> Event, cpus: nat)
      requires cpus > 0 && forall k :: views(k).Wf()
      ensures Valid() && fresh(fields) && fresh(fields.repr) && fields.views == views && this.decode == decode
      ensures inputs == [] && Outs() == [] && tailBuf == ""
    {
      hide View.Wf;
      fields := new FieldDemaskers(views, cpus);
      this.decode := decode;
      tailBuf, outputBuf, blocks, doneSent := "", [], map[], false;
      taken, inputs, cuts := [], [], [];
      new;
      NothingYet(views);
    }

    method WriteOutput(out: Out<Key, Origin>)
      modifies this`outputBuf
      ensures Outs() == old(Outs()) + [out]
    {
      outputBuf := outputBuf + [out];
      Reassociate(taken, old(outputBuf), [out]);
    }

    /** One demasker call; what it returns is written at once, nothing if it is empty. */
    method Demask(key: Key, op: Op, origin: Origin)
      requires fields.Valid() && Delivered(fields.views, fields.ops, Outs())
      modifies this`outputBuf, fields, fields.repr
      ensures fields.Valid() && fresh(fields.repr - old(fields.repr))
      ensures fields.ops == AfterCall(old(fields.ops), key, op)
      ensures Delivered(fields.views, fields.ops, Outs()) && Others(Outs()) == Others(old(Outs()))
      ensures OneText(old(Outs()), Outs(), key, origin)
    {
      hide FieldDemaskers.Valid, Delivered, Others, AfterCall, Step, Stream, ClientText;
      DeliveredCall(fields.views, fields.ops, Outs(), key, op, origin);
      var text := fields.DemaskChunk(key, op.chunk, op.flush);
      if text != "" {
        OutSnoc(Outs(), Text(key, text, origin));
        WriteOutput(Text(key, text, origin));
      }
    }

    /** Flushes the given live demaskers in some order. */
    method FlushKeys(keys: set<Key>)
      requires fields.Valid() && Delivered(fields.views, fields.ops, Outs())
      requires keys <= fields.demaskers.Keys
      modifies this`outputBuf, fields, fields.repr
      ensures fields.Valid() && fresh(fields.repr - old(fields.repr))
      ensures fields.ops == AfterFlush(old(fields.ops), keys)
      ensures Delivered(fields.views, fields.ops, Outs()) && Others(Outs()) == Others(old(Outs()))
      ensures Surfaced(MADE, old(Outs()), Outs(), keys)
    {
      hide *;
      var todo := keys;
      assert keys - todo == {};
      LiveKeys(fields);
      FlushNone(fields.ops);
      SurfacedNone(MADE, Outs(), {});
      while todo != {}
        invariant todo <= keys
        invariant fields.Valid() && fresh(fields.repr - old(fields.repr))
        invariant fields.ops == AfterFlush(old(fields.ops), keys - todo)
        invariant Delivered(fields.views, fields.ops, Outs()) && Others(Outs()) == Others(old(Outs()))
        invariant Surfaced(MADE, old(Outs()), Outs(), keys - todo)
        decreases |todo|
      {
        var key :| key in todo;
        FlushOneMore(old(fields.ops), keys - todo, key);
        assert keys - (todo - {key}) == keys - todo + {key};
        ghost var done, mid := keys - todo, Outs();
        todo := todo - {key};
        Demask(key, FLUSH, Synthetic);
        TextSurfaced(mid, Outs(), key);
        SurfacedMore(MADE, old(Outs()), mid, Outs(), done, {key});
      }
      assert keys - {} == keys;
    }

    method FlushBlock(index: int)
      requires fields.Valid() && Delivered(fields.views, fields.ops, Outs())
      modifies this`outputBuf, fields, fields.repr
      ensures fields.Valid() && fresh(fields.repr - old(fields.repr))
      ensures fields.ops == AfterFlush(old(fields.ops), BlockKeys(old(fields.ops), index))
      ensures Delivered(fields.views, fields.ops, Outs()) && Others(Outs()) == Others(old(Outs()))
      ensures Surfaced(MADE, old(Outs()), Outs(), BlockKeys(old(fields.ops), index))
    {
      hide FieldDemaskers.Valid, Delivered, Others, Surfaced;
      LiveKeys(fields);
      FlushKeys(set k | k in fields.demaskers && k.block == index);
    }

    /** Walks the demaskers in some order and flushes each block met for the first time. */
    method FlushAllBlocks()
      requires fields.Valid() && Delivered(fields.views, fields.ops, Outs())
      modifies this`outputBuf, fields, fields.repr
      ensures fields.Valid() && fresh(fields.repr - old(fields.repr))
      ensures fields.ops == AfterFlush(old(fields.ops), old(fields.ops).Keys)
      ensures Delivered(fields.views, fields.ops, Outs()) && Others(Outs()) == Others(old(Outs()))
      ensures Surfaced(MADE, old(Outs()), Outs(), old(fields.ops).Keys)
    {
      hide *;
      LiveKeys(fields);
      FlushNone(fields.ops);
      NoneSeen(fields.ops);
      SurfacedNone(MADE, Outs(), {});
      var todo := fields.demaskers.Keys;
      var seen: set<int> := {};
      while todo != {}
        invariant todo <= old(fields.ops).Keys
        invariant forall k :: k in old(fields.ops).Keys - todo ==> k.block in seen
        invariant fields.Valid() && fresh(fields.repr - old(fields.repr))
        invariant fields.ops == AfterFlush(old(fields.ops), SeenKeys(old(fields.ops), seen))
        invariant Delivered(fields.views, fields.ops, Outs()) && Others(Outs()) == Others(old(Outs()))
        invariant Surfaced(MADE, old(Outs()), Outs(), SeenKeys(old(fields.ops), seen))
        decreases |todo|
      {
        var key :| key in todo;
        todo := todo - {key};
        if key.block !in seen {
          ghost var was, mid, done := fields.ops, Outs(), seen;
          SeenMore(old(fields.ops), seen, key.block);
          seen := seen + {key.block};
          FlushBlock(key.block);
          SurfacedMore(MADE, old(Outs()), mid, Outs(), SeenKeys(old(fields.ops), done), BlockKeys(was, key.block));
        }
      }
      AllSeen(old(fields.ops), seen);
    }

    method HandleDone(bytes: string)
      requires Tracks(inputs)
      modifies this`outputBuf, this`doneSent, fields, fields.repr
      ensures Tracks(inputs + [Frame(Done, bytes)]) && fresh(fields.repr - old(fields.repr))
      ensures Adds(blocks, old(doneSent), Frame(Done, bytes), old(Outs()), Outs())
    {
      hide Mirrors, Delivered, Others, AfterFlush, Surfaced, Adds;
      var input := Frame(Done, bytes);
      FieldsDelivered(fields.views, fields.ops, Outs(), blocks, doneSent, inputs);
      FlushAllBlocks();
      FlushedStep(fields.views, old(fields.ops), old(Outs()), Outs(), blocks, doneSent, inputs, input, old(fields.ops).Keys);
      FrameAdds(blocks, doneSent, input, old(Outs()), Outs(), old(fields.ops).Keys);
      doneSent := true;
      WriteOutput(Other(Original(bytes)));
    }

    method HandleStop(bytes: string, index: int)
      requires Tracks(inputs)
      modifies this`outputBuf, fields, fields.repr
      ensures Tracks(inputs + [Frame(Named(BlockStop(index)), bytes)]) && fresh(fields.repr - old(fields.repr))
      ensures Adds(blocks, doneSent, Frame(Named(BlockStop(index)), bytes), old(Outs()), Outs())
    {
      hide Mirrors, Delivered, Others, AfterFlush, Surfaced, Adds;
      var input := Frame(Named(BlockStop(index)), bytes);
      FieldsDelivered(fields.views, fields.ops, Outs(), blocks, doneSent, inputs);
      FlushBlock(index);
      FlushedStep(fields.views, old(fields.ops), old(Outs()), Outs(), blocks, doneSent, inputs, input,
                  BlockKeys(old(fields.ops), index));
      FrameAdds(blocks, doneSent, input, old(Outs()), Outs(), BlockKeys(old(fields.ops), index));
      WriteOutput(Other(Original(bytes)));
    }

    method HandleStart(bytes: string, index: int, typ: string)
      requires Tracks(inputs)
      modifies this`outputBuf, this`blocks
      ensures Tracks(inputs + [Frame(Named(BlockStart(index, typ)), bytes)])
      ensures Adds(old(blocks), doneSent, Frame(Named(BlockStart(index, typ)), bytes), old(Outs()), Outs())
    {
      hide Mirrors, Surfaced, Adds;
      SurfacedNone(MADE, Outs(), {});
      FrameAdds(blocks, doneSent, Frame(Named(BlockStart(index, typ)), bytes), Outs(), Outs(), {});
      PassStep(fields.views, fields.ops, Outs(), blocks, doneSent, inputs, Frame(Named(BlockStart(index, typ)), bytes));
      blocks := blocks[index := Block(typ, J.FRESH)];
      WriteOutput(Other(Original(bytes)));
    }

    /** Frames of no interest are forwarded as they came. */
    method HandleOther(bytes: string, kind: Kind)
      requires Tracks(inputs) && (kind == Passthrough || kind == Named(OtherEvent))
      modifies this`outputBuf
      ensures Tracks(inputs + [Frame(kind, bytes)]) && Adds(blocks, doneSent, Frame(kind, bytes), old(Outs()), Outs())
    {
      hide Mirrors, Surfaced, Adds;
      SurfacedNone(MADE, Outs(), {});
      FrameAdds(blocks, doneSent, Frame(kind, bytes), Outs(), Outs(), {});
      PassStep(fields.views, fields.ops, Outs(), blocks, doneSent, inputs, Frame(kind, bytes));
      WriteOutput(Other(Original(bytes)));
    }

    method HandleDelta(bytes: string, index: int, field: Option<Field>, fragment: string)
      requires Tracks(inputs)
      modifies this`outputBuf, this`blocks, fields, fields.repr
      ensures Tracks(inputs + [Frame(Named(BlockDelta(index, field, fragment)), bytes)])
      ensures fresh(fields.repr - old(fields.repr))
      ensures Adds(old(blocks), doneSent, Frame(Named(BlockDelta(index, field, fragment)), bytes), old(Outs()), Outs())
    {
      hide Mirrors, Delivered, Others, AfterCall, Surfaced, Adds, OneText;
      ghost var input := Frame(Named(BlockDelta(index, field, fragment)), bytes);
      DeltaPasses(blocks, doneSent, input, Outs());
      if field.None? || fragment == "" {
        PassStep(fields.views, fields.ops, Outs(), blocks, doneSent, inputs, input);
        WriteOutput(Other(Original(bytes)));
        return;
      }
      if index !in blocks {
        blocks := blocks[index := NEW_BLOCK];
      }
      var block := blocks[index];
      SameEntry(blocks, index);
      UpdateTwice(old(blocks), index, NEW_BLOCK, block.(track := J.Run(block.track, fragment)));
      assert blocks == old(blocks)[index := block];
      if block.typ == REDACTED {
        PassStep(fields.views, fields.ops, Outs(), old(blocks), doneSent, inputs, input);
        WriteOutput(Other(Original(bytes)));
        return;
      }
      var closed := false;
      if field.value == ToolInput {
        closed := J.Closes(block.track, fragment);
        blocks := blocks[index := block.(track := J.Run(block.track, fragment))];
      }
      FieldsDelivered(fields.views, fields.ops, Outs(), old(blocks), doneSent, inputs);
      Demask(Key(index, field.value), Op(fragment, closed), Patched(bytes));
      DeltaAdds(old(blocks), doneSent, input, old(Outs()), Outs());
      FeedStep(fields.views, old(fields.ops), old(Outs()), Outs(), old(blocks), doneSent, inputs, input);
    }

    method HandleEvent(bytes: string, event: Event)
      requires Tracks(inputs)
      modifies this`outputBuf, this`blocks, fields, fields.repr
      ensures Tracks(inputs + [Frame(Named(event), bytes)]) && fresh(fields.repr - old(fields.repr))
      ensures Adds(old(blocks), doneSent, Frame(Named(event), bytes), old(Outs()), Outs())
    {
      hide Mirrors, FieldDemaskers.Valid, Forwards, Adds;
      match event
      case BlockStart(index, typ) => HandleStart(bytes, index, typ);
      case BlockDelta(index, field, fragment) => HandleDelta(bytes, index, field, fragment);
      case BlockStop(index) => HandleStop(bytes, index);
      case OtherEvent => HandleOther(bytes, Named(OtherEvent));
    }

    method ProcessFrame(bytes: string)
      requires Valid()
      modifies this, fields, fields.repr
      ensures Valid() && fresh(fields.repr - old(fields.repr))
      ensures inputs == old(inputs) + [Decode(decode, bytes)]
      ensures old(Outs()) <= Outs() && unchanged(this`tailBuf, this`taken)
    {
      hide Mirrors, History, FieldDemaskers.Valid, Forwards, Adds;
      ghost var input := Decode(decode, bytes);
      StateIs(fields.views, fields.ops, Outs(), blocks, doneSent, inputs);
      var frame := EventFrame.ClassifyFrame(bytes);
      match frame {
        case Done => HandleDone(bytes);
        case Passthrough => HandleOther(bytes, Passthrough);
        case Event(_, data) => HandleEvent(bytes, decode(data));
      }
      AddsMore(old(blocks), old(doneSent), input, old(Outs()), Outs());
      HistoryStep(fields.views, fields.ops, old(Outs()), Outs(), blocks, doneSent, cuts, inputs, input);
      inputs := inputs + [input];
      cuts := cuts + [|Outs()|];
    }

    /** The end of the stream: without a [DONE] before it, everything held back is flushed. */
    method Finish()
      requires Valid()
      modifies this, fields, fields.repr
      ensures Valid() && fresh(fields.repr - old(fields.repr))
      ensures inputs == old(inputs) + [EndOfStream]
      ensures old(Outs()) <= Outs() && unchanged(this`tailBuf, this`taken)
    {
      hide Mirrors, History, FieldDemaskers.Valid, Delivered, Others, AfterFlush, Surfaced, Adds;
      SurfacedNone(MADE, Outs(), {});
      StateIs(fields.views, fields.ops, Outs(), blocks, doneSent, inputs);
      FieldsDelivered(fields.views, fields.ops, Outs(), blocks, doneSent, inputs);
      FlushNone(fields.ops);
      ghost var keys := if doneSent then {} else fields.ops.Keys;
      if !doneSent {
        FlushAllBlocks();
      }
      FlushedStep(fields.views, old(fields.ops), old(Outs()), Outs(), blocks, doneSent, inputs, EndOfStream, keys);
      EndAdds(blocks, doneSent, old(Outs()), Outs(), keys);
      AddsMore(blocks, doneSent, EndOfStream, old(Outs()), Outs());
      HistoryStep(fields.views, fields.ops, old(Outs()), Outs(), blocks, doneSent, cuts, inputs, EndOfStream);
      inputs := inputs + [EndOfStream];
      cuts := cuts + [|Outs()|];
    }

    method ProcessChunk(body: string, endOfStream: bool) returns (out: seq<Out<Key, Origin>>)
      requires Valid() && outputBuf == []
      modifies this, fields, fields.repr
      ensures Valid() && outputBuf == [] && fresh(fields.repr - old(fields.repr))
      ensures Outs() == old(Outs()) + out
      ensures !endOfStream ==>
                var (frames, tail) := Framing.Split(old(tailBuf) + body);
                inputs == old(inputs) + Framing.ReadAll(Reader(decode), frames) && tailBuf == tail
      ensures endOfStream ==>
                inputs == old(inputs) + Framing.ReadAll(Reader(decode), Framing.Complete(old(tailBuf) + body)) + [EndOfStream]
    {
      hide Mirrors, History, FieldDemaskers.Valid, Framing.Split, Framing.Complete, Decode;
      var frames;
      frames, tailBuf := Framing.PrepareFrames(tailBuf, body, endOfStream);
      ghost var tail := tailBuf;
      var i := 0;
      assert Framing.ReadAll(Reader(decode), frames[..0]) == [] && old(inputs) + [] == old(inputs);
      while i < |frames|
        invariant 0 <= i <= |frames|
        invariant Valid() && fresh(fields.repr - old(fields.repr))
        invariant inputs == old(inputs) + Framing.ReadAll(Reader(decode), frames[..i])
        invariant old(Outs()) <= Outs() && tailBuf == tail && taken == old(taken)
      {
        Framing.ReadMore(Reader(decode), frames, i);
        Reassociate(old(inputs), Framing.ReadAll(Reader(decode), frames[..i]), [Decode(decode, frames[i])]);
        ProcessFrame(frames[i]);
        i := i + 1;
      }
      assert frames[..i] == frames;
      if endOfStream {
        Finish();
      }
      out := outputBuf;
      assert taken + [] == taken;
      assert taken + outputBuf + [] == taken + outputBuf;
      taken := taken + outputBuf;
      outputBuf := [];
    }
  }

  lemma StateIs(views: Key -> View, ops: map<Key, seq<Op>>, outs: seq<Out<Key, Origin>>,
                blocks: map<int, Block>, doneSent: bool, inputs: seq<Input>)
    requires Mirrors(views, ops, outs, blocks, doneSent, inputs)
    ensures BlocksAt(inputs) == blocks && DoneIn(inputs) == doneSent
  {
  }

  /** One more input handled: earlier cuts stand, and the new one is at the end of the output. */
  lemma HistoryStep(views: Key -> View, ops: map<Key, seq<Op>>, outs: seq<Out<Key, Origin>>, outs2: seq<Out<Key, Origin>>,
                    blocks: map<int, Block>, doneSent: bool, cuts: seq<nat>, inputs: seq<Input>, input: Input)
    requires History(views, outs, cuts, inputs)
    requires Mirrors(views, ops, outs2, blocks, doneSent, inputs + [input])
    requires Adds(BlocksAt(inputs), DoneIn(inputs), input, outs, outs2)
    ensures History(views, outs2, cuts + [|outs2|], inputs + [input])
  {
    hide Cut, Adds, Mirrors, BlocksAt, DoneIn;
    AddsMore(BlocksAt(inputs), DoneIn(inputs), input, outs, outs2);
    var all, cuts2 := inputs + [input], cuts + [|outs2|];
    forall j: nat | j < |cuts2|
      ensures Cut(views, outs2, Begins(cuts2, j), cuts2[j], all, j)
    {
      if j < |cuts| {
        CutStays(views, outs, outs2, Begins(cuts, j), cuts[j], inputs, input, j);
      } else {
        NewCut(views, ops, outs, outs2, blocks, doneSent, inputs, input);
      }
    }
  }

  lemma CutStays(views: Key -> View, outs: seq<Out<Key, Origin>>, outs2: seq<Out<Key, Origin>>, lo: nat, n: nat,
                 inputs: seq<Input>, input: Input, j: nat)
    requires j < |inputs| && Cut(views, outs, lo, n, inputs, j) && outs <= outs2
    ensures Cut(views, outs2, lo, n, inputs + [input], j)
  {
    hide KeyOps, BlocksAt, DoneIn, Forwarded, Others, ClientText, Stream, Adds;
    AppendDrop(inputs, [input], j);
    AppendDrop(inputs, [input], j + 1);
    assert outs2[..n] == outs[..n] && outs2[..lo] == outs[..lo];
  }

  lemma NewCut(views: Key -> View, ops: map<Key, seq<Op>>, outs: seq<Out<Key, Origin>>, outs2: seq<Out<Key, Origin>>,
               blocks: map<int, Block>, doneSent: bool, inputs: seq<Input>, input: Input)
    requires Mirrors(views, ops, outs2, blocks, doneSent, inputs + [input])
    requires Adds(BlocksAt(inputs), DoneIn(inputs), input, outs, outs2)
    ensures Cut(views, outs2, |outs|, |outs2|, inputs + [input], |inputs|)
  {
    hide KeyOps, BlocksAt, DoneIn, Forwarded, Others, ClientText, Stream, Adds;
    AddsMore(BlocksAt(inputs), DoneIn(inputs), input, outs, outs2);
    var all := inputs + [input];
    assert all[..|inputs| + 1] == all && all[..|inputs|] == inputs;
    assert outs2[..|outs2|] == outs2 && outs2[..|outs|] == outs;
  }

  lemma FieldsDelivered(views: Key -> View, ops: map<Key, seq<Op>>, outs: seq<Out<Key, Origin>>,
                        blocks: map<int, Block>, doneSent: bool, inputs: seq<Input>)
    requires Mirrors(views, ops, outs, blocks, doneSent, inputs)
    ensures Delivered(views, ops, outs)
  {
  }

  function BlockKeys(ops: map<Key, seq<Op>>, index: int): set<Key> {
    set k | k in ops && k.block == index
  }

  function SeenKeys(ops: map<Key, seq<Op>>, seen: set<int>): set<Key> {
    set k | k in ops && k.block in seen
  }

  lemma NoneSeen(ops: map<Key, seq<Op>>)
    ensures SeenKeys(ops, {}) == {}
  {
  }

  lemma SeenMore(ops: map<Key, seq<Op>>, seen: set<int>, index: int)
    requires index !in seen
    ensures AfterFlush(AfterFlush(ops, SeenKeys(ops, seen)), BlockKeys(AfterFlush(ops, SeenKeys(ops, seen)), index))
            == AfterFlush(ops, SeenKeys(ops, seen + {index}))
    ensures SeenKeys(ops, seen) + BlockKeys(AfterFlush(ops, SeenKeys(ops, seen)), index) == SeenKeys(ops, seen + {index})
  {
  }

  lemma AllSeen(ops: map<Key, seq<Op>>, seen: set<int>)
    requires forall k :: k in ops ==> k.block in seen
    ensures SeenKeys(ops, seen) == ops.Keys
  {
  }
}
