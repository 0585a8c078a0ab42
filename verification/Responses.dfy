/**
 The OpenAI Responses stream: one demasker per output item, content part and field, events that
 repeat whole texts rewritten in one shot, and outgoing sequence numbers.
 */
module Responses {
  import opened Text
  import opened Demasking
  import opened FieldStreams
  import opened Sequencing
  import Framing
  import EventFrame
  import J = JsonClose

  datatype Field = OutputText | ReasoningText | FunctionArgs
  datatype Key = Key(output: int, content: int, field: Field)

  /** A whole text repeated inside an event; `args` marks tool-call arguments. */
  datatype Embedded = Embedded(args: bool, text: string)

  /** What the routing reads out of a payload. */
  datatype Event =
    | FieldDelta(key: Key, fragment: string)
    | FieldDone(key: Key, text: string)
    | PartDone(text: string)
    | ItemDone(item: Option<seq<Embedded>>)
    | Terminal(texts: seq<Embedded>)
    | OtherEvent

  datatype Kind = Done | Passthrough | Named(event: Event, number: Option<int>)
  datatype Input = Frame(kind: Kind, bytes: string) | EndOfStream

  /** Where a written frame comes from. */
  datatype Origin =
    | Forwarded(bytes: string)
    | Rewritten(bytes: string, texts: seq<string>)
    | Patched(bytes: string)
    | Synthetic

  datatype Written = Written(origin: Origin, stamp: Stamp)

  /** The demaskers' factories, and the JSON library's part in demasking whole arguments. */
  datatype Config = Config(plain: View, json: View, validJson: string -> bool, structural: string -> Option<string>)
  {
    function ViewFor(k: Key): View {
      if k.field.FunctionArgs? then json else plain
    }

    ghost predicate Wf() {
      plain.Wf() && json.Wf()
    }

    /** Raw substitution when it leaves valid JSON, else leaf by leaf. */
    function Arguments(masked: string): Option<string> {
      if masked == "" then None else
        var naive := OneShot(plain, masked);
        if validJson(naive) then Some(naive) else structural(masked)
    }

    function Restore(e: Embedded): string {
      if e.args then
        match Arguments(e.text)
        case Some(text) => text
        case None => e.text
      else OneShot(plain, e.text)
    }

    function RestoreAll(es: seq<Embedded>): seq<string> {
      seq(|es|, i requires 0 <= i < |es| => Restore(es[i]))
    }
  }

  // ---- what each field is fed, read off the inputs alone ----

  function FedKey(input: Input): Option<Key> {
    match input
    case Frame(Named(FieldDelta(k, fragment), _), _) => if fragment != "" then Some(k) else None
    case _ => None
  }

  /** Function-call arguments are flushed when their object closes. */
  function FeedOp(k: Key, ops: seq<Op>, fragment: string): Op {
    Op(fragment, k.field.FunctionArgs? && J.Closes(J.Run(J.FRESH, Fed(ops)), fragment))
  }

  predicate IsEnd(input: Input) {
    input.Frame? && (input.kind.Done? || (input.kind.Named? && input.kind.event.Terminal?))
  }

  predicate EndedIn(inputs: seq<Input>) {
    inputs != [] && (EndedIn(inputs[..|inputs| - 1]) || IsEnd(inputs[|inputs| - 1]))
  }

  predicate Flushes(ended: bool, input: Input, k: Key) {
    match input
    case Frame(Named(FieldDone(key, _), _), _) => key == k
    case Frame(Named(Terminal(_), _), _) => true
    case Frame(Done, _) => true
    case EndOfStream => !ended
    case _ => false
  }

  function NextOps(ended: bool, input: Input, k: Key, ops: seq<Op>): seq<Op> {
    if FedKey(input) == Some(k) then ops + [FeedOp(k, ops, input.kind.event.fragment)]
    else if Flushes(ended, input, k) && ops != [] then ops + [FLUSH]
    else ops
  }

  /** The calls on the demasker of one field. */
  function KeyOps(inputs: seq<Input>, k: Key): seq<Op> {
    if inputs == [] then [] else
      var before, input := inputs[..|inputs| - 1], inputs[|inputs| - 1];
      NextOps(EndedIn(before), input, k, KeyOps(before, k))
  }

  /** What becomes of a frame that feeds no demasker: forwarded, or its whole texts restored. */
  function Restated(c: Config, input: Input): Option<Origin> {
    match input
    case EndOfStream => None
    case Frame(Done, bytes) => Some(Forwarded(bytes))
    case Frame(Passthrough, bytes) => Some(Forwarded(bytes))
    case Frame(Named(event, _), bytes) =>
      match event
      case FieldDelta(_, fragment) => if fragment == "" then Some(Forwarded(bytes)) else None
      case FieldDone(k, text) =>
        if text == "" then Some(Forwarded(bytes))
        else if k.field.FunctionArgs? then
          (match c.Arguments(text)
           case Some(restored) => Some(Rewritten(bytes, [restored]))
           case None => Some(Forwarded(bytes)))
        else Some(Rewritten(bytes, [OneShot(c.plain, text)]))
      case PartDone(text) => Some(if text == "" then Forwarded(bytes) else Rewritten(bytes, [OneShot(c.plain, text)]))
      case ItemDone(item) =>
        Some(if item.None? then Forwarded(bytes) else Rewritten(bytes, c.RestoreAll(item.value)))
      case Terminal(texts) => Some(Rewritten(bytes, c.RestoreAll(texts)))
      case OtherEvent => Some(Forwarded(bytes))
  }

  function NextRestated(c: Config, input: Input, frames: seq<Origin>): seq<Origin> {
    match Restated(c, input)
    case Some(origin) => frames + [origin]
    case None => frames
  }

  function RestatedAll(c: Config, inputs: seq<Input>): seq<Origin> {
    if inputs == [] then [] else NextRestated(c, inputs[|inputs| - 1], RestatedAll(c, inputs[..|inputs| - 1]))
  }

  function NumberOf(input: Input): Option<int> {
    if input.Frame? && input.kind.Named? then input.kind.number else None
  }

  function Numbers(inputs: seq<Input>): seq<Option<int>> {
    if inputs == [] then [] else Numbers(inputs[..|inputs| - 1]) + [NumberOf(inputs[|inputs| - 1])]
  }

  lemma Advance(c: Config, inputs: seq<Input>, input: Input)
    ensures forall k :: KeyOps(inputs + [input], k) == NextOps(EndedIn(inputs), input, k, KeyOps(inputs, k))
    ensures EndedIn(inputs + [input]) == (EndedIn(inputs) || IsEnd(input))
    ensures RestatedAll(c, inputs + [input]) == NextRestated(c, input, RestatedAll(c, inputs))
    ensures Numbers(inputs + [input]) == Numbers(inputs) + [NumberOf(input)]
  {
    SnocParts(inputs, input);
  }

  lemma AdvanceOps(inputs: seq<Input>, input: Input)
    ensures forall k :: KeyOps(inputs + [input], k) == NextOps(EndedIn(inputs), input, k, KeyOps(inputs, k))
  {
    SnocParts(inputs, input);
  }

  // ---- what has been written ----

  function Origins(ws: seq<Written>): seq<Origin> {
    seq(|ws|, i requires 0 <= i < |ws| => ws[i].origin)
  }

  function Stamps(outs: seq<Out<Key, Written>>): seq<Stamp> {
    seq(|outs|, i requires 0 <= i < |outs| => outs[i].frame.stamp)
  }

  lemma WrittenSnoc(outs: seq<Out<Key, Written>>, out: Out<Key, Written>)
    ensures Stamps(outs + [out]) == Stamps(outs) + [out.frame.stamp]
    ensures Origins(Others(outs + [out]))
            == if out.Other? then Origins(Others(outs)) + [out.frame.origin] else Origins(Others(outs))
  {
    OutSnoc(outs, out);
  }

  /** Numbers follow the counter; a well-numbered stream leaves its numbers increasing. */
  ghost predicate Sequenced(outs: seq<Out<Key, Written>>, outSeq: int, numbers: seq<Option<int>>) {
    && Numbered(Stamps(outs)) && outSeq == LastNumber(Stamps(outs))
    && (Increasing(numbers) ==>
          Increasing(Upstreams(Stamps(outs))) && LastUpstream(Upstreams(Stamps(outs))) <= LastUpstream(numbers))
  }

  lemma StampSnoc(stamps: seq<Stamp>, st: Stamp)
    ensures Numbered(stamps + [st]) <==>
            Numbered(stamps) && st.number == Assigned(LastNumber(stamps), st.upstream, st.synthetic)
    ensures LastNumber(stamps + [st]) == if st.number.Some? then st.number.value else LastNumber(stamps)
    ensures Upstreams(stamps + [st]) == Upstreams(stamps) + [if st.synthetic then None else st.upstream]
  {
    SnocParts(stamps, st);
  }

  lemma NumberSnoc(numbers: seq<Option<int>>, u: Option<int>)
    ensures Increasing(numbers + [u]) <==> Increasing(numbers) && (u.Some? ==> u.value > LastUpstream(numbers))
    ensures LastUpstream(numbers + [u]) == if u.Some? then u.value else LastUpstream(numbers)
  {
    SnocParts(numbers, u);
  }

  function AfterNumber(outSeq: int, number: Option<int>): int {
    if number.Some? then number.value else outSeq
  }

  lemma SyntheticWritten(outs: seq<Out<Key, Written>>, outSeq: int, numbers: seq<Option<int>>, out: Out<Key, Written>)
    requires Sequenced(outs, outSeq, numbers) && out.frame.stamp == Stamp(None, true, Some(outSeq + 1))
    ensures Sequenced(outs + [out], outSeq + 1, numbers)
  {
    hide Numbered, LastNumber, Upstreams, Increasing, LastUpstream, Stamps;
    WrittenSnoc(outs, out);
    StampSnoc(Stamps(outs), out.frame.stamp);
    NumberSnoc(Upstreams(Stamps(outs)), None);
  }

  /** Writing the frame of the input at hand, with the number it came with. */
  lemma FrameWritten(outs: seq<Out<Key, Written>>, outSeq: int, numbers: seq<Option<int>>, u: Option<int>, out: Out<Key, Written>)
    requires Sequenced(outs, outSeq, numbers) && out.frame.stamp == Stamp(u, false, Assigned(outSeq, u, false))
    ensures Sequenced(outs + [out], AfterNumber(outSeq, out.frame.stamp.number), numbers + [u])
  {
    hide Numbered, LastNumber, Upstreams, Increasing, LastUpstream, Stamps;
    WrittenSnoc(outs, out);
    StampSnoc(Stamps(outs), out.frame.stamp);
    NumberSnoc(Upstreams(Stamps(outs)), u);
    NumberSnoc(numbers, u);
  }

  lemma FrameDropped(outs: seq<Out<Key, Written>>, outSeq: int, numbers: seq<Option<int>>, u: Option<int>)
    requires Sequenced(outs, outSeq, numbers)
    ensures Sequenced(outs, outSeq, numbers + [u])
  {
    hide Numbered, LastNumber, Upstreams, Increasing, LastUpstream, Stamps;
    NumberSnoc(numbers, u);
  }

  // ---- the processor ----

  function TrackOf(accums: map<Key, J.Track>, k: Key): J.Track {
    if k in accums then accums[k] else J.FRESH
  }

  ghost predicate Closers(ops: map<Key, seq<Op>>, accums: map<Key, J.Track>) {
    forall k: Key :: k.field.FunctionArgs? ==> TrackOf(accums, k) == J.Run(J.FRESH, Fed(OpsOf(ops, k)))
  }

  ghost predicate Mirrors(c: Config, ops: map<Key, seq<Op>>, outs: seq<Out<Key, Written>>,
                          accums: map<Key, J.Track>, completed: bool, inputs: seq<Input>)
  {
    && (forall k :: OpsOf(ops, k) == KeyOps(inputs, k))
    && (forall k :: k in ops ==> ops[k] != [])
    && Delivered(k => c.ViewFor(k), ops, outs)
    && Origins(Others(outs)) == RestatedAll(c, inputs)
    && Closers(ops, accums)
    && completed == EndedIn(inputs)
  }

  lemma NothingYet(c: Config)
    ensures Mirrors(c, map[], [], map[], false, []) && Sequenced([], -1, Numbers([]))
  {
    hide J.Closes, Config.ViewFor, Step;
    assert Stamps([]) == [];
    assert J.Run(J.FRESH, "") == J.FRESH && Fed([]) == "";
    assert forall k: Key :: OpsOf(map[], k) == [] && TrackOf(map[], k) == J.FRESH;
  }

  lemma FlushedClosers(ops: map<Key, seq<Op>>, accums: map<Key, J.Track>, keys: set<Key>)
    requires Closers(ops, accums)
    ensures Closers(AfterFlush(ops, keys), accums)
  {
    forall k: Key
      ensures Fed(OpsOf(AfterFlush(ops, keys), k)) == Fed(OpsOf(ops, k))
    {
      FedSnoc(OpsOf(ops, k), FLUSH);
      assert Fed(OpsOf(ops, k)) + "" == Fed(OpsOf(ops, k));
    }
  }

  /** A delta that feeds its field: `outs2` is what was written after the demasker call. */
  lemma FeedStep(c: Config, ops: map<Key, seq<Op>>, outs: seq<Out<Key, Written>>, outs2: seq<Out<Key, Written>>,
                 accums: map<Key, J.Track>, accums2: map<Key, J.Track>, completed: bool, inputs: seq<Input>, input: Input, key: Key)
    requires Mirrors(c, ops, outs, accums, completed, inputs)
    requires FedKey(input) == Some(key) && Others(outs2) == Others(outs)
    requires forall k :: k != key ==> TrackOf(accums2, k) == TrackOf(accums, k)
    requires key.field.FunctionArgs? ==> TrackOf(accums2, key) == J.Run(TrackOf(accums, key), input.kind.event.fragment)
    requires Delivered(k => c.ViewFor(k), AfterCall(ops, key, FeedOp(key, OpsOf(ops, key), input.kind.event.fragment)), outs2)
    ensures Mirrors(c, AfterCall(ops, key, FeedOp(key, OpsOf(ops, key), input.kind.event.fragment)), outs2, accums2,
                    completed, inputs + [input])
  {
    hide KeyOps, EndedIn, Delivered, Others, Closers, FeedOp, TrackOf, Origins, RestatedAll, Config.ViewFor;
    Advance(c, inputs, input);
    FedClosers(ops, accums, accums2, key, input.kind.event.fragment);
  }

  lemma FedClosers(ops: map<Key, seq<Op>>, accums: map<Key, J.Track>, accums2: map<Key, J.Track>, key: Key, fragment: string)
    requires Closers(ops, accums)
    requires forall k :: k != key ==> TrackOf(accums2, k) == TrackOf(accums, k)
    requires key.field.FunctionArgs? ==> TrackOf(accums2, key) == J.Run(TrackOf(accums, key), fragment)
    ensures Closers(AfterCall(ops, key, FeedOp(key, OpsOf(ops, key), fragment)), accums2)
  {
    hide J.Run, J.Closes, Fed, TrackOf;
    FedSnoc(OpsOf(ops, key), FeedOp(key, OpsOf(ops, key), fragment));
    J.RunAppend(J.FRESH, Fed(OpsOf(ops, key)), fragment);
  }

  lemma EndWritesNothing(c: Config, input: Input)
    ensures input.EndOfStream? ==> Restated(c, input).None?
  {
  }

  lemma FlushedOps(ops: map<Key, seq<Op>>, completed: bool, inputs: seq<Input>, input: Input, keys: set<Key>)
    requires forall k :: OpsOf(ops, k) == KeyOps(inputs, k)
    requires forall k :: k in ops ==> ops[k] != []
    requires FedKey(input).None?
    requires forall k :: k in ops ==> (k in keys <==> Flushes(completed, input, k))
    ensures forall k :: OpsOf(AfterFlush(ops, keys), k) == NextOps(completed, input, k, KeyOps(inputs, k))
    ensures forall k :: k in AfterFlush(ops, keys) ==> AfterFlush(ops, keys)[k] != []
  {
    hide KeyOps, Flushes, FedKey;
  }

  /** An input that may flush fields and is then written, if it is a frame. */
  lemma FlushedStep(c: Config, ops: map<Key, seq<Op>>, outs: seq<Out<Key, Written>>, outs2: seq<Out<Key, Written>>,
                    accums: map<Key, J.Track>, completed: bool, inputs: seq<Input>, input: Input, keys: set<Key>, w: Written)
    requires Mirrors(c, ops, outs, accums, completed, inputs)
    requires FedKey(input).None?
    requires forall k :: k in ops ==> (k in keys <==> Flushes(completed, input, k))
    requires Delivered(k => c.ViewFor(k), AfterFlush(ops, keys), outs2) && Others(outs2) == Others(outs)
    requires input.Frame? ==> Restated(c, input) == Some(w.origin)
    ensures Mirrors(c, AfterFlush(ops, keys), if input.Frame? then outs2 + [Other(w)] else outs2,
                    accums, completed || IsEnd(input), inputs + [input])
  {
    hide KeyOps, EndedIn, Delivered, Others, Closers, Origins, RestatedAll, NextOps, AfterFlush, OpsOf, IsEnd, Flushes,
         FedKey, Restated, Config.ViewFor;
    Advance(c, inputs, input);
    FlushedOps(ops, completed, inputs, input, keys);
    EndWritesNothing(c, input);
    FlushedClosers(ops, accums, keys);
    if input.Frame? {
      DeliveredOther(k => c.ViewFor(k), AfterFlush(ops, keys), outs2, w);
      WrittenSnoc(outs2, Out<Key, Written>.Other(w));
    }
  }

  // ---- which input a frame comes from ----

  /** A frame made for text that surfaced in a flush: no upstream number belongs to it. */
  const MADE: Written -> bool := (w: Written) => w.origin.Synthetic? && w.stamp.synthetic && w.stamp.upstream.None?

  /** The frame carries the number the input came with. */
  predicate Bears(o: Out<Key, Written>, input: Input) {
    !o.frame.stamp.synthetic && o.frame.stamp.upstream == NumberOf(input)
  }

  /** The frame of a delta with the text its demasker let go. */
  predicate Delta(o: Out<Key, Written>, input: Input, k: Key) {
    input.Frame? && o.Text? && o.text != "" && o.key == k && o.frame.origin == Patched(input.bytes) && Bears(o, input)
  }

  /** The frame of any other input, forwarded or rewritten. */
  predicate Statement(c: Config, o: Out<Key, Written>, input: Input) {
    o.Other? && Some(o.frame.origin) == Restated(c, input) && Bears(o, input)
  }

  /**
   What handling an input adds: for a delta its frame at most, for another frame the text it flushes
   and then itself, and at the end of the stream the text it flushes.
   */
  ghost predicate Adds(c: Config, ended: bool, input: Input, outs: seq<Out<Key, Written>>, outs2: seq<Out<Key, Written>>) {
    && outs <= outs2
    && match FedKey(input)
       case Some(k) => outs2 == outs || (|outs2| == |outs| + 1 && Delta(outs2[|outs|], input, k))
       case None =>
         if Restated(c, input).None? then AddsFlushed(ended, input, outs, outs2)
         else |outs2| > |outs| && AddsFlushed(ended, input, outs, outs2[..|outs2| - 1])
              && Statement(c, outs2[|outs2| - 1], input)
  }

  /** Only text of fields the input flushes was added. */
  predicate AddsFlushed(ended: bool, input: Input, outs: seq<Out<Key, Written>>, outs2: seq<Out<Key, Written>>) {
    outs <= outs2 && forall i :: |outs| <= i < |outs2| ==> Inserted(MADE, outs2[i]) && Flushes(ended, input, outs2[i].key)
  }

  lemma StatementIs(c: Config, w: Written, input: Input)
    requires Some(w.origin) == Restated(c, input) && !w.stamp.synthetic && w.stamp.upstream == NumberOf(input)
    ensures Statement(c, Out<Key, Written>.Other(w), input)
  {
  }

  lemma EmitAdds(c: Config, ended: bool, input: Input, outs: seq<Out<Key, Written>>, mid: seq<Out<Key, Written>>,
                 keys: set<Key>, w: Written)
    requires Surfaced(MADE, outs, mid, keys) && forall k :: k in keys ==> Flushes(ended, input, k)
    requires FedKey(input).None? && Statement(c, Out<Key, Written>.Other(w), input)
    ensures Adds(c, ended, input, outs, mid + [Other(w)])
  {
    hide Inserted, Restated, Bears, Flushes, FedKey;
    assert (mid + [Out<Key, Written>.Other(w)])[..|mid|] == mid;
  }

  lemma EndAdds(c: Config, ended: bool, outs: seq<Out<Key, Written>>, outs2: seq<Out<Key, Written>>, keys: set<Key>)
    requires Surfaced(MADE, outs, outs2, keys) && forall k :: k in keys ==> Flushes(ended, EndOfStream, k)
    ensures Adds(c, ended, EndOfStream, outs, outs2)
  {
    hide Inserted, Flushes;
  }

  /** At most one frame was added, the one of a delta of the field. */
  predicate Patches(outs: seq<Out<Key, Written>>, outs2: seq<Out<Key, Written>>, bytes: string, number: Option<int>, key: Key) {
    && outs <= outs2
    && (outs2 == outs ||
        var o := outs2[|outs|];
        |outs2| == |outs| + 1 && o.Text? && o.text != "" && o.key == key
        && o.frame.origin == Patched(bytes) && o.frame.stamp.upstream == number && !o.frame.stamp.synthetic)
  }

  lemma DeltaAdds(c: Config, ended: bool, bytes: string, number: Option<int>, key: Key, fragment: string,
                  outs: seq<Out<Key, Written>>, outs2: seq<Out<Key, Written>>)
    requires fragment != "" && Patches(outs, outs2, bytes, number, key)
    ensures Adds(c, ended, Frame(Named(FieldDelta(key, fragment), number), bytes), outs, outs2)
  {
  }

  /**
   After input `j`, which added the frames from `lo` to `n`, the client has what each demasker
   emitted and every other frame so far.
   */
  ghost predicate Cut(c: Config, outs: seq<Out<Key, Written>>, lo: nat, n: nat, inputs: seq<Input>, j: nat)
    requires j < |inputs|
  {
    && lo <= n <= |outs|
    && (forall k :: ClientText(outs[..n], k) == Stream(c.ViewFor(k), KeyOps(inputs[..j + 1], k)).0)
    && Origins(Others(outs[..n])) == RestatedAll(c, inputs[..j + 1])
    && Adds(c, EndedIn(inputs[..j]), inputs[j], outs[..lo], outs[..n])
  }

  /** Every frame written belongs to the input during which it was written. */
  ghost predicate History(c: Config, outs: seq<Out<Key, Written>>, cuts: seq<nat>, inputs: seq<Input>) {
    && |cuts| == |inputs| && Begins(cuts, |cuts|) == |outs|
    && forall j: nat :: j < |cuts| ==> Cut(c, outs, Begins(cuts, j), cuts[j], inputs, j)
  }

  lemma HistoryStep(c: Config, ops: map<Key, seq<Op>>, outs: seq<Out<Key, Written>>, outs2: seq<Out<Key, Written>>,
                    accums: map<Key, J.Track>, completed: bool, cuts: seq<nat>, inputs: seq<Input>, input: Input)
    requires History(c, outs, cuts, inputs)
    requires Mirrors(c, ops, outs2, accums, completed, inputs + [input])
    requires Adds(c, EndedIn(inputs), input, outs, outs2)
    ensures History(c, outs2, cuts + [|outs2|], inputs + [input])
  {
    hide Cut, Adds, Mirrors, EndedIn;
    AddsMore(c, EndedIn(inputs), input, outs, outs2);
    var all, cuts2 := inputs + [input], cuts + [|outs2|];
    forall j: nat | j < |cuts2|
      ensures Cut(c, outs2, Begins(cuts2, j), cuts2[j], all, j)
    {
      if j < |cuts| {
        CutStays(c, outs, outs2, Begins(cuts, j), cuts[j], inputs, input, j);
      } else {
        NewCut(c, ops, outs, outs2, accums, completed, inputs, input);
      }
    }
  }

  lemma CutStays(c: Config, outs: seq<Out<Key, Written>>, outs2: seq<Out<Key, Written>>, lo: nat, n: nat,
                 inputs: seq<Input>, input: Input, j: nat)
    requires j < |inputs| && Cut(c, outs, lo, n, inputs, j) && outs <= outs2
    ensures Cut(c, outs2, lo, n, inputs + [input], j)
  {
    hide KeyOps, EndedIn, RestatedAll, Others, ClientText, Stream, Config.ViewFor, Origins, Adds;
    AppendDrop(inputs, [input], j + 1);
    AppendDrop(inputs, [input], j);
    assert outs2[..n] == outs[..n] && outs2[..lo] == outs[..lo];
  }

  lemma NewCut(c: Config, ops: map<Key, seq<Op>>, outs: seq<Out<Key, Written>>, outs2: seq<Out<Key, Written>>,
               accums: map<Key, J.Track>, completed: bool, inputs: seq<Input>, input: Input)
    requires Mirrors(c, ops, outs2, accums, completed, inputs + [input])
    requires Adds(c, EndedIn(inputs), input, outs, outs2)
    ensures Cut(c, outs2, |outs|, |outs2|, inputs + [input], |inputs|)
  {
    hide KeyOps, EndedIn, RestatedAll, Others, ClientText, Stream, Config.ViewFor, Origins, Adds, Closers;
    AddsMore(c, EndedIn(inputs), input, outs, outs2);
    var all := inputs + [input];
    assert all[..|inputs| + 1] == all && all[..|inputs|] == inputs;
    assert outs2[..|outs2|] == outs2 && outs2[..|outs|] == outs;
  }

  lemma AddsMore(c: Config, ended: bool, input: Input, outs: seq<Out<Key, Written>>, outs2: seq<Out<Key, Written>>)
    requires Adds(c, ended, input, outs, outs2)
    ensures outs <= outs2
  {
  }

  function Decode(decode: string -> (Event, Option<int>), bytes: string): Input {
    match EventFrame.Classify(bytes)
    case Done => Frame(Done, bytes)
    case Passthrough => Frame(Passthrough, bytes)
    case Event(_, data) => Frame(Named(decode(data).0, decode(data).1), bytes)
  }

  function Reader(decode: string -> (Event, Option<int>)): string -> Input {
    (bytes: string) => Decode(decode, bytes)
  }

  class Processor {
    const c: Config
    const fields: FieldDemaskers<Key>
    const decode: string -> (Event, Option<int>)
    var tailBuf: string
    var outputBuf: seq<Out<Key, Written>>
    var accums: map<Key, J.Track>
    var outSeq: int
    var completed: bool
    ghost var taken: seq<Out<Key, Written>>
    ghost var inputs: seq<Input>
    ghost var cuts: seq<nat>

    ghost function Outs(): seq<Out<Key, Written>>
      reads this
    {
      taken + outputBuf
    }

    /** In the middle of handling an input: fields delivered, numbers in order. */
    ghost predicate Sound()
      reads this, fields, fields.repr
    {
      && fields.Valid() && fields.views == (k => c.ViewFor(k))
      && Delivered(fields.views, fields.ops, Outs())
      && Sequenced(Outs(), outSeq, Numbers(inputs))
    }

    ghost predicate Tracks(seen: seq<Input>)
      reads this, fields, fields.repr
    {
      && fields.Valid() && fields.views == (k => c.ViewFor(k))
      && Mirrors(c, fields.ops, Outs(), accums, completed, seen)
      && Sequenced(Outs(), outSeq, Numbers(seen))
    }

    ghost predicate Valid()
      reads this, fields, fields.repr
    {
      Tracks(inputs) && History(c, Outs(), cuts, inputs)
    }

    constructor (c: Config, decode: string -> (Event, Option<int>), cpus: nat)
      requires cpus > 0 && c.Wf()
      ensures Valid() && fresh(fields) && fresh(fields.repr) && this.c == c && this.decode == decode
      ensures inputs == [] && Outs() == [] && tailBuf == ""
    {
      hide View.Wf;
      this.c := c;
      fields := new FieldDemaskers(k => c.ViewFor(k), cpus);
      this.decode := decode;
      tailBuf, outputBuf, accums, outSeq, completed := "", [], map[], -1, false;
      taken, inputs, cuts := [], [], [];
      new;
      NothingYet(c);
    }

    method WriteOutput(out: Out<Key, Written>)
      modifies this`outputBuf
      ensures Outs() == old(Outs()) + [out]
    {
      outputBuf := outputBuf + [out];
      Reassociate(taken, old(outputBuf), [out]);
    }

    /** Claims the number the next frame must carry. */
    method NextOutSeq(upstream: int) returns (number: int)
      modifies this`outSeq
      ensures Some(number) == Assigned(old(outSeq), Some(upstream), false) && outSeq == number
    {
      if upstream > outSeq {
        outSeq := upstream;
      } else {
        outSeq := outSeq + 1;
      }
      return outSeq;
    }

    method Claim(upstream: Option<int>) returns (stamp: Stamp)
      modifies this`outSeq
      ensures stamp == Stamp(upstream, false, Assigned(old(outSeq), upstream, false))
      ensures outSeq == AfterNumber(old(outSeq), stamp.number)
    {
      if upstream.None? {
        return Stamp(None, false, None);
      }
      var number := NextOutSeq(upstream.value);
      return Stamp(upstream, false, Some(number));
    }

    /** One flush; text that surfaces goes out as a synthetic delta with the next number. */
    method FlushKey(key: Key)
      requires Sound()
      modifies this`outputBuf, this`outSeq, fields, fields.repr
      ensures Sound() && fresh(fields.repr - old(fields.repr))
      ensures fields.ops == AfterFlush(old(fields.ops), {key})
      ensures Others(Outs()) == Others(old(Outs())) && Surfaced(MADE, old(Outs()), Outs(), {key})
    {
      hide Numbers, Delivered, Sequenced, FieldDemaskers.Valid, Stream, Step, Others, ClientText, AfterCall, Config.ViewFor,
           Surfaced;
      ghost var w := Written(Synthetic, Stamp(None, true, Some(outSeq + 1)));
      LiveKeys(fields);
      FlushOne(fields.ops, key);
      SurfacedNone(MADE, Outs(), {key});
      if key !in fields.demaskers {
        return;
      }
      DeliveredCall(fields.views, fields.ops, Outs(), key, FLUSH, w);
      var text := fields.DemaskChunk(key, "", true);
      if text != "" {
        OutSnoc(Outs(), Text(key, text, w));
        SyntheticWritten(Outs(), outSeq, Numbers(inputs), Text(key, text, w));
        SurfacedOne(MADE, Outs(), Text(key, text, w));
        outSeq := outSeq + 1;
        WriteOutput(Text(key, text, Written(Synthetic, Stamp(None, true, Some(outSeq)))));
      }
    }

    /** Flushes the given live demaskers in some order. */
    method FlushKeys(keys: set<Key>)
      requires Sound()
      modifies this`outputBuf, this`outSeq, fields, fields.repr
      ensures Sound() && fresh(fields.repr - old(fields.repr))
      ensures fields.ops == AfterFlush(old(fields.ops), keys)
      ensures Others(Outs()) == Others(old(Outs())) && Surfaced(MADE, old(Outs()), Outs(), keys)
    {
      hide *;
      var todo := keys;
      assert keys - todo == {};
      FlushNone(fields.ops);
      SurfacedNone(MADE, Outs(), {});
      while todo != {}
        invariant todo <= keys
        invariant Sound() && fresh(fields.repr - old(fields.repr))
        invariant fields.ops == AfterFlush(old(fields.ops), keys - todo)
        invariant Others(Outs()) == Others(old(Outs())) && Surfaced(MADE, old(Outs()), Outs(), keys - todo)
        decreases |todo|
      {
        var key :| key in todo;
        FlushMore(old(fields.ops), keys - todo, {key});
        assert keys - (todo - {key}) == keys - todo + {key};
        ghost var done, mid := keys - todo, Outs();
        todo := todo - {key};
        FlushKey(key);
        SurfacedMore(MADE, old(Outs()), mid, Outs(), done, {key});
      }
      assert keys - {} == keys;
    }

    method FlushAll()
      requires Sound()
      modifies this`outputBuf, this`outSeq, fields, fields.repr
      ensures Sound() && fresh(fields.repr - old(fields.repr))
      ensures fields.ops == AfterFlush(old(fields.ops), old(fields.ops).Keys)
      ensures Others(Outs()) == Others(old(Outs())) && Surfaced(MADE, old(Outs()), Outs(), old(fields.ops).Keys)
    {
      hide Delivered, Sequenced, Others, AfterFlush, Surfaced;
      FlushKeys(fields.demaskers.Keys);
    }

    /** Writes the frame of the input at hand, which feeds no demasker, after its flushes. */
    method Emit(origin: Origin, upstream: Option<int>, ghost was: map<Key, seq<Op>>, ghost before: seq<Out<Key, Written>>,
                ghost wasEnded: bool, ghost input: Input, ghost keys: set<Key>)
      requires Sound() && Surfaced(MADE, before, Outs(), keys) && input.Frame?
      requires Mirrors(c, was, before, accums, wasEnded, inputs) && completed == (wasEnded || IsEnd(input))
      requires FedKey(input).None? && Restated(c, input) == Some(origin) && NumberOf(input) == upstream
      requires forall k :: k in was ==> (k in keys <==> Flushes(wasEnded, input, k))
      requires forall k :: k in keys ==> Flushes(wasEnded, input, k)
      requires fields.ops == AfterFlush(was, keys) && Others(Outs()) == Others(before)
      modifies this`outputBuf, this`outSeq
      ensures Tracks(inputs + [input]) && Adds(c, wasEnded, input, before, Outs())
    {
      hide Mirrors, Delivered, Sequenced, Others, AfterFlush, Flushes, IsEnd, Restated, Config.ViewFor, Assigned, Surfaced, Adds,
           FedKey, NumberOf, Numbers, FieldDemaskers.Valid, Statement;
      var s := outSeq;
      var stamp := Claim(upstream);
      var w := Written(origin, stamp);
      FrameWritten(Outs(), s, Numbers(inputs), upstream, Other(w));
      FlushedStep(c, was, before, Outs(), accums, wasEnded, inputs, input, keys, w);
      StatementIs(c, w, input);
      EmitAdds(c, wasEnded, input, before, Outs(), keys, w);
      Advance(c, inputs, input);
      WriteOutput(Other(w));
    }

    /** One demasker call for a delta; what it returns is written in the delta's own frame. */
    method Feed(bytes: string, number: Option<int>, key: Key, op: Op)
      requires Sound()
      modifies this`outputBuf, this`outSeq, fields, fields.repr
      ensures fields.Valid() && fresh(fields.repr - old(fields.repr))
      ensures fields.ops == AfterCall(old(fields.ops), key, op)
      ensures Delivered(fields.views, fields.ops, Outs())
      ensures Sequenced(Outs(), outSeq, Numbers(inputs) + [number])
      ensures Others(Outs()) == Others(old(Outs()))
      ensures Patches(old(Outs()), Outs(), bytes, number, key)
    {
      hide Numbers, Delivered, Sequenced, FieldDemaskers.Valid, Stream, Step, Others, ClientText, AfterCall,
           Config.ViewFor, Assigned;
      var s := outSeq;
      ghost var w := Written(Patched(bytes), Stamp(number, false, Assigned(s, number, false)));
      DeliveredCall(fields.views, fields.ops, Outs(), key, op, w);
      FrameDropped(Outs(), s, Numbers(inputs), number);
      var text := fields.DemaskChunk(key, op.chunk, op.flush);
      if text != "" {
        var stamp := Claim(number);
        OutSnoc(Outs(), Text(key, text, w));
        FrameWritten(Outs(), s, Numbers(inputs), number, Text(key, text, w));
        WriteOutput(Text(key, text, Written(Patched(bytes), stamp)));
      }
    }

    /** A non-empty delta is fed to its demasker; arguments are flushed when their object closes. */
    method HandleDelta(bytes: string, number: Option<int>, key: Key, fragment: string)
      requires Tracks(inputs) && fragment != ""
      modifies this`outputBuf, this`outSeq, this`accums, fields, fields.repr
      ensures var input := Frame(Named(FieldDelta(key, fragment), number), bytes);
              Tracks(inputs + [input]) && Adds(c, completed, input, old(Outs()), Outs())
      ensures fresh(fields.repr - old(fields.repr))
    {
      hide Mirrors, Numbers, Delivered, Sequenced, FieldDemaskers.Valid, Others, AfterCall,
           Config.ViewFor, J.Run, J.Closes, Fed, OpsOf, Adds, Patches;
      ghost var input := Frame(Named(FieldDelta(key, fragment), number), bytes);
      ghost var ops, before, was := fields.ops, Outs(), accums;
      MirrorParts(c, ops, before, accums, completed, inputs, key);
      Advance(c, inputs, input);
      var track := if key in accums then accums[key] else J.FRESH;
      var closed := false;
      if key.field.FunctionArgs? {
        closed := J.Closes(track, fragment);
        accums := accums[key := J.Run(track, fragment)];
      }
      assert Op(fragment, closed) == FeedOp(key, OpsOf(ops, key), fragment);
      Feed(bytes, number, key, Op(fragment, closed));
      FeedStep(c, ops, before, Outs(), was, accums, completed, inputs, input, key);
      DeltaAdds(c, completed, bytes, number, key, fragment, before, Outs());
    }

    /** A frame that feeds and flushes nothing. */
    method HandlePlain(ghost input: Input, origin: Origin, number: Option<int>)
      requires Tracks(inputs) && input.Frame?
      requires FedKey(input).None? && Restated(c, input) == Some(origin) && NumberOf(input) == number
      requires !IsEnd(input) && forall k :: !Flushes(completed, input, k)
      modifies this`outputBuf, this`outSeq
      ensures Tracks(inputs + [input]) && Adds(c, completed, input, old(Outs()), Outs())
    {
      hide Mirrors, Sequenced, Delivered, Others, AfterFlush, Flushes, IsEnd, Restated, Numbers, FieldDemaskers.Valid, Adds, Surfaced;
      SurfacedNone(MADE, Outs(), {});
      MirrorParts(c, fields.ops, Outs(), accums, completed, inputs, Key(0, 0, OutputText));
      FlushNone(fields.ops);
      Emit(origin, number, fields.ops, Outs(), completed, input, {});
    }

    /** The end of one field: its held text goes out first, then its whole text restored. */
    method HandleFieldDone(bytes: string, number: Option<int>, key: Key, text: string)
      requires Tracks(inputs)
      modifies this`outputBuf, this`outSeq, fields, fields.repr
      ensures var input := Frame(Named(FieldDone(key, text), number), bytes);
              Tracks(inputs + [input]) && Adds(c, old(completed), input, old(Outs()), Outs())
      ensures fresh(fields.repr - old(fields.repr))
    {
      hide Mirrors, Sequenced, Delivered, Others, AfterFlush, Numbers, FieldDemaskers.Valid, Config.Arguments, OneShot, Config.ViewFor,
           Adds, Surfaced;
      ghost var input := Frame(Named(FieldDone(key, text), number), bytes);
      MirrorParts(c, fields.ops, Outs(), accums, completed, inputs, key);
      FlushKey(key);
      var origin := Forwarded(bytes);
      if text != "" {
        if key.field.FunctionArgs? {
          var restored := c.Arguments(text);
          if restored.Some? { origin := Rewritten(bytes, [restored.value]); }
        } else {
          origin := Rewritten(bytes, [OneShot(c.plain, text)]);
        }
      }
      Emit(origin, number, old(fields.ops), old(Outs()), completed, input, {key});
    }

    /** The end of the response: all held text goes out first, then the response restored. */
    method HandleTerminal(bytes: string, number: Option<int>, texts: seq<Embedded>)
      requires Tracks(inputs)
      modifies this`outputBuf, this`outSeq, this`completed, fields, fields.repr
      ensures var input := Frame(Named(Terminal(texts), number), bytes);
              Tracks(inputs + [input]) && Adds(c, old(completed), input, old(Outs()), Outs())
      ensures fresh(fields.repr - old(fields.repr))
    {
      hide Mirrors, Sequenced, Delivered, Others, AfterFlush, Numbers, FieldDemaskers.Valid, Config.RestoreAll, Config.ViewFor,
           Adds, Surfaced;
      ghost var input := Frame(Named(Terminal(texts), number), bytes);
      MirrorParts(c, fields.ops, Outs(), accums, completed, inputs, Key(0, 0, OutputText));
      FlushAll();
      completed := true;
      Emit(Rewritten(bytes, c.RestoreAll(texts)), number, old(fields.ops), old(Outs()), old(completed), input, old(fields.ops).Keys);
    }

    method HandleDone(bytes: string)
      requires Tracks(inputs)
      modifies this`outputBuf, this`outSeq, this`completed, fields, fields.repr
      ensures var input := Frame(Done, bytes);
              Tracks(inputs + [input]) && Adds(c, old(completed), input, old(Outs()), Outs())
      ensures fresh(fields.repr - old(fields.repr))
    {
      hide Mirrors, Sequenced, Delivered, Others, AfterFlush, Numbers, FieldDemaskers.Valid, Config.ViewFor, Adds, Surfaced;
      ghost var input := Frame(Done, bytes);
      MirrorParts(c, fields.ops, Outs(), accums, completed, inputs, Key(0, 0, OutputText));
      FlushAll();
      completed := true;
      Emit(Forwarded(bytes), None, old(fields.ops), old(Outs()), old(completed), input, old(fields.ops).Keys);
    }

    method HandleEvent(bytes: string, event: Event, number: Option<int>)
      requires Tracks(inputs)
      modifies this`outputBuf, this`outSeq, this`accums, this`completed, fields, fields.repr
      ensures var input := Frame(Named(event, number), bytes);
              Tracks(inputs + [input]) && Adds(c, old(completed), input, old(Outs()), Outs())
      ensures fresh(fields.repr - old(fields.repr))
    {
      hide Tracks, Config.Arguments, Config.RestoreAll, OneShot, Adds;
      ghost var input := Frame(Named(event, number), bytes);
      match event
      case FieldDelta(key, fragment) =>
        if fragment == "" {
          HandlePlain(input, Forwarded(bytes), number);
        } else {
          HandleDelta(bytes, number, key, fragment);
        }
      case FieldDone(key, text) => HandleFieldDone(bytes, number, key, text);
      case PartDone(text) =>
        HandlePlain(input, if text == "" then Forwarded(bytes) else Rewritten(bytes, [OneShot(c.plain, text)]), number);
      case ItemDone(item) =>
        HandlePlain(input, if item.None? then Forwarded(bytes) else Rewritten(bytes, c.RestoreAll(item.value)), number);
      case Terminal(texts) => HandleTerminal(bytes, number, texts);
      case OtherEvent => HandlePlain(input, Forwarded(bytes), number);
    }

    method HandleFrame(bytes: string)
      requires Tracks(inputs)
      modifies this`outputBuf, this`outSeq, this`accums, this`completed, fields, fields.repr
      ensures var input := Decode(decode, bytes);
              Tracks(inputs + [input]) && Adds(c, old(completed), input, old(Outs()), Outs())
      ensures fresh(fields.repr - old(fields.repr))
    {
      hide Tracks, Config.Arguments, Config.RestoreAll, OneShot, Adds;
      var frame := EventFrame.ClassifyFrame(bytes);
      match frame
      case Done => HandleDone(bytes);
      case Passthrough => HandlePlain(Decode(decode, bytes), Forwarded(bytes), None);
      case Event(_, data) => HandleEvent(bytes, decode(data).0, decode(data).1);
    }

    method ProcessFrame(bytes: string)
      requires Valid()
      modifies this, fields, fields.repr
      ensures Valid() && fresh(fields.repr - old(fields.repr))
      ensures inputs == old(inputs) + [Decode(decode, bytes)]
      ensures old(Outs()) <= Outs() && unchanged(this`tailBuf, this`taken)
    {
      hide Mirrors, Sequenced, History, FieldDemaskers.Valid, Config.ViewFor, Numbers, Restated, Decode, Adds;
      ghost var input := Decode(decode, bytes);
      MirrorParts(c, fields.ops, Outs(), accums, completed, inputs, Key(0, 0, OutputText));
      HandleFrame(bytes);
      AddsMore(c, old(completed), input, old(Outs()), Outs());
      HistoryStep(c, fields.ops, old(Outs()), Outs(), accums, completed, cuts, inputs, input);
      inputs := inputs + [input];
      cuts := cuts + [|Outs()|];
    }

    /** The end of the stream: without a terminal event before it, everything held back is flushed. */
    method HandleEnd()
      requires Tracks(inputs)
      modifies this`outputBuf, this`outSeq, fields, fields.repr
      ensures Tracks(inputs + [EndOfStream]) && fresh(fields.repr - old(fields.repr))
      ensures Adds(c, completed, EndOfStream, old(Outs()), Outs())
    {
      hide Mirrors, Sequenced, FieldDemaskers.Valid, Delivered, Others, AfterFlush, Config.ViewFor, Numbers, Adds, Surfaced;
      SurfacedNone(MADE, Outs(), {});
      MirrorParts(c, fields.ops, Outs(), accums, completed, inputs, Key(0, 0, OutputText));
      FlushNone(fields.ops);
      ghost var keys := if completed then {} else fields.ops.Keys;
      if !completed {
        FlushAll();
      }
      ghost var nothing := Written(Synthetic, Stamp(None, true, None));
      FlushedStep(c, old(fields.ops), old(Outs()), Outs(), accums, completed, inputs, EndOfStream, keys, nothing);
      Advance(c, inputs, EndOfStream);
      FrameDropped(Outs(), outSeq, Numbers(inputs), None);
      EndAdds(c, completed, old(Outs()), Outs(), keys);
    }

    method Finish()
      requires Valid()
      modifies this, fields, fields.repr
      ensures Valid() && fresh(fields.repr - old(fields.repr))
      ensures inputs == old(inputs) + [EndOfStream]
      ensures old(Outs()) <= Outs() && unchanged(this`tailBuf, this`taken)
    {
      hide Mirrors, Sequenced, History, FieldDemaskers.Valid, Config.ViewFor, Numbers, Adds;
      MirrorParts(c, fields.ops, Outs(), accums, completed, inputs, Key(0, 0, OutputText));
      HandleEnd();
      AddsMore(c, completed, EndOfStream, old(Outs()), Outs());
      HistoryStep(c, fields.ops, old(Outs()), Outs(), accums, completed, cuts, inputs, EndOfStream);
      inputs := inputs + [EndOfStream];
      cuts := cuts + [|Outs()|];
    }

    method ProcessChunk(body: string, endOfStream: bool) returns (out: seq<Out<Key, Written>>)
      requires Valid() && outputBuf == []
      modifies this, fields, fields.repr
      ensures Valid() && outputBuf == [] && fresh(fields.repr - old(fields.repr))
      ensures Outs() == old(Outs()) + out
      ensures !endOfStream ==>
                var (frames, tail) := Framing.Split(old(tailBuf) + body);
                inputs == old(inputs) + Framing.ReadAll(Reader(decode), frames) && tailBuf == tail
      ensures endOfStream ==>
                inputs == old(inputs) + Framing.ReadAll(Reader(decode), Framing.Complete(old(tailBuf) + body)) + [EndOfStream]
    {
      hide Mirrors, Sequenced, History, FieldDemaskers.Valid, Framing.Split, Framing.Complete, Decode, Config.ViewFor, Numbers;
      var frames;
      frames, tailBuf := Framing.PrepareFrames(tailBuf, body, endOfStream);
      ghost var tail := tailBuf;
      var i := 0;
      assert Framing.ReadAll(Reader(decode), frames[..0]) == [] && old(inputs) + [] == old(inputs);
      while i < |frames|
        invariant 0 <= i <= |frames|
        invariant Valid() && fresh(fields.repr - old(fields.repr))
        invariant inputs == old(inputs) + Framing.ReadAll(Reader(decode), frames[..i])
        invariant old(Outs()) <= Outs() && tailBuf == tail && taken == old(taken)
      {
        Framing.ReadMore(Reader(decode), frames, i);
        Reassociate(old(inputs), Framing.ReadAll(Reader(decode), frames[..i]), [Decode(decode, frames[i])]);
        ProcessFrame(frames[i]);
        i := i + 1;
      }
      assert frames[..i] == frames;
      if endOfStream {
        Finish();
      }
      out := outputBuf;
      assert taken + [] == taken;
      assert taken + outputBuf + [] == taken + outputBuf;
      taken := taken + outputBuf;
      outputBuf := [];
    }
  }

  lemma MirrorParts(c: Config, ops: map<Key, seq<Op>>, outs: seq<Out<Key, Written>>,
                    accums: map<Key, J.Track>, completed: bool, inputs: seq<Input>, key: Key)
    requires Mirrors(c, ops, outs, accums, completed, inputs)
    ensures Delivered(k => c.ViewFor(k), ops, outs) && completed == EndedIn(inputs)
    ensures key.field.FunctionArgs? ==> TrackOf(accums, key) == J.Run(J.FRESH, Fed(OpsOf(ops, key)))
  {
  }
}
