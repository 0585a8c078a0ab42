/** What a whole Responses stream guarantees, for every run of the processor. */
module ResponsesStream {
  import opened Text
  import opened Demasking
  import opened DemaskLimits
  import opened FieldStreams
  import opened LongForms
  import opened Sequencing
  import opened Responses
  import J = JsonClose
  import Framing

  // ---- the text the events carry ----

  /** The text an event carries for one field. */
  function InputText(input: Input, k: Key): string {
    match input
    case Frame(Named(FieldDelta(key, fragment), _), _) => if key == k then fragment else ""
    case _ => ""
  }

  /** All text the inputs carry for one field. */
  function Deltas(inputs: seq<Input>, k: Key): string {
    if inputs == [] then "" else Deltas(inputs[..|inputs| - 1], k) + InputText(inputs[|inputs| - 1], k)
  }

  predicate CarriesText(input: Input) {
    input.Frame? && input.kind.Named? && input.kind.event.FieldDelta? && input.kind.event.fragment != ""
  }

  /** The object of a tool call's arguments closes with this event. */
  predicate Closing(before: seq<Input>, input: Input, k: Key) {
    var text := InputText(input, k);
    k.field.FunctionArgs? && text != "" && J.Closes(J.Run(J.FRESH, Deltas(before, k)), text)
  }

  predicate IsLast(input: Input) {
    match input
    case Frame(Done, _) => true
    case Frame(Named(Terminal(_), _), _) => true
    case _ => false
  }

  /** The events that end a field: its done event, a terminal event, [DONE], the end of a stream without those. */
  predicate Ends(before: seq<Input>, input: Input, k: Key) {
    match input
    case Frame(Named(FieldDone(key, _), _), _) => key == k
    case EndOfStream => forall i :: i in before ==> !IsLast(i)
    case _ => IsLast(input)
  }

  // ---- the whole texts the events repeat ----

  function WholeTexts(event: Event): Option<seq<Embedded>> {
    match event
    case FieldDone(k, text) => if text == "" then None else Some([Embedded(k.field.FunctionArgs?, text)])
    case PartDone(text) => if text == "" then None else Some([Embedded(false, text)])
    case ItemDone(item) => item
    case Terminal(texts) => Some(texts)
    case _ => None
  }

  /** Restoring the arguments as they are leaves no valid JSON, and neither does restoring them leaf by leaf. */
  predicate KeepsMasked(c: Config, args: string) {
    args == "" || (!c.validJson(OneShot(c.plain, args)) && c.structural(args).None?)
  }

  /** `text` is a repeated text with its placeholders restored. */
  predicate RestoredEntry(c: Config, e: Embedded, text: string) {
    if !e.args then text == OneShot(c.plain, e.text)
    else if KeepsMasked(c, e.text) then text == e.text
    else if c.validJson(OneShot(c.plain, e.text)) then text == OneShot(c.plain, e.text)
    else Some(text) == c.structural(e.text)
  }

  /** What a frame without delta text says to the client: its bytes, or its repeated texts restored. */
  predicate Says(c: Config, input: Input, said: Origin) {
    input.Frame? &&
    var es := if input.kind.Named? then WholeTexts(input.kind.event) else None;
    if es.None? || (input.kind.event.FieldDone? && es.value[0].args && KeepsMasked(c, es.value[0].text)) then
      said == Forwarded(input.bytes)
    else
      && said.Rewritten? && said.bytes == input.bytes && |said.texts| == |es.value|
      && forall i :: 0 <= i < |es.value| ==> RestoredEntry(c, es.value[i], said.texts[i])
  }

  /** The frames without delta text, one after another. */
  ghost predicate Statements(c: Config, said: seq<Origin>, inputs: seq<Input>) {
    if inputs == [] then said == [] else
      var before, input := inputs[..|inputs| - 1], inputs[|inputs| - 1];
      if input.Frame? && !CarriesText(input) then
        said != [] && Says(c, input, said[|said| - 1]) && Statements(c, said[..|said| - 1], before)
      else Statements(c, said, before)
  }

  lemma RestatedSays(c: Config, input: Input)
    ensures if input.Frame? && !CarriesText(input)
            then Restated(c, input).Some? && Says(c, input, Restated(c, input).value)
            else Restated(c, input).None?
  {
    hide OneShot;
  }

  lemma {:induction false} RestatedStatements(c: Config, inputs: seq<Input>)
    ensures Statements(c, RestatedAll(c, inputs), inputs)
  {
    hide Says, Restated, CarriesText;
    if inputs != [] {
      RestatedSays(c, inputs[|inputs| - 1]);
      RestatedStatements(c, inputs[..|inputs| - 1]);
    }
  }

  // ---- what the processor makes of the events ----

  lemma {:induction false} EndSeen(inputs: seq<Input>)
    ensures EndedIn(inputs) <==> exists i :: i in inputs && IsLast(i)
  {
    if inputs != [] {
      var before, last := inputs[..|inputs| - 1], inputs[|inputs| - 1];
      SnocEq(inputs);
      EndSeen(before);
      assert last in inputs && (IsEnd(last) <==> IsLast(last));
      assert forall i :: i in inputs ==> i in before || i == last;
    }
  }

  lemma EndsFlush(before: seq<Input>, input: Input, k: Key)
    ensures Flushes(EndedIn(before), input, k) <==> Ends(before, input, k)
    ensures Ends(before, input, k) ==> !CarriesText(input)
  {
    hide EndedIn;
    EndSeen(before);
  }

  lemma TextIsFed(input: Input, k: Key)
    ensures FedKey(input) == Some(k) <==> InputText(input, k) != ""
    ensures InputText(input, k) != "" ==> InputText(input, k) == input.kind.event.fragment
    ensures CarriesText(input) <==> FedKey(input).Some?
    ensures !CarriesText(input) ==> InputText(input, k) == ""
  {
  }

  /** The calls on one demasker, event by event, and each field is fed exactly the text the events carry for it. */
  lemma CallsFollow(before: seq<Input>, input: Input, k: Key)
    requires Fed(KeyOps(before, k)) == Deltas(before, k)
    ensures var (ops, text) := (KeyOps(before, k), InputText(input, k));
            KeyOps(before + [input], k)
            == if text != "" then ops + [Op(text, Closing(before, input, k))]
               else if Ends(before, input, k) && ops != [] then ops + [FLUSH]
               else ops
  {
    hide FedKey, EndedIn, Flushes, KeyOps, InputText, Ends, CarriesText, J.Run, J.Closes, RestatedAll, Restated, Deltas, Fed;
    AdvanceOps(before, input);
    TextIsFed(input, k);
    EndsFlush(before, input, k);
  }

  lemma DeltasSnoc(before: seq<Input>, input: Input, k: Key)
    ensures Deltas(before + [input], k) == Deltas(before, k) + InputText(input, k)
  {
    SnocParts(before, input);
  }

  lemma {:induction false} DeltasAreFed(inputs: seq<Input>, k: Key)
    ensures Fed(KeyOps(inputs, k)) == Deltas(inputs, k)
  {
    hide KeyOps, InputText, Closing, Ends;
    if inputs == [] {
      NoCalls(k);
    } else {
      var before, input := inputs[..|inputs| - 1], inputs[|inputs| - 1];
      SnocEq(inputs);
      DeltasAreFed(before, k);
      CallsFollow(before, input, k);
      FedSnoc(KeyOps(before, k), FLUSH);
      FedSnoc(KeyOps(before, k), Op(InputText(input, k), Closing(before, input, k)));
      assert Deltas(before, k) + "" == Deltas(before, k);
    }
  }

  lemma NoCalls(k: Key)
    ensures KeyOps([], k) == [] && Fed([]) == ""
  {
  }

  // ---- where a field is flushed ----

  /** No placeholder lies across an end of the field or of its arguments' object. */
  ghost predicate Intact(v: View, inputs: seq<Input>, k: Key) {
    forall j: nat :: j < |inputs| && (Ends(inputs[..j], inputs[j], k) || Closing(inputs[..j], inputs[j], k)) ==>
      IntactAt(v.Whole(), Deltas(inputs, k), |Deltas(inputs[..j + 1], k)|)
  }

  /** A field is flushed nowhere else. */
  lemma {:induction false} FlushedAtEnds(inputs: seq<Input>, k: Key, i: nat) returns (j: nat)
    requires i < |KeyOps(inputs, k)| && KeyOps(inputs, k)[i].flush
    ensures j < |inputs| && (Ends(inputs[..j], inputs[j], k) || Closing(inputs[..j], inputs[j], k))
    ensures Fed(KeyOps(inputs, k)[..i + 1]) == Deltas(inputs[..j + 1], k)
  {
    hide KeyOps, InputText, Closing, Ends, Deltas, Fed;
    if inputs == [] {
      NoCalls(k);
    } else {
      var n := |inputs| - 1;
      var before, ops := inputs[..n], KeyOps(inputs[..n], k);
      SnocEq(inputs);
      DeltasAreFed(before, k);
      CallsFollow(before, inputs[n], k);
      if i < |ops| {
        j := FlushedAtEnds(before, k, i);
        assert inputs[..n][..j] == inputs[..j] && inputs[..n][..j + 1] == inputs[..j + 1];
        assert KeyOps(inputs, k)[..i + 1] == ops[..i + 1];
      } else {
        j := n;
        DeltasAreFed(inputs, k);
        assert inputs[..n + 1] == inputs && KeyOps(inputs, k)[..i + 1] == KeyOps(inputs, k);
      }
    }
  }

  lemma IntactIsUnbroken(v: View, inputs: seq<Input>, k: Key)
    requires Intact(v, inputs, k)
    ensures Unbroken(v, Segments(KeyOps(inputs, k)).0)
  {
    hide KeyOps, Deltas, Ends, Closing, IntactAt, View.Whole, Unbroken, Segments;
    var ops := KeyOps(inputs, k);
    forall i: nat | i < |ops| && ops[i].flush
      ensures IntactAt(v.Whole(), Deltas(inputs, k), |Fed(ops[..i + 1])|)
    {
      var j := FlushedAtEnds(inputs, k, i);
    }
    DeltasAreFed(inputs, k);
    FlushedIntact(v, ops, Deltas(inputs, k));
  }

  /** Since it ended the field has received no text. */
  predicate Ended(inputs: seq<Input>, k: Key) {
    exists m: nat :: m < |inputs| && Ends(inputs[..m], inputs[m], k) && Deltas(inputs[..m + 1], k) == Deltas(inputs, k)
  }

  lemma {:induction false} EndedIsSettled(inputs: seq<Input>, m: nat, k: Key)
    requires m < |inputs| && Ends(inputs[..m], inputs[m], k) && Deltas(inputs[..m + 1], k) == Deltas(inputs, k)
    ensures Segments(KeyOps(inputs, k)).1 == ""
  {
    hide KeyOps, InputText, Closing, Ends, Segments;
    var n := |inputs| - 1;
    var before, input := inputs[..n], inputs[n];
    SnocEq(inputs);
    DeltasAreFed(before, k);
    CallsFollow(before, input, k);
    EndsFlush(before, input, k);
    TextIsFed(input, k);
    SegmentsFlushed(KeyOps(before, k));
    if m < n {
      DeltasGrow(inputs, m + 1, n, k);
      assert Deltas(inputs, k) == Deltas(before, k) + InputText(input, k);
      assert before[..m] == inputs[..m] && before[..m + 1] == inputs[..m + 1];
      EndedIsSettled(before, m, k);
    }
  }

  lemma {:induction false} DeltasGrow(inputs: seq<Input>, i: nat, j: nat, k: Key)
    requires i <= j <= |inputs|
    ensures |Deltas(inputs[..i], k)| <= |Deltas(inputs[..j], k)| <= |Deltas(inputs, k)|
    decreases |inputs|
  {
    hide InputText;
    assert inputs[..|inputs|] == inputs;
    if i < |inputs| {
      var before := inputs[..|inputs| - 1];
      DeltasGrow(before, i, if j < |inputs| then j else |before|, k);
      assert before[..i] == inputs[..i] && (j < |inputs| ==> before[..j] == inputs[..j]);
    }
  }

  /** Nothing is fed after a terminal event or [DONE]. */
  predicate QuietAfterEnd(inputs: seq<Input>) {
    inputs == [] ||
    var before, input := inputs[..|inputs| - 1], inputs[|inputs| - 1];
    QuietAfterEnd(before) && (EndedIn(before) ==> !CarriesText(input))
  }

  lemma {:induction false} QuietIsClosed(inputs: seq<Input>, k: Key)
    requires QuietAfterEnd(inputs) && EndedIn(inputs)
    ensures Closed(KeyOps(inputs, k))
  {
    var before, input := inputs[..|inputs| - 1], inputs[|inputs| - 1];
    if EndedIn(before) { QuietIsClosed(before, k); }
  }

  lemma EndCloses(c: Config, body: seq<Input>, k: Key)
    requires QuietAfterEnd(body)
    ensures Closed(KeyOps(body + [EndOfStream], k))
    ensures Deltas(body + [EndOfStream], k) == Deltas(body, k)
  {
    hide KeyOps, Deltas, EndedIn, RestatedAll;
    Advance(c, body, EndOfStream);
    DeltasSnoc(body, EndOfStream, k);
    assert Deltas(body, k) + "" == Deltas(body, k);
    if EndedIn(body) { QuietIsClosed(body, k); }
  }

  /**
   Conservation: at the end of every stream with no delta after a terminal event, and no flush
   point inside a placeholder, the client has received of each field the one-shot demasking of its
   deltas.
   */
  lemma StreamConserved(c: Config, ops: map<Key, seq<Op>>, outs: seq<Out<Key, Written>>,
                        accums: map<Key, J.Track>, completed: bool, body: seq<Input>, k: Key)
    requires Mirrors(c, ops, outs, accums, completed, body + [EndOfStream])
    requires Steady(c.ViewFor(k)) && Fits(c.ViewFor(k), Deltas(body, k)) && QuietAfterEnd(body)
    requires Intact(c.ViewFor(k), body + [EndOfStream], k)
    ensures ClientText(outs, k) == OneShot(c.ViewFor(k), Deltas(body, k))
  {
    hide Intact, Steady, Fits, KeyOps, Unbroken, Segments, Stream, OneShot, QuietAfterEnd, ClientText, Deltas,
         Closers, RestatedAll, Config.ViewFor;
    var all := body + [EndOfStream];
    EndCloses(c, body, k);
    IntactIsUnbroken(c.ViewFor(k), all, k);
    DeltasAreFed(all, k);
    ClosedWhereFits(c.ViewFor(k), KeyOps(all, k));
  }

  /** A field loses text exactly when some of it arrives after the end and before the next flush. */
  lemma LosesExactlyTheTailAfterEnd(c: Config, body: seq<Input>, k: Key)
    ensures NeverLoses(KeyOps(body + [EndOfStream], k)) <==> !EndedIn(body) || Segments(KeyOps(body, k)).1 == ""
  {
    hide NeverLoses, EndedIn, KeyOps, Segments, RestatedAll;
    Advance(c, body, EndOfStream);
    LosesNothingExactlyWhenFlushed(KeyOps(body + [EndOfStream], k));
    SegmentsFlushed(KeyOps(body, k));
  }

  lemma SegmentsFlushed(ops: seq<Op>)
    ensures Segments(ops + [FLUSH]).1 == "" && Segments([]).1 == ""
  {
    SnocParts(ops, FLUSH);
  }

  /** Input `j` ends field `k`, whose demasker is fit for its text. */
  ghost predicate Ending(c: Config, inputs: seq<Input>, j: nat, k: Key)
    requires j < |inputs|
  {
    && Ends(inputs[..j], inputs[j], k)
    && Steady(c.ViewFor(k)) && Fits(c.ViewFor(k), Deltas(inputs[..j + 1], k))
  }

  /**
   The first `n` frames end with the one of input `j`, and the text before it is all the field was
   fed, restored.
   */
  ghost predicate EndSettled(c: Config, outs: seq<Out<Key, Written>>, n: nat, inputs: seq<Input>, j: nat, k: Key)
    requires j < |inputs|
  {
    var ops := KeyOps(inputs[..j + 1], k);
    && n <= |outs| && Statements(c, Origins(Others(outs[..n])), inputs[..j + 1])
    && ClientText(outs[..n], k) == Restored(c.ViewFor(k), Segments(ops).0)
    && Join(Segments(ops).0) == Deltas(inputs[..j + 1], k)
    && (Intact(c.ViewFor(k), inputs[..j + 1], k) ==>
          ClientText(outs[..n], k) == OneShot(c.ViewFor(k), Deltas(inputs[..j + 1], k)))
    && (inputs[j].Frame? ==>
          n > 0 && outs[n - 1].Other? && Says(c, inputs[j], outs[n - 1].frame.origin)
          && ClientText(outs[..n - 1], k) == ClientText(outs[..n], k))
  }

  /** A flushed field has delivered its text, in one shot when no placeholder lies across a flush. */
  lemma ClosedField(v: View, inputs: seq<Input>, k: Key)
    requires Steady(v) && Fits(v, Deltas(inputs, k)) && Segments(KeyOps(inputs, k)).1 == ""
    ensures var ops := KeyOps(inputs, k);
            && Stream(v, ops) == (Restored(v, Segments(ops).0), "") && Join(Segments(ops).0) == Deltas(inputs, k)
            && (Intact(v, inputs, k) ==> Stream(v, ops).0 == OneShot(v, Deltas(inputs, k)))
  {
    hide *;
    DeltasAreFed(inputs, k);
    SettledWhereFits(v, KeyOps(inputs, k));
    if Intact(v, inputs, k) {
      IntactIsUnbroken(v, inputs, k);
      SettledUnbroken(v, KeyOps(inputs, k));
    }
  }

  /** The frame of an input without delta text is the last written for it. */
  lemma StatementLast(c: Config, outs: seq<Out<Key, Written>>, lo: nat, n: nat, inputs: seq<Input>, j: nat)
    requires j < |inputs| && Cut(c, outs, lo, n, inputs, j) && inputs[j].Frame? && !CarriesText(inputs[j])
    ensures n > 0 && outs[n - 1].Other? && Says(c, inputs[j], outs[n - 1].frame.origin)
    ensures forall k :: ClientText(outs[..n - 1], k) == ClientText(outs[..n], k)
  {
    hide KeyOps, Stream, EndedIn, ClientText, RestatedAll, Config.ViewFor, Config.Arguments, Config.RestoreAll, OneShot, Others, Origins,
         AddsFlushed, Says;
    RestatedSays(c, inputs[j]);
    TakeSnoc(outs, n - 1);
    OutSnoc(outs[..n - 1], outs[n - 1]);
  }

  /**
   Flush before end: when a field's done event, a terminal event, [DONE] or the end of the stream
   has been handled, every demasker it covers holds nothing, all text fed so far is with the
   client, and the event's own frame comes after that text.
   */
  lemma FlushBeforeEnd(c: Config, outs: seq<Out<Key, Written>>, lo: nat, n: nat, inputs: seq<Input>, j: nat, k: Key)
    requires j < |inputs| && Cut(c, outs, lo, n, inputs, j) && Ending(c, inputs, j, k)
    ensures EndSettled(c, outs, n, inputs, j, k)
    ensures Stream(c.ViewFor(k), KeyOps(inputs[..j + 1], k)).1 == ""
  {
    hide Steady, Fits, KeyOps, Segments, Stream, EndedIn, ClientText, Deltas, Restored, RestatedAll, Config.ViewFor, Intact,
         Adds, Ends, Statements, Says, OneShot, Others, Origins;
    RestatedStatements(c, inputs[..j + 1]);
    EndsFlush(inputs[..j], inputs[j], k);
    assert inputs[..j + 1][..j] == inputs[..j] && inputs[..j + 1][..j + 1] == inputs[..j + 1];
    EndedIsSettled(inputs[..j + 1], j, k);
    ClosedField(c.ViewFor(k), inputs[..j + 1], k);
    if inputs[j].Frame? { StatementLast(c, outs, lo, n, inputs, j); }
  }

  /** Every ending frame of the output follows the text it ends. */
  ghost predicate EndsInOrder(c: Config, outs: seq<Out<Key, Written>>, inputs: seq<Input>) {
    exists cuts: seq<nat> :: |cuts| == |inputs| && forall j: nat, k ::
      j < |inputs| && Ending(c, inputs, j, k) ==> EndSettled(c, outs, cuts[j], inputs, j, k)
  }

  lemma HistoryInOrder(c: Config, outs: seq<Out<Key, Written>>, cuts: seq<nat>, inputs: seq<Input>)
    requires History(c, outs, cuts, inputs)
    ensures EndsInOrder(c, outs, inputs)
  {
    hide Cut, Ending, EndSettled;
    forall j: nat, k | j < |inputs| && Ending(c, inputs, j, k)
      ensures EndSettled(c, outs, cuts[j], inputs, j, k)
    {
      FlushBeforeEnd(c, outs, Begins(cuts, j), cuts[j], inputs, j, k);
    }
  }

  /**
   Each whole text an event repeats reaches the client restored; arguments as they are if that leaves
   valid JSON, otherwise leaf by leaf, and unchanged when neither works.
   */
  lemma RepeatedAreRestored(c: Config, outs: seq<Out<Key, Written>>, lo: nat, n: nat, inputs: seq<Input>, j: nat)
    requires j < |inputs| && Cut(c, outs, lo, n, inputs, j)
    requires inputs[j].Frame? && inputs[j].kind.Named? && WholeTexts(inputs[j].kind.event).Some?
    ensures n > 0 && outs[n - 1].Other?
    ensures var (es, event, said) := (WholeTexts(inputs[j].kind.event).value, inputs[j].kind.event, outs[n - 1].frame.origin);
            if event.FieldDone? && es[0].args && KeepsMasked(c, es[0].text) then said == Forwarded(inputs[j].bytes)
            else
              && said.Rewritten? && said.bytes == inputs[j].bytes && |said.texts| == |es|
              && forall i :: 0 <= i < |es| ==> RestoredEntry(c, es[i], said.texts[i])
  {
    hide KeepsMasked, RestoredEntry, Cut;
    StatementLast(c, outs, lo, n, inputs, j);
  }

  /**
   A done, part, item or terminal event that repeats the text streamed for a field: the restored text it
   repeats is what the client received for that field, whenever the field has ended by then and no
   placeholder lay across a flush.
   */
  lemma RepeatsWhatWasDelivered(c: Config, outs: seq<Out<Key, Written>>, lo: nat, n: nat, inputs: seq<Input>, j: nat, k: Key, i: nat)
    requires j < |inputs| && Cut(c, outs, lo, n, inputs, j) && !k.field.FunctionArgs?
    requires inputs[j].Frame? && inputs[j].kind.Named? && WholeTexts(inputs[j].kind.event).Some?
    requires i < |WholeTexts(inputs[j].kind.event).value|
    requires WholeTexts(inputs[j].kind.event).value[i] == Embedded(false, Deltas(inputs[..j], k))
    requires Steady(c.plain) && Fits(c.plain, Deltas(inputs[..j], k)) && Intact(c.plain, inputs[..j + 1], k)
    requires Ended(inputs[..j + 1], k)
    ensures n > 0 && outs[n - 1].Other? && outs[n - 1].frame.origin.Rewritten?
    ensures i < |outs[n - 1].frame.origin.texts| && outs[n - 1].frame.origin.texts[i] == ClientText(outs[..n - 1], k)
  {
    hide Steady, Fits, KeyOps, Segments, Stream, EndedIn, ClientText, Deltas, Restored, RestatedAll, Intact, KeepsMasked,
         Adds, Ends, Statements, OneShot, Others, Origins;
    var upTo := inputs[..j + 1];
    TakeSnoc(inputs, j);
    DeltasSnoc(inputs[..j], inputs[j], k);
    assert Deltas(inputs[..j], k) + "" == Deltas(inputs[..j], k);
    var m: nat :| m < |upTo| && Ends(upTo[..m], upTo[m], k) && Deltas(upTo[..m + 1], k) == Deltas(upTo, k);
    EndedIsSettled(upTo, m, k);
    ClosedField(c.plain, upTo, k);
    RepeatedAreRestored(c, outs, lo, n, inputs, j);
    StatementLast(c, outs, lo, n, inputs, j);
    assert ClientText(outs[..n], k) == OneShot(c.plain, Deltas(upTo, k));
    assert ClientText(outs[..n - 1], k) == ClientText(outs[..n], k);
  }

  /** The done event of the field itself, and a terminal event, end it. */
  lemma DoneRepeatsTheDeltas(c: Config, outs: seq<Out<Key, Written>>, lo: nat, n: nat, inputs: seq<Input>, j: nat, k: Key, i: nat)
    requires j < |inputs| && Cut(c, outs, lo, n, inputs, j) && !k.field.FunctionArgs?
    requires inputs[j].Frame? && inputs[j].kind.Named?
    requires var event := inputs[j].kind.event; event.Terminal? || (event.FieldDone? && event.key == k && event.text != "")
    requires var es := WholeTexts(inputs[j].kind.event).value; i < |es| && es[i] == Embedded(false, Deltas(inputs[..j], k))
    requires Steady(c.plain) && Fits(c.plain, Deltas(inputs[..j], k)) && Intact(c.plain, inputs[..j + 1], k)
    ensures n > 0 && outs[n - 1].Other? && outs[n - 1].frame.origin.Rewritten?
    ensures i < |outs[n - 1].frame.origin.texts| && outs[n - 1].frame.origin.texts[i] == ClientText(outs[..n - 1], k)
  {
    hide Cut, Steady, Fits, Intact, ClientText, Deltas;
    var upTo := inputs[..j + 1];
    assert upTo[..j] == inputs[..j] && upTo[..j + 1] == upTo;
    assert Ends(upTo[..j], upTo[j], k);
    RepeatsWhatWasDelivered(c, outs, lo, n, inputs, j, k, i);
  }

  // ---- sequence numbers ----

  /** The sequence numbers of written frames strictly increase, whatever upstream sent. */
  ghost predicate Ascending(outs: seq<Out<Key, Written>>) {
    forall i, j :: 0 <= i < j < |outs| && outs[i].frame.stamp.number.Some? && outs[j].frame.stamp.number.Some? ==>
      outs[i].frame.stamp.number.value < outs[j].frame.stamp.number.value
  }

  lemma NumbersIncrease(outs: seq<Out<Key, Written>>, outSeq: int, numbers: seq<Option<int>>)
    requires Sequenced(outs, outSeq, numbers)
    ensures Ascending(outs)
  {
    hide Numbered;
    forall i, j | 0 <= i < j < |outs| && outs[i].frame.stamp.number.Some? && outs[j].frame.stamp.number.Some?
      ensures outs[i].frame.stamp.number.value < outs[j].frame.stamp.number.value
    {
      StrictlyIncreasing(Stamps(outs), i, j);
    }
  }

  /** Frames inserted by the processor. */
  function Insertions(outs: seq<Out<Key, Written>>): nat {
    if outs == [] then 0 else
      Insertions(outs[..|outs| - 1]) + if outs[|outs| - 1].frame.origin.Synthetic? then 1 else 0
  }

  /**
   How frame `i`, written during input `j`, is numbered: an inserted frame always; the input's own
   frame exactly when the input is, never below it, and for a well-numbered upstream above it by at
   most the frames inserted before.
   */
  ghost predicate NumberFits(inputs: seq<Input>, j: nat, outs: seq<Out<Key, Written>>, i: nat)
    requires j < |inputs| && i < |outs|
  {
    var number, upstream := outs[i].frame.stamp.number, NumberOf(inputs[j]);
    if outs[i].frame.origin.Synthetic? then number.Some?
    else
      && (number.Some? <==> upstream.Some?)
      && (number.Some? ==> number.value >= upstream.value)
      && (number.Some? && Increasing(Numbers(inputs)) ==> number.value <= upstream.value + Insertions(outs[..i]))
  }

  /** Every frame was inserted, or is the input's own and bears its number. */
  lemma FrameOf(c: Config, ended: bool, input: Input, outs: seq<Out<Key, Written>>, outs2: seq<Out<Key, Written>>, i: nat)
    requires Adds(c, ended, input, outs, outs2) && |outs| <= i < |outs2|
    ensures if outs2[i].frame.origin.Synthetic? then Inserted(MADE, outs2[i]) else Bears(outs2[i], input)
  {
    hide Flushes, Config.Arguments, Config.RestoreAll, OneShot;
    var before := outs2[..|outs2| - 1];
    assert i < |before| ==> before[i] == outs2[i];
  }

  /** Each frame in its input's stretch of the output. */
  lemma FrameAt(c: Config, outs: seq<Out<Key, Written>>, cuts: seq<nat>, inputs: seq<Input>, j: nat, i: nat)
    requires History(c, outs, cuts, inputs) && j < |inputs| && Begins(cuts, j) <= i < cuts[j]
    ensures i < |outs| && if outs[i].frame.origin.Synthetic? then Inserted(MADE, outs[i]) else Bears(outs[i], inputs[j])
  {
    hide Adds, Inserted, Bears, EndedIn;
    assert Cut(c, outs, Begins(cuts, j), cuts[j], inputs, j);
    FrameOf(c, EndedIn(inputs[..j]), inputs[j], outs[..Begins(cuts, j)], outs[..cuts[j]], i);
  }

  /** The processor's own count of inserted frames is that of the frames. */
  lemma {:induction false} InsertionsCounted(outs: seq<Out<Key, Written>>)
    requires forall i :: 0 <= i < |outs| ==> (outs[i].frame.stamp.synthetic <==> outs[i].frame.origin.Synthetic?)
    ensures Synthetics(Stamps(outs)) == Insertions(outs)
  {
    if outs != [] {
      var before := outs[..|outs| - 1];
      assert forall i :: 0 <= i < |before| ==> before[i] == outs[i];
      InsertionsCounted(before);
      assert Stamps(outs)[..|outs| - 1] == Stamps(before);
    }
  }

  lemma MarksInserted(c: Config, outs: seq<Out<Key, Written>>, cuts: seq<nat>, inputs: seq<Input>, i: nat)
    requires History(c, outs, cuts, inputs) && i < |outs|
    ensures outs[i].frame.stamp.synthetic <==> outs[i].frame.origin.Synthetic?
  {
    hide Cut, EndedIn;
    var j := Covering(cuts, i, |cuts|);
    FrameAt(c, outs, cuts, inputs, j, i);
  }

  /** In every run each frame's number follows from the number of the input it belongs to. */
  lemma NumbersShift(c: Config, outs: seq<Out<Key, Written>>, outSeq: int, cuts: seq<nat>, inputs: seq<Input>, j: nat, i: nat)
    requires History(c, outs, cuts, inputs) && Sequenced(outs, outSeq, Numbers(inputs))
    requires j < |inputs| && Begins(cuts, j) <= i < cuts[j]
    ensures i < |outs| && NumberFits(inputs, j, outs, i)
  {
    hide History, Numbers, Numbered, LastNumber, Increasing, Synthetics, Upstreams;
    FrameAt(c, outs, cuts, inputs, j, i);
    var stamps := Stamps(outs);
    if outs[i].frame.origin.Synthetic? {
      NumberedPrefix(stamps, i);
    } else {
      NeverBelowUpstream(stamps, i);
      if stamps[i].number.Some? && Increasing(Numbers(inputs)) {
        ShiftedBySynthetics(stamps, i);
        assert stamps[..i] == Stamps(outs[..i]);
        forall m | 0 <= m < i
          ensures outs[..i][m].frame.stamp.synthetic <==> outs[..i][m].frame.origin.Synthetic?
        {
          MarksInserted(c, outs, cuts, inputs, m);
        }
        InsertionsCounted(outs[..i]);
      }
    }
  }

  /** Every frame of the output belongs to an input, as that input is handled, and is numbered as fits it. */
  ghost predicate Accounted(c: Config, outs: seq<Out<Key, Written>>, inputs: seq<Input>) {
    exists cuts: seq<nat> :: |cuts| == |inputs| && Begins(cuts, |cuts|) == |outs| && forall j: nat :: j < |cuts| ==>
      && Begins(cuts, j) <= cuts[j] <= |outs|
      && Adds(c, EndedIn(inputs[..j]), inputs[j], outs[..Begins(cuts, j)], outs[..cuts[j]])
      && forall i: nat :: Begins(cuts, j) <= i < cuts[j] ==> NumberFits(inputs, j, outs, i)
  }

  lemma HistoryAccounted(c: Config, outs: seq<Out<Key, Written>>, outSeq: int, cuts: seq<nat>, inputs: seq<Input>)
    requires History(c, outs, cuts, inputs) && Sequenced(outs, outSeq, Numbers(inputs))
    ensures Accounted(c, outs, inputs)
  {
    hide Adds, NumberFits, Sequenced, EndedIn;
    forall j: nat | j < |cuts|
      ensures Begins(cuts, j) <= cuts[j] <= |outs|
      ensures Adds(c, EndedIn(inputs[..j]), inputs[j], outs[..Begins(cuts, j)], outs[..cuts[j]])
      ensures forall i: nat :: Begins(cuts, j) <= i < cuts[j] ==> NumberFits(inputs, j, outs, i)
    {
      assert Cut(c, outs, Begins(cuts, j), cuts[j], inputs, j);
      forall i: nat | Begins(cuts, j) <= i < cuts[j]
        ensures NumberFits(inputs, j, outs, i)
      {
        NumbersShift(c, outs, outSeq, cuts, inputs, j, i);
      }
    }
  }

  /** After each input the client has of every field all but a bounded tail of what was fed so far, restored. */
  ghost predicate Prompt(c: Config, outs: seq<Out<Key, Written>>, inputs: seq<Input>) {
    exists cuts: seq<nat> :: |cuts| == |inputs| && forall j: nat, k :: j < |cuts| ==> PromptAt(c, outs, cuts[j], inputs, j, k)
  }

  ghost predicate PromptAt(c: Config, outs: seq<Out<Key, Written>>, n: nat, inputs: seq<Input>, j: nat, k: Key)
    requires j < |inputs|
  {
    var (v, ops) := (c.ViewFor(k), KeyOps(inputs[..j + 1], k));
    && n <= |outs| && Statements(c, Origins(Others(outs[..n])), inputs[..j + 1])
    && (Fits(v, Deltas(inputs[..j + 1], k)) && Readable(v, ops) ==> AllButTail(v, ops, ClientText(outs[..n], k)))
  }

  lemma HistoryPrompt(c: Config, outs: seq<Out<Key, Written>>, cuts: seq<nat>, inputs: seq<Input>)
    requires History(c, outs, cuts, inputs) && forall k :: Steady(c.ViewFor(k))
    ensures Prompt(c, outs, inputs)
  {
    hide Adds, EndedIn, Fits, Steady, Readable, AllButTail, KeyOps, Deltas, Statements, RestatedAll, Others, Origins, ClientText, Stream,
         Config.ViewFor;
    forall j: nat, k | j < |cuts|
      ensures PromptAt(c, outs, cuts[j], inputs, j, k)
    {
      assert Cut(c, outs, Begins(cuts, j), cuts[j], inputs, j);
      RestatedStatements(c, inputs[..j + 1]);
      DeltasAreFed(inputs[..j + 1], k);
      var (v, ops) := (c.ViewFor(k), KeyOps(inputs[..j + 1], k));
      if Fits(v, Deltas(inputs[..j + 1], k)) && Readable(v, ops) { DeliversAllButTail(v, ops); }
    }
  }

  // ---- end to end ----

  function StreamInputs(decode: string -> (Event, Option<int>), bytes: string): seq<Input> {
    Framing.ReadAll(Reader(decode), Framing.Complete(bytes))
  }

  /**
   Feeding a response body in any chunks: the client receives, of every field, the one-shot
   demasking of its deltas, and every other frame restored, in order and after the text it ends;
   numbers increase, and each frame's follows from the number of the input it belongs to.
   */
  method Relay(c: Config, decode: string -> (Event, Option<int>), cpus: nat, chunks: seq<string>, last: string)
    returns (out: seq<Out<Key, Written>>)
    requires cpus > 0 && Steady(c.plain) && Steady(c.json)
    ensures var body := StreamInputs(decode, Join(chunks) + last);
            && Statements(c, Origins(Others(out)), body) && Prompt(c, out, body + [EndOfStream])
            && EndsInOrder(c, out, body + [EndOfStream])
            && Ascending(out) && Accounted(c, out, body + [EndOfStream])
            && (QuietAfterEnd(body) ==> forall k ::
                  Fits(c.ViewFor(k), Deltas(body, k)) && Intact(c.ViewFor(k), body + [EndOfStream], k) ==>
                  ClientText(out, k) == OneShot(c.ViewFor(k), Deltas(body, k)))
  {
    hide *;
    ViewsOk(c);
    var p := new Processor(c, decode, cpus);
    NoOutput(p);
    out := [];
    var i := 0;
    Framing.CarryNothing(Reader(decode), chunks);
    while i < |chunks|
      invariant 0 <= i <= |chunks|
      invariant p.Valid() && p.outputBuf == [] && fresh(p) && fresh(p.fields) && fresh(p.fields.repr)
      invariant p.c == c && p.decode == decode
      invariant p.Outs() == out
      invariant p.inputs == Framing.ReadAll(Reader(decode), Framing.Carry(chunks[..i]).0) && p.tailBuf == Framing.Carry(chunks[..i]).1
    {
      Framing.CarryMore(Reader(decode), chunks, i);
      var part := p.ProcessChunk(chunks[i], false);
      out := out + part;
      i := i + 1;
    }
    assert chunks[..i] == chunks;
    var part := p.ProcessChunk(last, true);
    out := out + part;
    Framing.WholeSession(Reader(decode), chunks, last);
    InputsOf(decode, Join(chunks) + last);
    Conclude(p, StreamInputs(decode, Join(chunks) + last));
  }

  lemma ViewsOk(c: Config)
    requires Steady(c.plain) && Steady(c.json)
    ensures c.Wf() && forall k :: Steady(c.ViewFor(k))
  {
  }

  lemma NoOutput(p: Processor)
    requires p.Outs() == []
    ensures p.outputBuf == []
  {
  }

  lemma InputsOf(decode: string -> (Event, Option<int>), bytes: string)
    ensures StreamInputs(decode, bytes) == Framing.ReadAll(Reader(decode), Framing.Complete(bytes))
  {
  }

  lemma Conclude(p: Processor, body: seq<Input>)
    requires p.Valid() && p.inputs == body + [EndOfStream]
    requires forall k :: Steady(p.c.ViewFor(k))
    ensures Statements(p.c, Origins(Others(p.Outs())), body) && Prompt(p.c, p.Outs(), body + [EndOfStream])
    ensures Ascending(p.Outs()) && Accounted(p.c, p.Outs(), body + [EndOfStream])
    ensures EndsInOrder(p.c, p.Outs(), body + [EndOfStream])
    ensures QuietAfterEnd(body) ==> forall k ::
              Fits(p.c.ViewFor(k), Deltas(body, k)) && Intact(p.c.ViewFor(k), body + [EndOfStream], k) ==>
              ClientText(p.Outs(), k) == OneShot(p.c.ViewFor(k), Deltas(body, k))
  {
    hide Steady, Fits, KeyOps, Unbroken, Segments, OneShot, QuietAfterEnd, ClientText, Deltas, Closers, Delivered,
         Config.ViewFor, EndedIn, Others, Origins, Numbered, LastNumber, Stamps, FieldDemaskers.Valid, History, EndsInOrder,
         Ascending, Accounted, Sequenced, Numbers, Statements, Prompt, Intact, RestatedAll;
    HistoryInOrder(p.c, p.Outs(), p.cuts, p.inputs);
    HistoryAccounted(p.c, p.Outs(), p.outSeq, p.cuts, p.inputs);
    HistoryPrompt(p.c, p.Outs(), p.cuts, p.inputs);
    RestatedStatements(p.c, body);
    NumbersIncrease(p.Outs(), p.outSeq, Numbers(p.inputs));
    Advance(p.c, body, EndOfStream);
    EndWritesNothing(p.c, EndOfStream);
    if QuietAfterEnd(body) {
      forall k | Fits(p.c.ViewFor(k), Deltas(body, k)) && Intact(p.c.ViewFor(k), body + [EndOfStream], k)
        ensures ClientText(p.Outs(), k) == OneShot(p.c.ViewFor(k), Deltas(body, k))
      {
        StreamConserved(p.c, p.fields.ops, p.Outs(), p.accums, p.completed, body, k);
      }
    }
  }
}
