/**
 What the client receives of one field when frames may fail to be built: each demasker call is noted
 with whether the frame for its text could be built, and text without a frame is dropped.
 */
module Reception {
  import opened Text
  import opened Demasking
  import opened FieldStreams

  datatype Call = Call(op: Op, found: bool)

  function OpsIn(calls: seq<Call>): seq<Op> {
    if calls == [] then [] else OpsIn(calls[..|calls| - 1]) + [calls[|calls| - 1].op]
  }

  /** What one more call lets go. */
  function Emitted(v: View, ops: seq<Op>, op: Op): string {
    Step(v, Stream(v, ops).1, op.chunk, op.flush).0
  }

  /** The text that reaches the client. */
  function Heard(v: View, calls: seq<Call>): string {
    if calls == [] then "" else
      var before, call := calls[..|calls| - 1], calls[|calls| - 1];
      Heard(v, before) + if call.found then Emitted(v, OpsIn(before), call.op) else ""
  }

  /** The text a call may let go: what was open before it, and its own. */
  function Due(ops: seq<Op>, op: Op): string {
    Segments(ops).1 + op.chunk
  }

  /** Every call with text to let go finds its frame. */
  predicate Reaches(calls: seq<Call>) {
    calls == [] ||
    var before, call := calls[..|calls| - 1], calls[|calls| - 1];
    Reaches(before) && (Due(OpsIn(before), call.op) != "" ==> call.found)
  }

  /** Every call feeds or flushes. */
  predicate Active(calls: seq<Call>) {
    forall i :: 0 <= i < |calls| ==> calls[i].op.chunk != "" || calls[i].op.flush
  }

  lemma CallSnoc(calls: seq<Call>, call: Call)
    ensures OpsIn(calls + [call]) == OpsIn(calls) + [call.op]
    ensures forall v :: Heard(v, calls + [call]) == Heard(v, calls) + if call.found then Emitted(v, OpsIn(calls), call.op) else ""
    ensures Reaches(calls + [call]) <==> Reaches(calls) && (Due(OpsIn(calls), call.op) != "" ==> call.found)
    ensures Active(calls + [call]) <==> Active(calls) && (call.op.chunk != "" || call.op.flush)
  {
    hide Emitted, Due;
    SnocParts(calls, call);
    var all := calls + [call];
    assert forall i :: 0 <= i < |calls| ==> all[i] == calls[i];
    assert all[|calls|] == call;
  }

  /** With no open text nothing is held back. */
  lemma {:induction false} NothingHeld(v: View, ops: seq<Op>)
    requires Segments(ops).1 == ""
    ensures Stream(v, ops).1 == ""
  {
    hide OneShot;
    if ops != [] {
      var before, op := ops[..|ops| - 1], ops[|ops| - 1];
      FlushStep(v, Stream(v, before).1, op.chunk);
      if !op.flush {
        NothingHeld(v, before);
        OneShotEmpty(v);
        assert "" + "" == "";
      }
    }
  }

  lemma NothingDue(v: View, ops: seq<Op>, op: Op)
    requires Due(ops, op) == ""
    ensures Emitted(v, ops, op) == ""
  {
    hide OneShot, Segments, Stream;
    NothingHeld(v, ops);
    OneShotEmpty(v);
    assert "" + "" == "";
  }

  /** If every call finds its frame, the client hears the whole stream. */
  lemma {:induction false} ReachedIsHeard(v: View, calls: seq<Call>)
    requires Reaches(calls)
    ensures Heard(v, calls) == Stream(v, OpsIn(calls)).0
  {
    hide Step, Due;
    if calls != [] {
      var before, call := calls[..|calls| - 1], calls[|calls| - 1];
      ReachedIsHeard(v, before);
      StreamSnoc(v, OpsIn(before), call.op);
      if Due(OpsIn(before), call.op) == "" { NothingDue(v, OpsIn(before), call.op); }
    }
  }

  lemma {:induction false} HeardAtMost(v: View, calls: seq<Call>)
    ensures |Heard(v, calls)| <= |Stream(v, OpsIn(calls)).0|
  {
    hide Step;
    if calls != [] {
      var before, call := calls[..|calls| - 1], calls[|calls| - 1];
      HeardAtMost(v, before);
      StreamSnoc(v, OpsIn(before), call.op);
    }
  }

  /** One call that lets text go without a frame is enough to lose text. */
  lemma {:induction false} OneLostCall(v: View, calls: seq<Call>, i: nat)
    requires i < |calls| && !calls[i].found && Emitted(v, OpsIn(calls[..i]), calls[i].op) != ""
    ensures |Heard(v, calls)| < |Stream(v, OpsIn(calls)).0|
  {
    hide Step;
    var n := |calls| - 1;
    var before, call := calls[..n], calls[n];
    StreamSnoc(v, OpsIn(before), call.op);
    if i == n {
      HeardAtMost(v, before);
    } else {
      assert before[..i] == calls[..i];
      OneLostCall(v, before, i);
    }
  }

  lemma {:induction false} UnreachedCall(calls: seq<Call>) returns (i: nat)
    requires !Reaches(calls)
    ensures i < |calls| && !calls[i].found && Due(OpsIn(calls[..i]), calls[i].op) != ""
  {
    var n := |calls| - 1;
    if Reaches(calls[..n]) {
      i := n;
    } else {
      i := UnreachedCall(calls[..n]);
      assert calls[..n][..i] == calls[..i];
    }
  }

  /** A view under which the call lets its due text go. */
  lemma LetsGo(ops: seq<Op>, op: Op) returns (v: View)
    requires Due(ops, op) != "" && (op.chunk != "" || op.flush)
    ensures v.Streamable() && Emitted(v, ops, op) != ""
  {
    hide OneShot, View.Streamable, Segments, Stream;
    if op.chunk != "" {
      v := Plain(0);
      PlainOneShot(0, Stream(v, ops).1 + op.chunk);
    } else {
      var n := |Fed(ops)|;
      v := Plain(n);
      forall i | 0 <= i <= |ops|
        ensures |Segments(ops[..i]).1| <= n
      {
        SegmentsBounded(ops, i);
      }
      PlainStream(n, ops);
      PlainOneShot(n, Segments(ops).1 + op.chunk);
    }
  }

  /** Whatever the placeholders are, the client hears all the stream lets go. */
  ghost predicate HearsStream(calls: seq<Call>) {
    forall v: View :: v.Streamable() ==> Heard(v, calls) == Stream(v, OpsIn(calls)).0
  }

  /** Whatever the placeholders are, the client hears all the field was fed, restored. */
  ghost predicate HearsAll(calls: seq<Call>) {
    var ops := OpsIn(calls);
    forall v: View :: v.Streamable() ==> Heard(v, calls) == Restored(v, Segments(ops).0 + [Segments(ops).1])
  }

  lemma HearsStreamExactlyWhenReached(calls: seq<Call>)
    requires Active(calls)
    ensures HearsStream(calls) <==> Reaches(calls)
  {
    hide View.Streamable, Heard, Stream, Emitted, Due, OpsIn, Reaches;
    if Reaches(calls) {
      forall v: View | v.Streamable()
        ensures Heard(v, calls) == Stream(v, OpsIn(calls)).0
      {
        ReachedIsHeard(v, calls);
      }
    } else {
      var i := UnreachedCall(calls);
      var v := LetsGo(OpsIn(calls[..i]), calls[i].op);
      OneLostCall(v, calls, i);
    }
  }

  /** All fed text arrives exactly when every call finds its frame and no text follows the last flush. */
  lemma HearsAllExactlyWhen(calls: seq<Call>)
    requires Active(calls)
    ensures HearsAll(calls) <==> Reaches(calls) && Segments(OpsIn(calls)).1 == ""
  {
    hide View.Streamable, Heard, Stream, OpsIn, Reaches, Restored, Segments, OneShot;
    var ops := OpsIn(calls);
    HearsStreamExactlyWhenReached(calls);
    LosesNothingExactlyWhenFlushed(ops);
    if HearsAll(calls) && Segments(ops).1 != "" {
      OpenIsUnheard(calls);
    }
    if Segments(ops).1 == "" {
      assert NeverLoses(ops);
    }
  }

  lemma OpenIsUnheard(calls: seq<Call>)
    requires Segments(OpsIn(calls)).1 != ""
    ensures !HearsAll(calls)
  {
    hide View.Streamable, Heard, Stream, OpsIn, Restored, Segments, OneShot;
    var ops := OpsIn(calls);
    var n := |Fed(ops)|;
    forall i | 0 <= i <= |ops|
      ensures |Segments(ops[..i]).1| <= n
    {
      SegmentsBounded(ops, i);
    }
    PlainStream(n, ops);
    PlainRestored(n, Segments(ops).0 + [Segments(ops).1]);
    PlainOneShot(n, "");
    JoinSnoc(Segments(ops).0, Segments(ops).1);
    HeardAtMost(Plain(n), calls);
  }
}
