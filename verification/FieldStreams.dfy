/**
 Many text fields of one response restored side by side: one demasker a field, created on first
 use, and the text each field has delivered to the client.
 */
module FieldStreams {
  import opened Text
  import opened Demasking
  import opened DemaskLimits
  import opened AngleRewrite

  const FLUSH := Op("", true)

  /** The calls made on the demasker of one field; none while it has no demasker. */
  function OpsOf<K(==)>(ops: map<K, seq<Op>>, k: K): seq<Op> {
    if k in ops then ops[k] else []
  }

  function AfterCall<K(==)>(ops: map<K, seq<Op>>, k: K, op: Op): map<K, seq<Op>> {
    ops[k := OpsOf(ops, k) + [op]]
  }

  /** Flushing some of the live demaskers. */
  function AfterFlush<K(==)>(ops: map<K, seq<Op>>, keys: set<K>): map<K, seq<Op>> {
    map k | k in ops :: if k in keys then ops[k] + [FLUSH] else ops[k]
  }

  /** The demasker has been through the given calls. */
  ghost predicate Holds(d: Demasker, v: View, ops: seq<Op>)
    reads d
  {
    d.view == v && d.pending == Stream(v, ops).1
  }

  lemma HoldsMeans(d: Demasker, v: View, ops: seq<Op>)
    ensures Holds(d, v, ops) <==> d.view == v && d.pending == Stream(v, ops).1
  {
  }

  class FieldDemaskers<K(==, !new)> {
    const views: K -> View
    const cpus: nat
    var demaskers: map<K, Demasker>
    ghost var ops: map<K, seq<Op>>
    ghost var repr: set<Demasker>

    /** Each field has its own demasker, which holds back what its calls leave pending. */
    ghost predicate Valid()
      reads this, repr
    {
      && cpus > 0 && (forall k :: views(k).Wf())
      && demaskers.Keys == ops.Keys
      && (forall k :: k in demaskers ==> demaskers[k] in repr && Holds(demaskers[k], views(k), ops[k]))
      && (forall j, k :: j in demaskers && k in demaskers && demaskers[j] == demaskers[k] ==> j == k)
    }

    constructor (views: K -> View, cpus: nat)
      requires cpus > 0 && forall k :: views(k).Wf()
      ensures Valid() && this.views == views && demaskers == map[] && ops == map[] && repr == {}
    {
      this.views := views;
      this.cpus := cpus;
      demaskers := map[];
      ops := map[];
      repr := {};
    }

    /** The demasker of a field, created on first use. */
    method GetDemasker(key: K) returns (d: Demasker)
      requires Valid()
      modifies this
      ensures demaskers.Keys == old(demaskers.Keys) + {key} && d == demaskers[key]
      ensures fresh(repr - old(repr))
      ensures Valid() && ops == old(ops)[key := OpsOf(old(ops), key)]
    {
      hide Step, Stream, View.Wf, OpsOf, Holds;
      KnownOps(ops, key);
      if key in demaskers {
        return demaskers[key];
      }
      StreamStart(views(key));
      d := new Demasker(views(key));
      HoldsMeans(d, views(key), []);
      demaskers := demaskers[key := d];
      repr := repr + {d};
      ops := ops[key := []];
    }

    method DemaskChunk(key: K, chunk: string, flush: bool) returns (text: string)
      requires Valid()
      modifies this, repr
      ensures Valid() && fresh(repr - old(repr))
      ensures ops == AfterCall(old(ops), key, Op(chunk, flush))
      ensures text == Step(views(key), Stream(views(key), OpsOf(old(ops), key)).1, chunk, flush).0
    {
      hide Step, Stream, View.Wf, OpsOf, Holds;
      var d := GetDemasker(key);
      ghost var before := ops[key];
      HoldsMeans(d, views(key), before);
      var failed: bool;
      text, failed := d.DemaskChunk(chunk, flush, false, cpus);
      StreamSnoc(views(key), before, Op(chunk, flush));
      HoldsMeans(d, views(key), before + [Op(chunk, flush)]);
      UpdateTwice(old(ops), key, before, before + [Op(chunk, flush)]);
      ops := ops[key := before + [Op(chunk, flush)]];
    }
  }

  lemma StreamStart(v: View)
    ensures Stream(v, []) == ("", "")
  {
  }

  lemma StreamSnoc(v: View, ops: seq<Op>, op: Op)
    ensures var (e, p) := Stream(v, ops);
            var (out, held) := Step(v, p, op.chunk, op.flush);
            Stream(v, ops + [op]) == (e + out, held)
  {
    SnocParts(ops, op);
  }

  lemma LiveKeys<K(!new)>(fields: FieldDemaskers<K>)
    requires fields.Valid()
    ensures fields.ops.Keys == fields.demaskers.Keys
  {
  }

  lemma FlushNone<K>(ops: map<K, seq<Op>>)
    ensures AfterFlush(ops, {}) == ops
  {
  }

  lemma FlushOne<K>(ops: map<K, seq<Op>>, k: K)
    ensures AfterFlush(ops, {k}) == if k in ops then AfterCall(ops, k, FLUSH) else ops
  {
  }

  lemma FlushOneMore<K>(ops: map<K, seq<Op>>, done: set<K>, k: K)
    requires k in ops && k !in done
    ensures AfterCall(AfterFlush(ops, done), k, FLUSH) == AfterFlush(ops, done + {k})
  {
  }

  lemma FlushMore<K>(ops: map<K, seq<Op>>, done: set<K>, more: set<K>)
    requires done !! more
    ensures AfterFlush(AfterFlush(ops, done), more) == AfterFlush(ops, done + more)
  {
  }

  lemma UpdateTwice<K, V>(m: map<K, V>, k: K, a: V, b: V)
    ensures m[k := a][k := b] == m[k := b]
  {
  }

  lemma SameEntry<K, V>(m: map<K, V>, k: K)
    requires k in m
    ensures m[k := m[k]] == m
  {
  }

  lemma KnownOps<K>(ops: map<K, seq<Op>>, k: K)
    ensures if k in ops then ops[k := OpsOf(ops, k)] == ops else OpsOf(ops, k) == []
  {
  }

  // ---- what the client receives ----

  /** One frame written to the client: text for a field, or any other frame. */
  datatype Out<K, M> = Text(key: K, text: string, frame: M) | Other(frame: M)

  function ClientText<K(==), M>(outs: seq<Out<K, M>>, k: K): string {
    if outs == [] then "" else
      var before, last := outs[..|outs| - 1], outs[|outs| - 1];
      if last.Text? && last.key == k then ClientText(before, k) + last.text else ClientText(before, k)
  }

  /** The frames that are not field text, in order. */
  function Others<K, M>(outs: seq<Out<K, M>>): seq<M> {
    if outs == [] then [] else
      var before, last := outs[..|outs| - 1], outs[|outs| - 1];
      if last.Other? then Others(before) + [last.frame] else Others(before)
  }

  lemma OutSnoc<K, M>(outs: seq<Out<K, M>>, out: Out<K, M>)
    ensures Others(outs + [out]) == if out.Other? then Others(outs) + [out.frame] else Others(outs)
    ensures forall k :: ClientText(outs + [out], k)
                        == if out.Text? && out.key == k then ClientText(outs, k) + out.text else ClientText(outs, k)
  {
    SnocParts(outs, out);
  }

  /** Every field has delivered exactly what its demasker emitted. */
  ghost predicate Delivered<K(!new), M>(views: K -> View, ops: map<K, seq<Op>>, outs: seq<Out<K, M>>) {
    forall k :: ClientText(outs, k) == Stream(views(k), OpsOf(ops, k)).0
  }

  /** Calling a demasker and writing what it returned, if anything, keeps fields delivered. */
  lemma DeliveredCall<K(!new), M>(views: K -> View, ops: map<K, seq<Op>>, outs: seq<Out<K, M>>, k: K, op: Op, m: M)
    requires Delivered(views, ops, outs)
    ensures var text := Step(views(k), Stream(views(k), OpsOf(ops, k)).1, op.chunk, op.flush).0;
            Delivered(views, AfterCall(ops, k, op), if text == "" then outs else outs + [Text(k, text, m)])
  {
    hide Step, Stream;
    var text := Step(views(k), Stream(views(k), OpsOf(ops, k)).1, op.chunk, op.flush).0;
    StreamSnoc(views(k), OpsOf(ops, k), op);
    OutSnoc(outs, Text(k, text, m));
    assert ClientText(outs, k) + "" == ClientText(outs, k);
  }

  lemma DeliveredOther<K(!new), M>(views: K -> View, ops: map<K, seq<Op>>, outs: seq<Out<K, M>>, m: M)
    requires Delivered(views, ops, outs)
    ensures Delivered(views, ops, outs + [Other(m)])
  {
    hide Step, Stream;
    OutSnoc(outs, Out<K, M>.Other(m));
  }

  // ---- which input a frame comes from ----

  /** A frame of the processor's own making with text of a field. */
  predicate Inserted<K, M>(made: M -> bool, o: Out<K, M>) {
    o.Text? && o.text != "" && made(o.frame)
  }

  /** Only such frames of the given fields were added. */
  predicate Surfaced<K(==), M(==)>(made: M -> bool, outs: seq<Out<K, M>>, outs2: seq<Out<K, M>>, keys: set<K>) {
    outs <= outs2 && forall i :: |outs| <= i < |outs2| ==> Inserted(made, outs2[i]) && outs2[i].key in keys
  }

  lemma SurfacedNone<K, M>(made: M -> bool, outs: seq<Out<K, M>>, keys: set<K>)
    ensures Surfaced(made, outs, outs, keys)
  {
  }

  lemma SurfacedOne<K, M>(made: M -> bool, outs: seq<Out<K, M>>, o: Out<K, M>)
    requires Inserted(made, o)
    ensures Surfaced(made, outs, outs + [o], {o.key})
  {
  }

  lemma SurfacedMore<K, M>(made: M -> bool, a: seq<Out<K, M>>, b: seq<Out<K, M>>, c: seq<Out<K, M>>, done: set<K>, more: set<K>)
    requires Surfaced(made, a, b, done) && Surfaced(made, b, c, more)
    ensures Surfaced(made, a, c, done + more)
  {
    hide Inserted;
    assert forall i :: |a| <= i < |b| ==> c[i] == b[i];
  }

  /** Where the frames of input `j` begin, given where the frames of each input end. */
  function Begins(cuts: seq<nat>, j: nat): nat
    requires j <= |cuts|
  {
    if j == 0 then 0 else cuts[j - 1]
  }

  /** Every frame written belongs to some input. */
  lemma {:induction false} Covering(cuts: seq<nat>, i: nat, m: nat) returns (j: nat)
    requires m <= |cuts| && i < Begins(cuts, m)
    ensures j < |cuts| && Begins(cuts, j) <= i < cuts[j]
    decreases m
  {
    if Begins(cuts, m - 1) <= i {
      j := m - 1;
    } else {
      j := Covering(cuts, i, m - 1);
    }
  }

  // ---- conservation ----

  /** All text fed to one field. */
  function Fed(ops: seq<Op>): string {
    if ops == [] then "" else Fed(ops[..|ops| - 1]) + ops[|ops| - 1].chunk
  }

  lemma FedSnoc(ops: seq<Op>, op: Op)
    ensures Fed(ops + [op]) == Fed(ops) + op.chunk
  {
    SnocParts(ops, op);
  }

  /** Nothing was fed since the last flush. */
  predicate Closed(ops: seq<Op>) {
    ops == [] || ops[|ops| - 1].flush
  }

  lemma {:induction false} SegmentsAreFed(ops: seq<Op>)
    ensures Join(Segments(ops).0) + Segments(ops).1 == Fed(ops)
  {
    if ops != [] {
      var before, op := ops[..|ops| - 1], ops[|ops| - 1];
      var (closed, open) := Segments(before);
      SegmentsAreFed(before);
      JoinSnoc(closed, open + op.chunk);
      Reassociate(Join(closed), open, op.chunk);
      assert Join(Segments(ops).0) + "" == Join(Segments(ops).0);
    }
  }

  // ---- exactly when nothing is lost ----

  /** Whatever the placeholders are, the field delivers all it was fed, restored. */
  ghost predicate NeverLoses(ops: seq<Op>) {
    forall v: View :: v.Streamable() ==>
      Stream(v, ops).0 == Restored(v, Segments(ops).0 + [Segments(ops).1])
  }

  /** A demasker without placeholders that holds back up to `n` bytes. */
  function Plain(n: nat): View {
    View([], map[], [], n)
  }

  lemma PlainOneShot(n: nat, text: string)
    ensures Plain(n).Streamable() && OneShot(Plain(n), text) == text
  {
    hide Rewrite, Replace;
    var v := Plain(n);
    ReplaceIsRewrite(v, text);
    forall w
      ensures Lookup(v.originals)(w).None? && v.Whole()(w).None?
    {
      WholeIsLookup(v, w);
    }
    NothingRecognised(Lookup(v.originals), text);
    NoDrift(v, text);
  }

  /** With nothing to restore the stream is plain buffering. */
  lemma {:induction false} PlainStream(n: nat, ops: seq<Op>)
    requires forall i :: 0 <= i <= |ops| ==> |Segments(ops[..i]).1| <= n
    ensures Stream(Plain(n), ops) == (Join(Segments(ops).0), Segments(ops).1)
  {
    hide OneShot, View.Streamable;
    if ops != [] {
      var before, op := ops[..|ops| - 1], ops[|ops| - 1];
      forall i | 0 <= i <= |before|
        ensures |Segments(before[..i]).1| <= n
      {
        assert before[..i] == ops[..i];
      }
      PlainStream(n, before);
      var (closed, open) := Segments(before);
      PlainOneShot(n, open + op.chunk);
      JoinSnoc(closed, open + op.chunk);
      assert ops[..|ops|] == ops;
      assert Join(closed) + "" == Join(closed);
      assert (open + op.chunk)[0..] == open + op.chunk;
    }
  }

  lemma {:induction false} PlainRestored(n: nat, segments: seq<string>)
    ensures Restored(Plain(n), segments) == Join(segments)
  {
    hide OneShot, View.Streamable;
    if segments != [] {
      PlainRestored(n, segments[..|segments| - 1]);
      PlainOneShot(n, segments[|segments| - 1]);
      SnocEq(segments);
      JoinSnoc(segments[..|segments| - 1], segments[|segments| - 1]);
    }
  }

  lemma {:induction false} SegmentsBounded(ops: seq<Op>, i: nat)
    requires i <= |ops|
    ensures |Segments(ops[..i]).1| <= |Fed(ops)|
  {
    if i == |ops| {
      assert ops[..i] == ops;
      SegmentsAreFed(ops);
    } else {
      assert ops[..i] == ops[..|ops| - 1][..i];
      SegmentsBounded(ops[..|ops| - 1], i);
    }
  }

  lemma RestoredSnoc(v: View, closed: seq<string>, s: string)
    ensures Restored(v, closed + [s]) == Restored(v, closed) + OneShot(v, s)
  {
    SnocParts(closed, s);
  }

  /** A field loses nothing, for any placeholders, if and only if no text follows its last flush. */
  lemma LosesNothingExactlyWhenFlushed(ops: seq<Op>)
    ensures NeverLoses(ops) <==> Segments(ops).1 == ""
  {
    hide View.Streamable, OneShot, Stream, Restored;
    var (closed, open) := Segments(ops);
    if open == "" {
      forall v: View | v.Streamable()
        ensures Stream(v, ops).0 == Restored(v, closed + [open])
      {
        StreamResumes(v, ops, "");
        SettledStream(v, ops);
        OneShotEmpty(v);
        RestoredSnoc(v, closed, "");
        assert Restored(v, closed) + "" == Restored(v, closed);
      }
    } else {
      var n := |Fed(ops)|;
      forall i | 0 <= i <= |ops|
        ensures |Segments(ops[..i]).1| <= n
      {
        SegmentsBounded(ops, i);
      }
      PlainStream(n, ops);
      PlainRestored(n, closed + [open]);
      PlainOneShot(n, "");
      JoinSnoc(closed, open);
      assert Stream(Plain(n), ops).0 != Restored(Plain(n), closed + [open]);
    }
  }

  /** Nothing fed since the last flush: nothing held back. */
  lemma {:induction false} SettledStream(v: View, ops: seq<Op>)
    requires v.Streamable() && Segments(ops).1 == ""
    ensures Stream(v, ops) == (Restored(v, Segments(ops).0), "")
  {
    hide View.Streamable, OneShot;
    if ops != [] {
      var before, op := ops[..|ops| - 1], ops[|ops| - 1];
      if op.flush {
        FlushedStream(v, ops);
      } else {
        var (closed, open) := Segments(before);
        assert open == "" && op.chunk == "";
        SettledStream(v, before);
        OneShotEmpty(v);
        assert "" + "" == "";
        assert Stream(v, before).0 + "" == Stream(v, before).0;
      }
    }
  }
}
