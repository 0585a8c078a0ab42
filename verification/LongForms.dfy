/**
 Drift forms longer than a stream can hold back.  A case variant may take more bytes than the letter it
 stands for, so the compiled bound does not cover every drift form of every type; a stream is as good
 as its one-shot demasking on every text in which no such form stands.
 */
module LongForms {
  import opened Text
  import opened AngleRewrite
  import opened PlaceholderScan
  import opened DriftPass
  import opened Demasking
  import opened DemaskLimits
  import opened FieldStreams
  import Utf8

  function Short(f: Recognizer, m: int): Recognizer {
    w => if |w| <= m then f(w) else None
  }

  function Long(f: Recognizer, m: int): Recognizer {
    w => if |w| <= m then None else f(w)
  }

  /** Restored text is inert, and every minted placeholder is within reach. */
  ghost predicate Steady(v: View) {
    v.Wf() && InertIn(v.Whole(), v.Whole()) && forall w :: w in v.originals ==> |w| <= v.Reach()
  }

  /** No placeholder form beyond the reach of the held-back tail stands in the text. */
  predicate Fits(v: View, text: string) {
    Clean(Long(v.Whole(), v.Reach()), text)
  }

  // ---- flush points as positions ----

  /** What is in finished segments was fed up to the last flush. */
  lemma {:induction false} LastFlush(ops: seq<Op>) returns (i: nat)
    requires Segments(ops).0 != []
    ensures i < |ops| && ops[i].flush && Join(Segments(ops).0) == Fed(ops[..i + 1])
  {
    var n := |ops| - 1;
    if ops[n].flush {
      i := n;
      SegmentsAreFed(ops);
      assert ops[..n + 1] == ops && Join(Segments(ops).0) + "" == Join(Segments(ops).0);
    } else {
      i := LastFlush(ops[..n]);
      assert ops[..n][..i + 1] == ops[..i + 1];
    }
  }

  /** A field none of whose flushes falls inside a placeholder is cut into unbroken segments. */
  lemma {:induction false} FlushedIntact(v: View, ops: seq<Op>, text: string)
    requires Fed(ops) <= text
    requires forall i: nat :: i < |ops| && ops[i].flush ==> IntactAt(v.Whole(), text, |Fed(ops[..i + 1])|)
    ensures Unbroken(v, Segments(ops).0)
  {
    hide View.Whole, NoStraddle;
    if ops != [] {
      var n := |ops| - 1;
      var before, op := ops[..n], ops[n];
      forall i: nat | i < n && before[i].flush
        ensures IntactAt(v.Whole(), text, |Fed(before[..i + 1])|)
      {
        assert before[..i + 1] == ops[..i + 1] && ops[i].flush;
      }
      FlushedIntact(v, before, text);
      if op.flush { NextSegment(v, before, op, text); }
    }
  }

  lemma NextSegment(v: View, before: seq<Op>, op: Op, text: string)
    requires Fed(before) + op.chunk <= text && Unbroken(v, Segments(before).0)
    requires forall i: nat :: i < |before| && before[i].flush ==> IntactAt(v.Whole(), text, |Fed(before[..i + 1])|)
    ensures Unbroken(v, Segments(before).0 + [Segments(before).1 + op.chunk])
  {
    hide View.Whole, NoStraddle;
    var (closed, open) := Segments(before);
    var last := open + op.chunk;
    SnocParts(closed, last);
    SegmentsAreFed(before);
    Reassociate(Join(closed), open, op.chunk);
    var rest := text[|Fed(before) + op.chunk|..];
    assert text == Join(closed) + (last + rest);
    if closed == [] {
      NothingStraddles(v.Whole(), last);
      assert Join(closed) == "";
    } else {
      var i := LastFlush(before);
      assert text[..|Join(closed)|] == Join(closed) && text[|Join(closed)|..] == last + rest;
      NoStraddleShorter(v.Whole(), Join(closed), last, rest);
    }
  }

  lemma NothingStraddles(f: Recognizer, z: string)
    ensures NoStraddle(f, "", z)
  {
  }

  // ---- clean texts ----

  lemma {:induction false} CleanTake(f: Recognizer, a: string, b: string)
    requires Clean(f, a + b)
    ensures Clean(f, a) && Clean(f, b)
  {
    if a == "" {
      assert a + b == b;
    } else {
      HeadLenAppend(f, a, b);
      AppendDrop(a, b, 1);
      CleanTake(f, a[1..], b);
    }
  }

  lemma {:induction false} CleanOfFewer(f: Recognizer, g: Recognizer, t: string)
    requires Clean(f, t) && forall w :: Recognises(g, w) ==> Recognises(f, w)
    ensures Clean(g, t)
  {
    if t != "" {
      var n := HeadLen(g, t);
      assert n > 0 ==> Recognises(g, t[..n]);
      CleanOfFewer(f, g, t[1..]);
    }
  }

  /** What was restored takes part in no token of `h`: a pass of `f` brings none about. */
  lemma {:induction false} StaysClean(f: Recognizer, h: Recognizer, y: string, z: string)
    requires InertIn(f, h) && Clean(h, y + z)
    ensures Clean(h, Rewrite(f, y) + z)
    decreases |y|
  {
    hide InertIn, HeadLen;
    if y == "" {
      assert Rewrite(f, y) == "";
    } else {
      var n := HeadLen(f, y);
      if n > 0 {
        CleanDrop(h, y + z, n);
        AppendDrop(y, z, n);
        StaysClean(f, h, y[n..], z);
        RestoredHasNoOpen(f, h, y[..n]);
        CleanAngleFree(h, f(y[..n]).value, Rewrite(f, y[n..]) + z);
        Reassociate(f(y[..n]).value, Rewrite(f, y[n..]), z);
      } else {
        AppendDrop(y, z, 1);
        StaysClean(f, h, y[1..], z);
        HeadStaysAt(f, h, y, z);
        RewriteStep(f, y);
        Reassociate([y[0]], Rewrite(f, y[1..]), z);
      }
    }
  }

  lemma RestoredHasNoOpen(f: Recognizer, h: Recognizer, w: string)
    requires InertIn(f, h) && IsToken(w) && f(w).Some?
    ensures '<' !in f(w).value
  {
    assert Recognises(f, w);
  }

  /** Where no long token stands, it does not matter whether long tokens are recognised. */
  lemma {:induction false} ShortEnough(f: Recognizer, g: Recognizer, m: int, t: string)
    requires forall w :: g(w) == Short(f, m)(w)
    requires Clean(Long(f, m), t)
    ensures Rewrite(g, t) == Rewrite(f, t)
    decreases |t|
  {
    if t != "" {
      var n := HeadLen(f, t);
      if n > 0 {
        assert |t[..n]| <= m;
        CleanDrop(Long(f, m), t, n);
        ShortEnough(f, g, m, t[n..]);
      } else {
        ShortEnough(f, g, m, t[1..]);
      }
    }
  }

  // ---- the same demasker without the long forms ----

  function TrimmedRules(rules: seq<DriftRule>, m: int): (r: seq<DriftRule>)
    ensures |r| == |rules| && forall i :: 0 <= i < |rules| ==> r[i] == rules[i].(canon := Short(rules[i].canon, m))
  {
    seq(|rules|, i requires 0 <= i < |rules| => rules[i].(canon := Short(rules[i].canon, m)))
  }

  function Trimmed(v: View): View {
    v.(rules := TrimmedRules(v.rules, v.Reach()))
  }

  lemma {:induction false} TrimmedBest(rules: seq<DriftRule>, m: int, w: string)
    ensures |w| > m ==> Best(TrimmedRules(rules, m), w).None?
    ensures |w| <= m && Best(rules, w).None? ==> Best(TrimmedRules(rules, m), w).None?
    ensures |w| <= m && Best(rules, w).Some? ==>
      Best(TrimmedRules(rules, m), w) == Some(Best(rules, w).value.(canon := Short(Best(rules, w).value.canon, m)))
  {
    if rules != [] {
      assert TrimmedRules(rules, m)[1..] == TrimmedRules(rules[1..], m);
      TrimmedBest(rules[1..], m, w);
    }
  }

  lemma TrimmedDrift(v: View, w: string)
    ensures Drift(Trimmed(v).rules, v.originals)(w) == Short(Drift(v.rules, v.originals), v.Reach())(w)
  {
    TrimmedBest(v.rules, v.Reach(), w);
  }

  lemma TrimmedWhole(v: View, w: string)
    requires Steady(v)
    ensures Trimmed(v).Whole()(w) == Short(v.Whole(), v.Reach())(w)
  {
    TrimmedDrift(v, w);
  }

  lemma TrimmedIsStreamable(v: View)
    requires Steady(v)
    ensures Trimmed(v).Streamable()
  {
    hide View.Whole;
    var t := Trimmed(v);
    forall w
      ensures t.Whole()(w) == Short(v.Whole(), v.Reach())(w)
    {
      TrimmedWhole(v, w);
    }
    FewerInert(v.Whole(), v.Whole(), t.Whole(), t.Whole());
  }

  /** Inertness passes on to recognisers that recognise less. */
  lemma FewerInert(f: Recognizer, h: Recognizer, g: Recognizer, k: Recognizer)
    requires InertIn(f, h)
    requires forall w :: Recognises(g, w) ==> Recognises(f, w) && g(w) == f(w)
    requires forall w :: Recognises(k, w) ==> Recognises(h, w)
    ensures InertIn(g, k)
  {
    forall w | Recognises(g, w)
      ensures AngleFree(g(w).value) && forall u :: Recognises(k, u) ==> !Occurs(g(w).value, u)
    {
      assert Recognises(f, w);
    }
  }

  lemma OneShotTrimmed(v: View, text: string)
    requires Steady(v) && Fits(v, text)
    ensures OneShot(Trimmed(v), text) == OneShot(v, text)
  {
    hide InertIn, Rewrite, Clean, HeadLen, Replace, Best;
    var m, lookup, drift := v.Reach(), Lookup(v.originals), Drift(v.rules, v.originals);
    ReplaceIsRewrite(v, text);
    WholeInert(v);
    LongIsFewer(v);
    FewerInert(lookup, v.Whole(), lookup, Long(v.Whole(), m));
    assert text + "" == text;
    StaysClean(lookup, Long(v.Whole(), m), text, "");
    assert Rewrite(lookup, text) + "" == Rewrite(lookup, text);
    CleanOfFewer(Long(v.Whole(), m), Long(drift, m), Rewrite(lookup, text));
    forall w
      ensures Drift(Trimmed(v).rules, v.originals)(w) == Short(drift, m)(w)
    {
      TrimmedDrift(v, w);
    }
    ShortEnough(drift, Drift(Trimmed(v).rules, v.originals), m, Rewrite(lookup, text));
  }

  lemma LongIsFewer(v: View)
    ensures forall w :: Recognises(Long(v.Whole(), v.Reach()), w) ==> Recognises(v.Whole(), w)
    ensures forall w :: Recognises(Long(Drift(v.rules, v.originals), v.Reach()), w) ==>
              Recognises(Long(v.Whole(), v.Reach()), w)
  {
  }

  /** One step on a text that fits is the same, and what is held back fits with whatever follows. */
  lemma StepTrimmed(v: View, pending: string, chunk: string, flush: bool, z: string)
    requires Steady(v) && Fits(v, pending + (chunk + z))
    ensures Step(Trimmed(v), pending, chunk, flush) == Step(v, pending, chunk, flush)
    ensures Fits(v, Step(v, pending, chunk, flush).1 + z)
  {
    hide Fits, OneShot, Steady;
    Reassociate(pending, chunk, z);
    FitsParts(v, pending + chunk, z);
    OneShotTrimmed(v, pending + chunk);
    OneShotFits(v, pending + chunk, z);
    var t := OneShot(v, pending + chunk);
    var cut := Utf8.SafeCut(t, |t| - v.maxPending);
    FitsDrop(v, t, cut, z);
    assert "" + z == z;
  }

  lemma FitsParts(v: View, a: string, b: string)
    requires Fits(v, a + b)
    ensures Fits(v, a) && Fits(v, b)
  {
    CleanTake(Long(v.Whole(), v.Reach()), a, b);
  }

  lemma FitsDrop(v: View, t: string, cut: nat, z: string)
    requires Fits(v, t + z) && cut <= |t|
    ensures Fits(v, t[cut..] + z)
  {
    hide Clean;
    CleanDrop(Long(v.Whole(), v.Reach()), t + z, cut);
    AppendDrop(t, z, cut);
  }

  /** Demasking the beginning of a text that fits leaves a text that fits. */
  lemma OneShotFits(v: View, y: string, z: string)
    requires Steady(v) && Fits(v, y + z)
    ensures Fits(v, OneShot(v, y) + z)
  {
    hide View.Whole, OneShot, Rewrite, InertIn, Clean, Steady, View.Streamable;
    FitsParts(v, y, z);
    OneShotTrimmed(v, y);
    TrimmedIsStreamable(v);
    OneShotIsRewrite(Trimmed(v), y);
    TrimmedInert(v);
    StaysClean(Trimmed(v).Whole(), Long(v.Whole(), v.Reach()), y, z);
  }

  lemma TrimmedInert(v: View)
    requires Steady(v)
    ensures InertIn(Trimmed(v).Whole(), Long(v.Whole(), v.Reach()))
  {
    hide View.Whole, InertIn;
    forall w
      ensures Trimmed(v).Whole()(w) == Short(v.Whole(), v.Reach())(w)
    {
      TrimmedWhole(v, w);
    }
    LongIsFewer(v);
    FewerInert(v.Whole(), v.Whole(), Trimmed(v).Whole(), Long(v.Whole(), v.Reach()));
  }

  lemma {:induction false} StreamTrimmed(v: View, ops: seq<Op>, z: string)
    requires Steady(v) && Fits(v, Fed(ops) + z)
    ensures Stream(Trimmed(v), ops) == Stream(v, ops)
    ensures Fits(v, Stream(v, ops).1 + z)
  {
    hide Steady, Fits, Step, OneShot;
    if ops != [] {
      var before, op := ops[..|ops| - 1], ops[|ops| - 1];
      SnocEq(ops);
      FedSnoc(before, op);
      Reassociate(Fed(before), op.chunk, z);
      StreamTrimmed(v, before, op.chunk + z);
      StepTrimmed(v, Stream(v, before).1, op.chunk, op.flush, z);
    }
  }

  lemma {:induction false} RestoredTrimmed(v: View, segments: seq<string>)
    requires Steady(v) && Fits(v, Join(segments))
    ensures Restored(Trimmed(v), segments) == Restored(v, segments)
  {
    hide Steady, OneShot;
    if segments != [] {
      var before, last := segments[..|segments| - 1], segments[|segments| - 1];
      SnocEq(segments);
      JoinSnoc(before, last);
      CleanTake(Long(v.Whole(), v.Reach()), Join(before), last);
      RestoredTrimmed(v, before);
      OneShotTrimmed(v, last);
    }
  }

  lemma {:induction false} NoStraddleOfFewer(f: Recognizer, g: Recognizer, y: string, z: string)
    requires NoStraddle(f, y, z) && forall w :: Recognises(g, w) ==> Recognises(f, w)
    ensures NoStraddle(g, y, z)
  {
    if y != "" {
      var n := HeadLen(g, y + z);
      assert n > 0 ==> Recognises(g, (y + z)[..n]);
      NoStraddleOfFewer(f, g, y[1..], z);
    }
  }

  lemma {:induction false} UnbrokenTrimmed(v: View, segments: seq<string>)
    requires Steady(v) && Unbroken(v, segments)
    ensures Unbroken(Trimmed(v), segments)
  {
    hide View.Whole, NoStraddle;
    if segments != [] {
      UnbrokenTrimmed(v, segments[..|segments| - 1]);
      TrimmedRecognisesLess(v);
      NoStraddleOfFewer(v.Whole(), Trimmed(v).Whole(), Join(segments[..|segments| - 1]), segments[|segments| - 1]);
    }
  }

  lemma TrimmedRecognisesLess(v: View)
    requires Steady(v)
    ensures forall w :: Recognises(Trimmed(v).Whole(), w) ==> Recognises(v.Whole(), w)
  {
    hide View.Whole;
    forall w
      ensures Trimmed(v).Whole()(w) == Short(v.Whole(), v.Reach())(w)
    {
      TrimmedWhole(v, w);
    }
  }

  // ---- streams of texts that fit ----

  /** Chunk independence on every text in which no over-long drift form stands. */
  lemma ChunkIndependenceWhereFits(v: View, chunks: seq<string>, last: string)
    requires Steady(v) && Fits(v, Join(chunks) + last)
    ensures Stream(v, Feed(chunks, last)) == (OneShot(v, Join(chunks) + last), "")
  {
    hide Steady, Fits, OneShot, Stream, View.Streamable;
    var ops, all := Feed(chunks, last), Join(chunks) + last;
    SegmentsAreFed(ops);
    FeedSegments(chunks, last);
    assert all + "" == all && Fed(ops) + "" == Fed(ops);
    StreamTrimmed(v, ops, "");
    TrimmedIsStreamable(v);
    ChunkIndependence(Trimmed(v), chunks, last);
    OneShotTrimmed(v, all);
  }

  lemma FeedSegments(chunks: seq<string>, last: string)
    ensures Segments(Feed(chunks, last)) == ([Join(chunks) + last], "")
    ensures Join([Join(chunks) + last]) == Join(chunks) + last
  {
    UnflushedSegments(chunks);
    SnocParts(Unflushed(chunks), Op(last, true));
    var none: seq<string> := [];
    assert none + [Join(chunks) + last] == [Join(chunks) + last];
    assert [Join(chunks) + last][1..] == none && Join(none) == "";
  }

  /** A field with no text since its last flush has delivered its segments restored. */
  lemma SettledWhereFits(v: View, ops: seq<Op>)
    requires Steady(v) && Fits(v, Fed(ops)) && Segments(ops).1 == ""
    ensures Stream(v, ops) == (Restored(v, Segments(ops).0), "")
    ensures Join(Segments(ops).0) == Fed(ops)
  {
    hide Steady, Fits, OneShot, Stream, View.Streamable, Restored;
    SegmentsAreFed(ops);
    assert Join(Segments(ops).0) + "" == Join(Segments(ops).0) && Fed(ops) + "" == Fed(ops);
    StreamTrimmed(v, ops, "");
    TrimmedIsStreamable(v);
    SettledStream(Trimmed(v), ops);
    RestoredTrimmed(v, Segments(ops).0);
  }

  /** All text restored so far is delivered, but a tail of bounded length. */
  ghost predicate AllButTail(v: View, ops: seq<Op>, delivered: string) {
    exists tail: string ::
      && delivered + tail == Restored(v, Segments(ops).0) + OneShot(v, Segments(ops).1)
      && |tail| <= v.maxPending + 3
  }

  /** The held-back tail does not begin inside a character. */
  ghost predicate Readable(v: View, ops: seq<Op>) {
    && ValuesValid(v.Whole()) && (v.maxPending == 0 || v.maxPending >= 3)
    && exists more: string :: Utf8.Valid(Segments(ops).1 + more)
  }

  /** At every point of a stream all but a bounded tail has been delivered, whether flushed or not. */
  lemma DeliversAllButTail(v: View, ops: seq<Op>)
    requires Steady(v) && Fits(v, Fed(ops)) && Readable(v, ops)
    ensures AllButTail(v, ops, Stream(v, ops).0)
  {
    hide Steady, Fits, OneShot, Stream, View.Streamable, View.Whole, Restored, Utf8.Valid;
    SegmentsAreFed(ops);
    FitsParts(v, Join(Segments(ops).0), Segments(ops).1);
    assert Fed(ops) + "" == Fed(ops);
    StreamTrimmed(v, ops, "");
    TrimmedIsStreamable(v);
    TrimmedValid(v);
    RestoredTrimmed(v, Segments(ops).0);
    OneShotTrimmed(v, Segments(ops).1);
    DeliveredAndHeld(Trimmed(v), ops);
    var more :| Utf8.Valid(Segments(ops).1 + more);
    TailHeld(Trimmed(v), ops, more);
  }

  lemma TrimmedValid(v: View)
    requires Steady(v) && ValuesValid(v.Whole())
    ensures ValuesValid(Trimmed(v).Whole())
  {
    hide View.Whole;
    forall w | Recognises(Trimmed(v).Whole(), w)
      ensures Utf8.Valid(Trimmed(v).Whole()(w).value)
    {
      TrimmedWhole(v, w);
      assert Recognises(v.Whole(), w);
    }
  }

  /** A flushed field whose flush points split no placeholder delivers its whole text in one shot. */
  lemma ClosedWhereFits(v: View, ops: seq<Op>)
    requires Steady(v) && Fits(v, Fed(ops)) && Closed(ops)
    ensures Segments(ops).1 == "" && Stream(v, ops) == (Restored(v, Segments(ops).0), "")
    ensures Join(Segments(ops).0) == Fed(ops)
    ensures Unbroken(v, Segments(ops).0) ==> Stream(v, ops) == (OneShot(v, Fed(ops)), "")
  {
    hide Steady, Fits, OneShot, Stream, View.Streamable, Restored, Unbroken;
    SettledWhereFits(v, ops);
    if Unbroken(v, Segments(ops).0) { SettledUnbroken(v, ops); }
  }

  lemma SettledUnbroken(v: View, ops: seq<Op>)
    requires Steady(v) && Fits(v, Fed(ops)) && Segments(ops).1 == "" && Unbroken(v, Segments(ops).0)
    ensures Stream(v, ops) == (OneShot(v, Fed(ops)), "")
  {
    hide Steady, Fits, OneShot, Stream, View.Streamable, Restored, Unbroken;
    SettledWhereFits(v, ops);
    RestoredTrimmed(v, Segments(ops).0);
    UnbrokenTrimmed(v, Segments(ops).0);
    TrimmedIsStreamable(v);
    UnbrokenRestored(Trimmed(v), Segments(ops).0);
    OneShotTrimmed(v, Fed(ops));
  }

  /** When the tail covers every form, every text fits. */
  lemma {:induction false} StreamableFits(v: View, text: string)
    requires v.Streamable()
    ensures Steady(v) && Fits(v, text)
  {
    if text != "" {
      var n := HeadLen(Long(v.Whole(), v.Reach()), text);
      assert n > 0 ==> Recognises(v.Whole(), text[..n]);
      StreamableFits(v, text[1..]);
    } else {
      KeysRecognised(v);
    }
  }

  lemma KeysRecognised(v: View)
    requires v.Streamable()
    ensures forall w :: w in v.originals ==> |w| <= v.Reach()
  {
    forall w | w in v.originals
      ensures |w| <= v.Reach()
    {
      assert Recognises(v.Whole(), w);
    }
  }
}
