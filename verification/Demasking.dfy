/**
 The streaming demasker: text is restored in chunks, and a tail that may hold an unfinished
 placeholder is held back until it is safe to emit.
 */
module Demasking {
  import opened Text
  import opened AngleRewrite
  import opened PlaceholderScan
  import opened DriftPass
  import Utf8

  /** What one demasker works with: the replacer's arguments, the lookup map, the resolved rules. */
  datatype View = View(
    pairs: seq<(string, string)>,
    originals: map<string, string>,
    rules: seq<DriftRule>,
    maxPending: nat)
  {
    /** Established by the factory: the replacer and the map agree, and keys are placeholders. */
    ghost predicate Wf() {
      && DistinctIds(rules)
      && (forall w :: w in originals ==> IsToken(w))
      && (forall i :: 0 <= i < |pairs| ==> pairs[i].0 in originals && originals[pairs[i].0] == pairs[i].1)
      && (forall w :: w in originals ==> exists i :: 0 <= i < |pairs| && pairs[i].0 == w)
    }

    /** Both passes taken as one. */
    function Whole(): Recognizer {
      Either(Lookup(originals), Drift(rules, originals))
    }

    /** The longest form a stream recognises however it is cut: the held-back tail and one byte more. */
    function Reach(): nat {
      maxPending + 1
    }

    /** What a stream needs: restored text is inert, and every form is within reach. */
    ghost predicate Streamable() {
      Wf() && InertIn(Whole(), Whole()) && Bounded(Whole(), Reach())
    }
  }

  function Lookup(m: map<string, string>): Recognizer {
    w => if w in m then Some(m[w]) else None
  }

  // ---- the exact pass ----

  /** The first replacer argument that `t` starts with. */
  function FirstPrefix(pairs: seq<(string, string)>, t: string): (r: Option<(string, string)>)
    ensures r.Some? ==> r.value in pairs && 0 < |r.value.0| && r.value.0 <= t
    ensures r.None? ==> forall p :: p in pairs && p.0 != "" ==> !(p.0 <= t)
  {
    if pairs == [] then None
    else if pairs[0].0 != "" && pairs[0].0 <= t then Some(pairs[0])
    else FirstPrefix(pairs[1..], t)
  }

  /** strings.Replacer: left to right, argument order at each position, output not rescanned. */
  function Replace(pairs: seq<(string, string)>, t: string): string
    decreases |t|
  {
    if t == "" then "" else
      match FirstPrefix(pairs, t)
      case Some(p) => p.1 + Replace(pairs, t[|p.0|..])
      case None => [t[0]] + Replace(pairs, t[1..])
  }

  lemma PrefixIsHead(v: View, t: string)
    requires v.Wf() && t != ""
    ensures FirstPrefix(v.pairs, t).Some? <==> HeadLen(Lookup(v.originals), t) > 0
    ensures FirstPrefix(v.pairs, t).Some? ==>
            var n := HeadLen(Lookup(v.originals), t);
            FirstPrefix(v.pairs, t).value == (t[..n], v.originals[t[..n]])
  {
    hide BodyLen;
    var r := FirstPrefix(v.pairs, t);
    var n := TokenLen(t);
    if r.Some? {
      var i :| 0 <= i < |v.pairs| && v.pairs[i] == r.value;
      var w := r.value.0;
      TokenLenOf(w, t[|w|..]);
      assert t == w + t[|w|..];
    } else if n > 0 {
      KeyIsPrefix(v, t, t[..n]);
    }
  }

  lemma KeyIsPrefix(v: View, t: string, w: string)
    requires v.Wf() && w <= t
    ensures w in v.originals ==> FirstPrefix(v.pairs, t).Some?
  {
    if w in v.originals {
      var i :| 0 <= i < |v.pairs| && v.pairs[i].0 == w;
      var p := v.pairs[i];
      assert p in v.pairs && p.0 <= t && p.0 != "";
    }
  }

  lemma {:induction false} ReplaceIsRewrite(v: View, t: string)
    requires v.Wf()
    ensures Replace(v.pairs, t) == Rewrite(Lookup(v.originals), t)
    decreases |t|
  {
    hide HeadLen, FirstPrefix, View.Wf;
    if t != "" {
      PrefixIsHead(v, t);
      var n := HeadLen(Lookup(v.originals), t);
      ReplaceIsRewrite(v, t[if n > 0 then n else 1..]);
    }
  }

  // ---- one shot and one step ----

  /** Demasking a complete text: the exact pass, then the drift pass. */
  function OneShot(v: View, text: string): string {
    Rewrite(Drift(v.rules, v.originals), Replace(v.pairs, text))
  }

  lemma WholeInert(v: View)
    requires InertIn(v.Whole(), v.Whole())
    ensures InertIn(Lookup(v.originals), v.Whole())
  {
    var f := Lookup(v.originals);
    forall w | Recognises(f, w)
      ensures AngleFree(f(w).value) && forall u :: Recognises(v.Whole(), u) ==> !Occurs(f(w).value, u)
    {
      assert Recognises(v.Whole(), w) && v.Whole()(w) == f(w);
    }
  }

  lemma OneShotIsRewrite(v: View, text: string)
    requires v.Streamable()
    ensures OneShot(v, text) == Rewrite(v.Whole(), text)
  {
    ReplaceIsRewrite(v, text);
    WholeInert(v);
    TwoPasses(Lookup(v.originals), Drift(v.rules, v.originals), text);
  }

  /** One call: what is emitted, and what is held back. */
  function Step(v: View, pending: string, chunk: string, flush: bool): (r: (string, string)) {
    var text := OneShot(v, pending + chunk);
    if flush then (text, "") else
      var cut := Utf8.SafeCut(text, |text| - v.maxPending);
      (text[..cut], text[cut..])
  }

  /** Emitting early changes nothing, whatever follows. */
  lemma StepIsSafe(v: View, pending: string, chunk: string, z: string)
    requires v.Streamable()
    ensures var (out, held) := Step(v, pending, chunk, false);
            out + OneShot(v, held + z) == OneShot(v, pending + chunk + z)
  {
    hide View.Whole, OneShot, Rewrite, InertIn, Bounded, Clean, Utf8.SafeCut;
    var f, y := v.Whole(), pending + chunk;
    var t := OneShot(v, y);
    OneShotIsRewrite(v, y);
    OneShotIsRewrite(v, y + z);
    Absorb(f, y, z);
    RewriteIsClean(f, y);
    var cut := Utf8.SafeCut(t, |t| - v.maxPending);
    OneShotIsRewrite(v, t[cut..] + z);
    Utf8.CutLeaves(t, v.maxPending);
    if cut == 0 {
      assert t[0..] == t && t[..0] == "";
      assert "" + Rewrite(f, t + z) == Rewrite(f, t + z);
    } else {
      CutSafePrefix(f, v.Reach(), t, cut, z);
    }
  }

  /**
   Nothing is lost, and little is held back: an unflushed step emits all but the tail and at most the
   three bytes of a character in its way, unless the text is longer and no byte before its tail may
   begin a character.
   */
  lemma StepHolds(v: View, pending: string, chunk: string)
    ensures var (t, (out, held)) := (OneShot(v, pending + chunk), Step(v, pending, chunk, false));
            && out + held == t && (|held| >= v.maxPending || out == "")
            && (|held| <= v.maxPending + 3
                <==> |t| <= v.maxPending + 3 || v.maxPending == 0 || Utf8.StartsBefore(t, |t| - v.maxPending))
  {
    hide OneShot, Utf8.SafeCut, Utf8.StartsBefore;
    Utf8.CutLeaves(OneShot(v, pending + chunk), v.maxPending);
  }

  // ---- whole streams ----

  /** One DemaskChunk call. */
  datatype Op = Op(chunk: string, flush: bool)

  /** All text emitted so far and the text held back after the given calls. */
  function Stream(v: View, ops: seq<Op>): (string, string) {
    if ops == [] then ("", "") else
      var (emitted, pending) := Stream(v, ops[..|ops| - 1]);
      var op := ops[|ops| - 1];
      var (out, held) := Step(v, pending, op.chunk, op.flush);
      (emitted + out, held)
  }

  /** The fed text, cut where it was flushed: finished segments and the open one. */
  function Segments(ops: seq<Op>): (seq<string>, string) {
    if ops == [] then ([], "") else
      var (closed, open) := Segments(ops[..|ops| - 1]);
      var op := ops[|ops| - 1];
      if op.flush then (closed + [open + op.chunk], "") else (closed, open + op.chunk)
  }

  /** The one-shot results of all segments, joined. */
  function Restored(v: View, segments: seq<string>): string {
    if segments == [] then "" else Restored(v, segments[..|segments| - 1]) + OneShot(v, segments[|segments| - 1])
  }

  /**
   The stream invariant: whatever text `z` follows, emitted text plus the demasked rest equals the
   segments demasked in one shot each.
   */
  lemma {:induction false} StreamResumes(v: View, ops: seq<Op>, z: string)
    requires v.Streamable()
    ensures Stream(v, ops).0 + OneShot(v, Stream(v, ops).1 + z)
            == Restored(v, Segments(ops).0) + OneShot(v, Segments(ops).1 + z)
  {
    hide OneShot, View.Streamable, Step;
    if ops != [] {
      var before, op := ops[..|ops| - 1], ops[|ops| - 1];
      var (e, p) := Stream(v, before);
      var (closed, open) := Segments(before);
      if op.flush {
        StreamResumes(v, before, op.chunk);
        FlushStep(v, p, op.chunk);
        assert (closed + [open + op.chunk])[..|closed|] == closed;
        assert "" + z == z;
      } else {
        StreamResumes(v, before, op.chunk + z);
        StepIsSafe(v, p, op.chunk, z);
        Reassociate(p, op.chunk, z);
        Reassociate(open, op.chunk, z);
        Reassociate(e, Step(v, p, op.chunk, false).0, OneShot(v, Step(v, p, op.chunk, false).1 + z));
      }
    }
  }

  lemma FlushStep(v: View, pending: string, chunk: string)
    ensures Step(v, pending, chunk, true) == (OneShot(v, pending + chunk), "")
  {
  }

  lemma OneShotEmpty(v: View)
    ensures OneShot(v, "") == ""
  {
  }

  /** A stream that ends with a flush has emitted its segments, each demasked in one shot. */
  lemma FlushedStream(v: View, ops: seq<Op>)
    requires v.Streamable() && ops != [] && ops[|ops| - 1].flush
    ensures Stream(v, ops) == (Restored(v, Segments(ops).0), "")
    ensures Segments(ops).1 == ""
  {
    hide OneShot, View.Streamable, Step;
    var before, op := ops[..|ops| - 1], ops[|ops| - 1];
    FlushStep(v, Stream(v, before).1, op.chunk);
    StreamResumes(v, ops, "");
    OneShotEmpty(v);
    assert "" + "" == "";
    assert Stream(v, ops).0 + "" == Stream(v, ops).0;
    assert Restored(v, Segments(ops).0) + "" == Restored(v, Segments(ops).0);
  }

  /** The calls for a text fed in pieces that are not flushed. */
  function Unflushed(chunks: seq<string>): seq<Op> {
    if chunks == [] then [] else Unflushed(chunks[..|chunks| - 1]) + [Op(chunks[|chunks| - 1], false)]
  }

  /** The calls for a text fed in pieces and flushed with the last one. */
  function Feed(chunks: seq<string>, last: string): seq<Op> {
    Unflushed(chunks) + [Op(last, true)]
  }

  lemma SnocParts<T>(s: seq<T>, x: T)
    ensures (s + [x])[..|s + [x]| - 1] == s && (s + [x])[|s + [x]| - 1] == x
  {
  }

  lemma {:induction false} UnflushedSegments(chunks: seq<string>)
    ensures Segments(Unflushed(chunks)) == ([], Join(chunks))
  {
    if chunks != [] {
      var before, c := chunks[..|chunks| - 1], chunks[|chunks| - 1];
      UnflushedSegments(before);
      SnocParts(Unflushed(before), Op(c, false));
      JoinSnoc(before, c);
      TakeSnoc(chunks, |chunks| - 1);
      assert chunks[..|chunks|] == chunks;
    }
  }

  /** Chunk independence: however a text is cut up, the stream emits its one-shot demasking. */
  lemma ChunkIndependence(v: View, chunks: seq<string>, last: string)
    requires v.Streamable()
    ensures Stream(v, Feed(chunks, last)) == (OneShot(v, Join(chunks) + last), "")
  {
    hide OneShot, View.Streamable, Stream;
    var ops := Feed(chunks, last);
    UnflushedSegments(chunks);
    SnocParts(Unflushed(chunks), Op(last, true));
    FlushedStream(v, ops);
    assert Segments(ops).0 == [Join(chunks) + last];
    assert [Join(chunks) + last][..0] == [] && Restored(v, []) == "";
    assert "" + OneShot(v, Join(chunks) + last) == OneShot(v, Join(chunks) + last);
  }

  // ---- UTF-8 ----

  /** Every restored value is valid UTF-8. */
  ghost predicate ValuesValid(f: Recognizer) {
    forall w :: Recognises(f, w) ==> Utf8.Valid(f(w).value)
  }

  /** Rewriting the beginning of a valid text leaves the beginning of a valid text. */
  lemma {:induction false} RewriteValid(f: Recognizer, y: string, z: string)
    requires ValuesValid(f) && Utf8.Valid(y + z)
    ensures Utf8.Valid(Rewrite(f, y) + z)
    decreases |y|
  {
    hide HeadLen, Utf8.RuneLen, Utf8.Valid;
    if y == "" {
      assert Rewrite(f, y) == y;
    } else if HeadLen(f, y) > 0 {
      RewriteValidToken(f, y, z);
      RewriteValid(f, y[HeadLen(f, y)..], z);
      var o, rest := f(y[..HeadLen(f, y)]).value, Rewrite(f, y[HeadLen(f, y)..]);
      Utf8.ValidAppend(o, rest + z);
      Reassociate(o, rest, z);
    } else {
      var n := Utf8.RuneLen(y + z);
      RuneHasNoOpen(y, z);
      if n > |y| {
        RewriteAngleFree(f, y, "");
        assert y + "" == y && Rewrite(f, "") == "";
      } else {
        ValidTail(y, z);
        RewriteValid(f, y[n..], z);
        RewriteRune(f, y, z);
        Utf8.ValidAppend(y[..n], Rewrite(f, y[n..]) + z);
        Reassociate(y[..n], Rewrite(f, y[n..]), z);
      }
    }
  }

  lemma RewriteValidToken(f: Recognizer, y: string, z: string)
    requires y != "" && HeadLen(f, y) > 0 && Utf8.Valid(y + z) && ValuesValid(f)
    ensures var n := HeadLen(f, y); Utf8.Valid(y[n..] + z) && Utf8.Valid(f(y[..n]).value)
  {
    hide Utf8.Valid, Utf8.RuneLen, BodyLen;
    var n := HeadLen(f, y);
    assert Recognises(f, y[..n]);
    assert y + z == y[..n - 1] + [y[n - 1]] + (y[n..] + z);
    Utf8.ValidAfterAscii(y[..n - 1], y[n - 1], y[n..] + z);
  }

  /** A character is one ASCII byte or holds no ASCII byte at all. */
  lemma RuneHasNoOpen(y: string, z: string)
    requires y != "" && Utf8.Valid(y + z)
    ensures var n := Utf8.RuneLen(y + z);
            n > 0 && (n > |y| ==> '<' !in y) && (1 < n <= |y| ==> '<' !in y[..n])
  {
    var n := Utf8.RuneLen(y + z);
    forall k | 0 <= k < n && n > 1
      ensures (y + z)[k] != '<'
    {
    }
    forall k | 0 <= k < n && k < |y|
      ensures (y + z)[k] == y[k]
    {
    }
  }

  lemma ValidTail(y: string, z: string)
    requires Utf8.Valid(y + z) && 0 < Utf8.RuneLen(y + z) <= |y|
    ensures Utf8.Valid(y[Utf8.RuneLen(y + z)..] + z) && Utf8.Valid(y[..Utf8.RuneLen(y + z)])
  {
    var n := Utf8.RuneLen(y + z);
    AppendDrop(y, z, n);
    assert Utf8.RuneLen(y[..n]) == n;
    assert y[..n][n..] == "";
  }

  lemma RewriteRune(f: Recognizer, y: string, z: string)
    requires y != "" && HeadLen(f, y) == 0
    requires var n := Utf8.RuneLen(y + z); 0 < n <= |y| && (1 < n ==> '<' !in y[..n])
    ensures var n := Utf8.RuneLen(y + z); Rewrite(f, y) == y[..n] + Rewrite(f, y[n..])
  {
    hide Utf8.RuneLen, HeadLen, Rewrite;
    var n := Utf8.RuneLen(y + z);
    if n == 1 {
      assert y[..1] == [y[0]];
      RewriteStep(f, y);
    } else {
      RewriteAngleFree(f, y[..n], y[n..]);
      TakeDrop(y, n);
    }
  }

  /** Whatever was emitted, piece by piece. */
  function Pieces(v: View, ops: seq<Op>): seq<string> {
    if ops == [] then [] else
      var before, op := ops[..|ops| - 1], ops[|ops| - 1];
      Pieces(v, before) + [Step(v, Stream(v, before).1, op.chunk, op.flush).0]
  }

  lemma StepValid(v: View, pending: string, chunk: string, more: string)
    requires v.Streamable() && ValuesValid(v.Whole()) && v.maxPending >= 3
    requires Utf8.Valid(pending + chunk + more)
    ensures var (out, held) := Step(v, pending, chunk, false);
            Utf8.Valid(out) && Utf8.Valid(held + more)
  {
    hide OneShot, Rewrite, View.Whole, Utf8.Valid, Utf8.RuneLen, InertIn, ValuesValid;
    OneShotIsRewrite(v, pending + chunk);
    RewriteValid(v.Whole(), pending + chunk, more);
    var t := OneShot(v, pending + chunk);
    Utf8.CutIsBoundary(t, |t| - v.maxPending, more);
  }

  lemma ValidStarts(t: string, more: string, m: nat)
    requires Utf8.Valid(t + more) && |t| > m
    ensures Utf8.StartsBefore(t, |t| - m)
  {
    assert (t + more)[0] == t[0];
    Utf8.RuneBytes(t + more);
  }

  /** With no tail to hold back nothing is. */
  lemma NoTail(v: View, pending: string, chunk: string)
    requires v.maxPending == 0
    ensures Step(v, pending, chunk, false).1 == ""
  {
  }

  /**
   At every point of a stream all text restored so far has been delivered but a tail of bounded length:
   for every text that is, since the last flush, the beginning of valid UTF-8.
   */
  lemma {:induction false} TailHeld(v: View, ops: seq<Op>, more: string)
    requires v.Streamable() && ValuesValid(v.Whole()) && (v.maxPending == 0 || v.maxPending >= 3)
    requires Utf8.Valid(Segments(ops).1 + more)
    ensures |Stream(v, ops).1| <= v.maxPending + 3
    ensures v.maxPending > 0 ==> Utf8.Valid(Stream(v, ops).1 + more)
    decreases |ops|
  {
    hide OneShot, Step, View.Streamable, View.Whole, Utf8.Valid, ValuesValid, Rewrite, Utf8.StartsBefore;
    if ops != [] {
      var before, op := ops[..|ops| - 1], ops[|ops| - 1];
      var p := Stream(v, before).1;
      if op.flush {
        FlushStep(v, p, op.chunk);
      } else {
        Reassociate(Segments(before).1, op.chunk, more);
        TailHeld(v, before, op.chunk + more);
        if v.maxPending == 0 {
          NoTail(v, p, op.chunk);
        } else {
          Reassociate(p, op.chunk, more);
          StepValid(v, p, op.chunk, more);
          StepHoldsValid(v, p, op.chunk, more);
        }
      }
    }
  }

  lemma StepHoldsValid(v: View, pending: string, chunk: string, more: string)
    requires v.Streamable() && ValuesValid(v.Whole()) && Utf8.Valid(pending + chunk + more)
    ensures |Step(v, pending, chunk, false).1| <= v.maxPending + 3
  {
    hide OneShot, Step, View.Streamable, View.Whole, Utf8.Valid, ValuesValid, Rewrite, Utf8.StartsBefore;
    var t := OneShot(v, pending + chunk);
    StepHolds(v, pending, chunk);
    OneShotIsRewrite(v, pending + chunk);
    RewriteValid(v.Whole(), pending + chunk, more);
    if |t| > v.maxPending { ValidStarts(t, more, v.maxPending); }
  }

  lemma StepClean(v: View, pending: string, chunk: string, flush: bool)
    requires v.Streamable()
    ensures Clean(v.Whole(), Step(v, pending, chunk, flush).1)
  {
    hide OneShot, View.Whole, Clean, InertIn, Bounded, Utf8.SafeCut;
    if flush {
      FlushStep(v, pending, chunk);
      NothingClean(v.Whole());
    } else {
      var t := OneShot(v, pending + chunk);
      OneShotIsRewrite(v, pending + chunk);
      RewriteIsClean(v.Whole(), pending + chunk);
      CleanDrop(v.Whole(), t, Utf8.SafeCut(t, |t| - v.maxPending));
    }
  }

  /** What is held back passes unchanged. */
  lemma HeldIsRestored(v: View, ops: seq<Op>)
    requires v.Streamable()
    ensures OneShot(v, Stream(v, ops).1) == Stream(v, ops).1
  {
    hide OneShot, View.Whole, View.Streamable, Clean, Step;
    var held := Stream(v, ops).1;
    OneShotIsRewrite(v, held);
    if ops == [] {
      NothingClean(v.Whole());
    } else {
      var op := ops[|ops| - 1];
      StepClean(v, Stream(v, ops[..|ops| - 1]).1, op.chunk, op.flush);
    }
    RewriteClean(v.Whole(), held);
  }

  lemma NothingClean(f: Recognizer)
    ensures Clean(f, "")
  {
  }

  /** What was delivered and what is held back make up the segments, each restored in one shot. */
  lemma DeliveredAndHeld(v: View, ops: seq<Op>)
    requires v.Streamable()
    ensures Stream(v, ops).0 + Stream(v, ops).1 == Restored(v, Segments(ops).0) + OneShot(v, Segments(ops).1)
  {
    hide OneShot, View.Streamable, Stream;
    HeldIsRestored(v, ops);
    StreamResumes(v, ops, "");
    assert Stream(v, ops).1 + "" == Stream(v, ops).1 && Segments(ops).1 + "" == Segments(ops).1;
  }

  /** Every emitted piece is valid UTF-8, even when the chunks cut characters apart. */
  lemma {:induction false} PiecesValid(v: View, chunks: seq<string>, more: string)
    requires v.Streamable() && ValuesValid(v.Whole()) && v.maxPending >= 3
    requires Utf8.Valid(Join(chunks) + more)
    ensures forall p :: p in Pieces(v, Unflushed(chunks)) ==> Utf8.Valid(p)
    ensures Utf8.Valid(Stream(v, Unflushed(chunks)).1 + more)
  {
    hide Step, View.Streamable, View.Whole, Utf8.Valid, ValuesValid;
    if chunks == [] {
      assert Join(chunks) == "";
    } else {
      var before, c := chunks[..|chunks| - 1], chunks[|chunks| - 1];
      JoinSnoc(before, c);
      TakeSnoc(chunks, |chunks| - 1);
      assert chunks[..|chunks|] == chunks;
      Reassociate(Join(before), c, more);
      PiecesValid(v, before, c + more);
      SnocParts(Unflushed(before), Op(c, false));
      var held := Stream(v, Unflushed(before)).1;
      Reassociate(held, c, more);
      StepValid(v, held, c, more);
    }
  }

  /** The same for a complete stream: the flushed last piece is valid too. */
  lemma StreamPiecesValid(v: View, chunks: seq<string>, last: string)
    requires v.Streamable() && ValuesValid(v.Whole()) && v.maxPending >= 3
    requires Utf8.Valid(Join(chunks) + last)
    ensures forall p :: p in Pieces(v, Feed(chunks, last)) ==> Utf8.Valid(p)
  {
    hide Step, OneShot, View.Streamable, View.Whole, Utf8.Valid, ValuesValid, Unflushed;
    PiecesValid(v, chunks, last);
    var held := Stream(v, Unflushed(chunks)).1;
    SnocParts(Unflushed(chunks), Op(last, true));
    FlushStep(v, held, last);
    OneShotIsRewrite(v, held + last);
    assert held + last + "" == held + last;
    RewriteValid(v.Whole(), held + last, "");
    assert Rewrite(v.Whole(), held + last) + "" == Rewrite(v.Whole(), held + last);
  }

  // ---- the object ----

  class Demasker {
    const view: View
    var pending: string

    constructor (view: View)
      ensures this.view == view && pending == ""
    {
      this.view := view;
      pending := "";
    }

    /**
     Appends `chunk` to the held-back tail, demasks, and returns what is safe to emit.  When the
     scan fails everything not yet emitted is handed back, exact pass applied, nothing held.
     */
    method DemaskChunk(chunk: string, flush: bool, scanFails: bool, cpus: nat) returns (out: string, failed: bool)
      requires view.Wf() && cpus > 0
      modifies this`pending
      ensures failed == (scanFails && old(pending) + chunk != "")
      ensures !failed ==> (out, pending) == Step(view, old(pending), chunk, flush)
      ensures failed ==> out == Replace(view.pairs, old(pending) + chunk) && pending == ""
    {
      var text := pending + chunk;
      pending := "";
      if text == "" {
        OneShotEmpty(view);
        return "", false;
      }
      text := Replace(view.pairs, text);
      if scanFails {
        return text, true;
      }
      text := ApplyPlaceholderRegex(text, view.rules, view.originals, cpus);
      if flush {
        return text, false;
      }
      var safeEnd := |text| - view.maxPending;
      if safeEnd <= 0 {
        pending := text;
        return "", false;
      }
      safeEnd := Utf8.SafePrefixEnd(text, safeEnd);
      if safeEnd <= 0 {
        pending := text;
        return "", false;
      }
      pending := text[safeEnd..];
      return text[..safeEnd], false;
    }
  }
}
