/**
 How far the stream guarantee reaches: when flush points in the middle of a text are harmless, and
 exactly which originals break chunk independence.
 */
module DemaskLimits {
  import opened Text
  import opened AngleRewrite
  import opened Demasking
  import opened DriftPass

  // ---- flush points ----

  /** No recognised token of `y + z` starts in `y` and ends in `z`. */
  predicate NoStraddle(f: Recognizer, y: string, z: string)
    decreases |y|
  {
    y == "" || (HeadLen(f, y + z) <= |y| && NoStraddle(f, y[1..], z))
  }

  lemma {:induction false} NoStraddleDrop(f: Recognizer, y: string, z: string, i: nat)
    requires NoStraddle(f, y, z) && i <= |y|
    ensures NoStraddle(f, y[i..], z)
    decreases i
  {
    hide HeadLen;
    if i == 0 {
      assert y[0..] == y;
    } else {
      NoStraddleDrop(f, y[1..], z, i - 1);
      DropDrop(y, 1, i - 1);
    }
  }

  lemma {:induction false} RewriteSplits(f: Recognizer, y: string, z: string)
    requires NoStraddle(f, y, z)
    ensures Rewrite(f, y + z) == Rewrite(f, y) + Rewrite(f, z)
    decreases |y|
  {
    hide HeadLen;
    if y == "" {
      assert y + z == z;
    } else if HeadLen(f, y) > 0 {
      var n := HeadLen(f, y);
      HeadLenAppend(f, y, z);
      AppendDrop(y, z, n);
      NoStraddleDrop(f, y, z, n);
      RewriteSplits(f, y[n..], z);
      Reassociate(f(y[..n]).value, Rewrite(f, y[n..]), Rewrite(f, z));
    } else {
      HeadLenAppend(f, y, z);
      AppendDrop(y, z, 1);
      RewriteSplits(f, y[1..], z);
      Reassociate([y[0]], Rewrite(f, y[1..]), Rewrite(f, z));
    }
  }

  /** No flush point of the segmented text falls inside a recognised placeholder. */
  ghost predicate Unbroken(v: View, segments: seq<string>) {
    segments == [] ||
    var before, last := segments[..|segments| - 1], segments[|segments| - 1];
    NoStraddle(v.Whole(), Join(before), last) && Unbroken(v, before)
  }

  /** No recognised token of the text lies across position `p`. */
  predicate IntactAt(f: Recognizer, text: string, p: nat) {
    p <= |text| ==> NoStraddle(f, text[..p], text[p..])
  }

  lemma {:induction false} NoStraddleShorter(f: Recognizer, y: string, z: string, more: string)
    requires NoStraddle(f, y, z + more)
    ensures NoStraddle(f, y, z)
    decreases |y|
  {
    if y != "" {
      Reassociate(y, z, more);
      HeadLenAppend(f, y + z, more);
      NoStraddleShorter(f, y[1..], z, more);
    }
  }

  /** Segments flushed apart are then restored as the whole text would be. */
  lemma {:induction false} UnbrokenRestored(v: View, segments: seq<string>)
    requires v.Streamable() && Unbroken(v, segments)
    ensures Restored(v, segments) == OneShot(v, Join(segments))
  {
    hide View.Streamable, OneShot, NoStraddle, View.Whole;
    if segments == [] {
      OneShotEmpty(v);
    } else {
      var before, last := segments[..|segments| - 1], segments[|segments| - 1];
      UnbrokenRestored(v, before);
      SnocEq(segments);
      JoinSnoc(before, last);
      OneShotIsRewrite(v, Join(before));
      OneShotIsRewrite(v, last);
      OneShotIsRewrite(v, Join(before) + last);
      RewriteSplits(v.Whole(), Join(before), last);
    }
  }

  lemma SnocEq<T>(s: seq<T>)
    requires s != []
    ensures s == s[..|s| - 1] + [s[|s| - 1]]
  {
  }

  // ---- which originals a stream can bear ----

  /** However a text is cut, streaming it gives its one-shot demasking. */
  ghost predicate StreamsAsOneShot(v: View) {
    forall chunks: seq<string>, last: string ::
      Stream(v, Feed(chunks, last)) == (OneShot(v, Join(chunks) + last), "")
  }

  /** Originals hold no angle bracket. */
  ghost predicate Bare(v: View) {
    v.Wf() && forall w :: w in v.originals ==> AngleFree(v.originals[w])
  }

  /** Moreover only minted placeholders are recognised. */
  ghost predicate ExactOnly(v: View) {
    Bare(v) && v.rules == []
  }

  /** No original is part of a placeholder. */
  ghost predicate OriginalsApart(v: View) {
    forall p, q :: p in v.originals && q in v.originals ==> !Occurs(v.originals[p], q)
  }

  lemma WholeIsLookup(v: View, w: string)
    requires v.rules == []
    ensures v.Whole()(w) == if w in v.originals then Some(v.originals[w]) else None
    ensures Drift(v.rules, v.originals)(w).None?
  {
    assert Best(v.rules, w).None?;
  }

  /** The minted placeholders are within reach. */
  ghost predicate Reachable(v: View) {
    forall w :: w in v.originals ==> |w| <= v.Reach()
  }

  lemma ApartIsStreamable(v: View)
    requires ExactOnly(v) && OriginalsApart(v) && Reachable(v)
    ensures v.Streamable()
  {
    hide View.Whole, IsToken, AngleFree, Occurs, View.Wf;
    var h := v.Whole();
    forall w | Recognises(h, w)
      ensures w in v.originals && h(w).value == v.originals[w]
    {
      WholeIsLookup(v, w);
    }
    forall w | Recognises(h, w)
      ensures AngleFree(h(w).value) && forall u :: Recognises(h, u) ==> !Occurs(h(w).value, u)
    {
    }
    ExactOnlyWf(v);
  }

  lemma ExactOnlyWf(v: View)
    requires ExactOnly(v)
    ensures v.Wf() && forall w :: w in v.originals ==> IsToken(w)
  {
  }

  lemma InsideBrackets(q: string, o: string, i: nat)
    requires IsToken(q) && AngleFree(o) && o != "" && OccursAt(o, q, i)
    ensures 1 <= i && i + |o| <= |q| - 1
  {
    assert q[i..i + |o|][0] == q[i] && q[i..i + |o|][|o| - 1] == q[i + |o| - 1];
    assert q[i] in o && q[i + |o| - 1] in o;
  }

  /** Wraps `o` back into the token it is part of, with the placeholder of `o` in its place. */
  lemma NestedToken(q: string, o: string) returns (a: string, b: string)
    requires IsToken(q) && AngleFree(o) && Occurs(o, q)
    ensures q == a + o + b + ">" && AngleFree(b) && a != "" && a[0] == '<' && AngleFree(a[1..])
  {
    var i: nat :| OccursAt(o, q, i);
    if o == "" { i := 1; } else { InsideBrackets(q, o, i); }
    a, b := q[..i], q[i + |o|..|q| - 1];
    var body := q[1..|q| - 1];
    assert a[1..] == body[..i - 1] && b == body[i + |o| - 1..];
    assert q[i..i + |o|] == o;
  }

  /** The text `a p b` is restored to `a o b`: the opening bracket in `a` starts no token. */
  lemma RestoresInside(v: View, a: string, p: string, b: string)
    requires ExactOnly(v) && p in v.originals
    requires a != "" && a[0] == '<' && AngleFree(a[1..]) && '<' !in b
    ensures OneShot(v, a + p + b) == a + v.originals[p] + b
  {
    hide TokenLen, IsToken, Rewrite, AngleFree;
    var f, o, x := Lookup(v.originals), v.originals[p], a[1..];
    ReplaceIsRewrite(v, a + p + b);
    HeadTail(a);
    PlainThenToken(f, x, p, b);
    assert a + p + b == "<" + x + (p + b);
    assert ("<" + x + (p + b))[1..] == x + (p + b);
    assert p != "" && (p + b)[0] == '<';
    NoTokenBeforeOpen(x, p + b);
    RewriteStep(f, "<" + x + (p + b));
    assert "<" + (x + (o + b)) == a + o + b;
    NoDrift(v, a + o + b);
  }

  lemma PlainThenToken(f: Recognizer, x: string, p: string, b: string)
    requires AngleFree(x) && Recognises(f, p) && '<' !in b
    ensures p != "" && p[0] == '<' && Rewrite(f, x + (p + b)) == x + (f(p).value + b)
  {
    hide Rewrite, TokenLen;
    RewriteAngleFree(f, x, p + b);
    RewriteToken(f, p, b);
    RewriteAngleFree(f, b, "");
    assert b + "" == b && Rewrite(f, "") == "" by { RewriteEmpty(f); }
  }

  lemma RewriteEmpty(f: Recognizer)
    ensures Rewrite(f, "") == ""
  {
  }

  lemma {:induction false} NothingRecognised(f: Recognizer, t: string)
    requires forall w :: f(w).None?
    ensures Rewrite(f, t) == t
    decreases |t|
  {
    hide TokenLen;
    if t != "" {
      NothingRecognised(f, t[1..]);
      HeadTail(t);
    }
  }

  lemma NoDrift(v: View, t: string)
    requires v.rules == []
    ensures Rewrite(Drift(v.rules, v.originals), t) == t
  {
    hide Rewrite;
    forall w
      ensures Drift(v.rules, v.originals)(w).None?
    {
      WholeIsLookup(v, w);
    }
    NothingRecognised(Drift(v.rules, v.originals), t);
  }

  /** What is restored is an original of the index. */
  lemma RestoredIsOriginal(v: View, w: string) returns (k: string)
    requires Recognises(v.Whole(), w)
    ensures k in v.originals && v.Whole()(w).value == v.originals[k]
  {
    if w in v.originals {
      k := w;
    } else {
      k := Best(v.rules, w).value.canon(w).value;
    }
  }

  /** A text that is one recognised form is restored in one shot. */
  lemma OneShotToken(v: View, q: string)
    requires Bare(v) && Recognises(v.Whole(), q)
    ensures OneShot(v, q) == v.Whole()(q).value && AngleFree(v.Whole()(q).value)
  {
    hide Rewrite, IsToken, AngleFree, Best;
    var f, g := Lookup(v.originals), Drift(v.rules, v.originals);
    ReplaceIsRewrite(v, q);
    var k := RestoredIsOriginal(v, q);
    var o := v.originals[k];
    NoAngle(o);
    assert q + "" == q && o + "" == o;
    RewriteEmpty(f);
    RewriteEmpty(g);
    if q in v.originals {
      RewriteToken(f, q, "");
      RewriteAngleFree(g, o, "");
    } else {
      RewriteUnrecognisedToken(f, q, "");
      RewriteToken(g, q, "");
    }
  }

  /** An original that is part of a placeholder is rescanned when a stream cuts after it. */
  lemma NestedBreaks(v: View, p: string, q: string)
    requires ExactOnly(v) && p in v.originals && q in v.originals && Occurs(v.originals[p], q) && |q| <= v.Reach()
    ensures !StreamsAsOneShot(v)
  {
    hide OneShot, Occurs, IsToken, AngleFree, Stream;
    var o := v.originals[p];
    var a, b := NestedToken(q, o);
    var first := a + p + b;
    NoAngle(b);
    RestoresInside(v, a, p, b);
    Reassociate(a + p, b, ">");
    RestoresInside(v, a, p, b + ">");
    Reassociate(a + o, b, ">");
    WholeIsLookup(v, q);
    OneShotToken(v, q);
    NoAngle(v.originals[q]);
    assert q[0] == '<' && '<' in q;
    assert [first][1..] == [] && Join([]) == "" && first + "" == first;
    HeldThenFlushed(v, first, a + o + b, ">");
    assert Stream(v, Feed([first], ">")).0 != OneShot(v, Join([first]) + ">");
  }

  lemma NoAngle(s: string)
    requires AngleFree(s)
    ensures '<' !in s && '<' !in s + ">"
  {
  }

  lemma HeldThenFlushed(v: View, first: string, held: string, last: string)
    requires OneShot(v, first) == held && |held| <= v.maxPending
    ensures Stream(v, Feed([first], last)) == (OneShot(v, held + last), "")
  {
    hide OneShot;
    var ops := Feed([first], last);
    assert Unflushed([first]) == [Op(first, false)] by { assert [first][..0] == [] && Unflushed([]) == []; }
    assert ops == [Op(first, false), Op(last, true)];
    assert ops[..1] == [Op(first, false)] && [Op(first, false)][..0] == [];
    assert Stream(v, []) == ("", "");
    assert "" + first == first;
    assert held[..0] == "" && held[0..] == held;
    assert Step(v, "", first, false) == ("", held);
    assert "" + "" == "";
    assert Stream(v, [Op(first, false)]) == ("", held);
    assert "" + OneShot(v, held + last) == OneShot(v, held + last);
  }

  // ---- forms out of reach ----

  /** A form longer than a stream can hold back is torn when it arrives in the wrong pieces. */
  lemma OverlongBreaks(v: View, w: string)
    requires Bare(v) && Recognises(v.Whole(), w) && |w| > v.Reach()
    ensures !StreamsAsOneShot(v)
  {
    hide OneShot, Stream, AngleFree, IsToken, View.Whole;
    var m := v.maxPending;
    var first, last := w[..m + 1], w[m + 1..];
    TakeDrop(w, m + 1);
    OneShotToken(v, w);
    NoAngle(v.Whole()(w).value);
    TokenCut(w, m + 1);
    NoFormAt(v, first);
    OpenUnclosed(v, w[1..m + 1]);
    assert first == "<" + w[1..m + 1];
    NoFormAt(v, w[1..]);
    assert "" + w[1..] == w[1..] && w[1..m + 1] + last == w[1..];
    assert [first][1..] == [] && Join([]) == "" && first + "" == first;
    CutAfterOpen(v, first, last);
    assert w == "<" + w[1..] && '<' in w;
    assert Stream(v, Feed([first], last)).0 != OneShot(v, Join([first]) + last);
  }

  lemma TokenCut(w: string, n: nat)
    requires IsToken(w) && 1 <= n < |w|
    ensures w[0] == '<' && AngleFree(w[1..n]) && '<' !in w[1..]
  {
    assert w[1..n] == w[1..|w| - 1][..n - 1];
    assert w[1..] == w[1..|w| - 1] + ">";
  }

  /** Text without an opening bracket is its own demasking. */
  lemma NoFormAt(v: View, t: string)
    requires v.Wf()
    ensures '<' !in t ==> OneShot(v, t) == t
  {
    if '<' !in t {
      ReplaceIsRewrite(v, t);
      RewriteAngleFree(Lookup(v.originals), t, "");
      RewriteAngleFree(Drift(v.rules, v.originals), t, "");
      assert t + "" == t;
    }
  }

  /** So is a bracket that is not closed yet. */
  lemma OpenUnclosed(v: View, x: string)
    requires v.Wf() && AngleFree(x)
    ensures OneShot(v, "<" + x) == "<" + x
  {
    hide Rewrite, TokenLen;
    var f, g, t := Lookup(v.originals), Drift(v.rules, v.originals), "<" + x;
    ReplaceIsRewrite(v, t);
    NoAngle(x);
    NeverClosed(x);
    assert t[1..] == x && x + "" == x;
    RewriteStep(f, t);
    RewriteStep(g, t);
    RewriteAngleFree(f, x, "");
    RewriteAngleFree(g, x, "");
    RewriteEmpty(f);
    RewriteEmpty(g);
  }

  lemma NeverClosed(x: string)
    requires AngleFree(x)
    ensures TokenLen("<" + x) == 0
  {
    assert ("<" + x)[1..] == x;
    BodyLenAll(x);
  }

  /** The first piece is one byte longer than what is held back: its bracket goes out. */
  lemma CutAfterOpen(v: View, first: string, last: string)
    requires OneShot(v, first) == first && |first| == v.maxPending + 1 && first[0] == '<'
    ensures Stream(v, Feed([first], last)) == ("<" + OneShot(v, first[1..] + last), "")
  {
    hide OneShot;
    assert Unflushed([first]) == [Op(first, false)] by { assert [first][..0] == [] && Unflushed([]) == []; }
    var ops := Feed([first], last);
    assert ops == [Op(first, false), Op(last, true)];
    assert ops[..1] == [Op(first, false)] && [Op(first, false)][..0] == [];
    assert Stream(v, []) == ("", "");
    assert "" + first == first;
    CutIsOne(first);
    assert first[..1] == "<";
    assert Step(v, "", first, false) == ("<", first[1..]);
    assert "" + "<" == "<";
    assert Stream(v, [Op(first, false)]) == ("<", first[1..]);
  }

  lemma CutIsOne(s: string)
    requires s != "" && s[0] == '<'
    ensures Utf8.SafeCut(s, 1) == 1
  {
    assert Utf8.LastStart(s, 1) == 0;
    assert s[0..] == s;
  }

  // ---- with drift rules ----

  /** `p` is restored to `o` by the drift pass alone. */
  ghost predicate LateForm(v: View, p: string, o: string) {
    IsToken(p) && p !in v.originals && Drift(v.rules, v.originals)(p) == Some(o)
  }

  /** Every original can be restored late. */
  ghost predicate Forms(v: View) {
    forall k :: k in v.originals ==> exists p :: LateForm(v, p, v.originals[k])
  }

  /** `a p b` is restored to `a o b`, which is not scanned again. */
  lemma RestoresLate(v: View, a: string, p: string, o: string, b: string)
    requires v.Wf() && LateForm(v, p, o)
    requires a != "" && a[0] == '<' && AngleFree(a[1..]) && '<' !in b
    ensures OneShot(v, a + p + b) == a + o + b
  {
    hide TokenLen, IsToken, Rewrite, AngleFree, Drift;
    var f, g, x := Lookup(v.originals), Drift(v.rules, v.originals), a[1..];
    ReplaceIsRewrite(v, a + p + b);
    HeadTail(a);
    NoAngle(x);
    TokenOpens(p);
    PlainThenToken(g, x, p, b);
    RewriteAngleFree(f, x, p + b);
    RewriteUnrecognisedToken(f, p, b);
    RewriteAngleFree(f, b, "");
    RewriteEmpty(f);
    assert b + "" == b;
    assert a + p + b == "<" + x + (p + b);
    assert ("<" + x + (p + b))[1..] == x + (p + b);
    assert p != "" && (p + b)[0] == '<';
    NoTokenBeforeOpen(x, p + b);
    RewriteStep(f, "<" + x + (p + b));
    RewriteStep(g, "<" + x + (p + b));
    assert "<" + (x + (p + b)) == a + p + b && "<" + (x + (o + b)) == a + o + b;
  }

  lemma TokenOpens(p: string)
    requires IsToken(p)
    ensures p != "" && p[0] == '<'
  {
  }

  /** An original that is part of a recognised form is rescanned when a stream cuts after it. */
  lemma LateBreaks(v: View, p: string, o: string, q: string)
    requires Bare(v) && LateForm(v, p, o) && AngleFree(o)
    requires Recognises(v.Whole(), q) && |q| <= v.Reach() && Occurs(o, q)
    ensures !StreamsAsOneShot(v)
  {
    hide OneShot, Occurs, IsToken, AngleFree, Stream, View.Whole, LateForm;
    var a, b := NestedToken(q, o);
    var first := a + p + b;
    NoAngle(b);
    RestoresLate(v, a, p, o, b);
    Reassociate(a + p, b, ">");
    RestoresLate(v, a, p, o, b + ">");
    Reassociate(a + o, b, ">");
    OneShotToken(v, q);
    NoAngle(v.Whole()(q).value);
    assert q[0] == '<' && '<' in q;
    assert [first][1..] == [] && Join([]) == "" && first + "" == first;
    HeldThenFlushed(v, first, a + o + b, ">");
    assert Stream(v, Feed([first], ">")).0 != OneShot(v, Join([first]) + ">");
  }

  /**
   With drift rules, chunk independence holds for all texts and fragmentations if and only if no
   original is part of a recognised form and every form is within reach.
   */
  lemma StreamsExactlyWhenInert(v: View)
    requires Bare(v) && Forms(v)
    ensures StreamsAsOneShot(v) <==> InertIn(v.Whole(), v.Whole()) && Bounded(v.Whole(), v.Reach())
  {
    hide OneShot, Stream, Occurs, LateForm, View.Whole, AngleFree, IsToken;
    if !Bounded(v.Whole(), v.Reach()) {
      var w :| Recognises(v.Whole(), w) && |w| > v.Reach();
      OverlongBreaks(v, w);
    } else if InertIn(v.Whole(), v.Whole()) {
      forall chunks: seq<string>, last: string
        ensures Stream(v, Feed(chunks, last)) == (OneShot(v, Join(chunks) + last), "")
      {
        ChunkIndependence(v, chunks, last);
      }
    } else {
      var w :| Recognises(v.Whole(), w) &&
        !(AngleFree(v.Whole()(w).value) && forall u :: Recognises(v.Whole(), u) ==> !Occurs(v.Whole()(w).value, u));
      var k := RestoredIsOriginal(v, w);
      var p :| LateForm(v, p, v.originals[k]);
      var q :| Recognises(v.Whole(), q) && Occurs(v.originals[k], q);
      LateBreaks(v, p, v.originals[k], q);
    }
  }

  // ---- without drift rules ----

  /**
   Without drift rules, chunk independence holds for all texts and fragmentations if and only if no
   original is part of a placeholder and every placeholder is within reach.
   */
  lemma StreamsExactlyWhenApart(v: View)
    requires ExactOnly(v)
    ensures StreamsAsOneShot(v) <==> OriginalsApart(v) && Reachable(v)
  {
    hide OneShot, Stream, Occurs, AngleFree, IsToken, View.Whole;
    if !Reachable(v) {
      var w :| w in v.originals && |w| > v.Reach();
      WholeIsLookup(v, w);
      OverlongBreaks(v, w);
    } else if OriginalsApart(v) {
      ApartIsStreamable(v);
      forall chunks: seq<string>, last: string
        ensures Stream(v, Feed(chunks, last)) == (OneShot(v, Join(chunks) + last), "")
      {
        ChunkIndependence(v, chunks, last);
      }
    } else {
      var p, q :| p in v.originals && q in v.originals && Occurs(v.originals[p], q);
      NestedBreaks(v, p, q);
    }
  }
}
