/**
 Placeholders have the shape `<body>` with no angle bracket in the body.  This module is the
 theory of rewriting such tokens in a text: where they stand, what one pass over a text does,
 and how passes compose.  The demasker's two passes are both instances of it.
 */
module AngleRewrite {
  import opened Text

  /** Says what a token is replaced by, or None to leave it alone. */
  type Recognizer = string -> Option<string>

  predicate AngleFree(s: string) {
    '<' !in s && '>' !in s
  }

  /** Length of the longest angle-free prefix. */
  function BodyLen(t: string): (n: nat)
    ensures n <= |t| && AngleFree(t[..n])
    ensures n < |t| ==> t[n] == '<' || t[n] == '>'
  {
    if t == "" || t[0] == '<' || t[0] == '>' then 0 else
      var n := 1 + BodyLen(t[1..]);
      assert t[..n] == [t[0]] + t[1..][..n - 1];
      n
  }

  /** Length of the token `<body>` that starts at the head of `t`, or 0 when none does. */
  function TokenLen(t: string): (n: nat)
    ensures n <= |t|
    ensures n > 0 ==> IsToken(t[..n])
  {
    if t == "" || t[0] != '<' then 0 else
      var k := BodyLen(t[1..]);
      if k + 1 < |t| && t[k + 1] == '>' then
        assert t[..k + 2][1..k + 1] == t[1..][..k];
        k + 2
      else 0
  }

  predicate IsToken(w: string) {
    |w| >= 2 && w[0] == '<' && w[|w| - 1] == '>' && AngleFree(w[1..|w| - 1])
  }

  /** One pass from left to right: recognised tokens are replaced, all else is copied. */
  function Rewrite(f: Recognizer, t: string): string
    decreases |t|
  {
    if t == "" then "" else
      var n := HeadLen(f, t);
      if n > 0 then f(t[..n]).value + Rewrite(f, t[n..])
      else [t[0]] + Rewrite(f, t[1..])
  }

  /** Length of the recognised token at the head of `t`, or 0. */
  function HeadLen(f: Recognizer, t: string): (n: nat)
    ensures n <= |t|
    ensures n > 0 ==> IsToken(t[..n]) && f(t[..n]).Some?
  {
    var n := TokenLen(t);
    if n > 0 && f(t[..n]).Some? then n else 0
  }

  /** No recognised token stands anywhere in `t`. */
  predicate Clean(f: Recognizer, t: string)
    decreases |t|
  {
    t == "" || (HeadLen(f, t) == 0 && Clean(f, t[1..]))
  }

  // ---- where a token ends does not depend on what follows it ----

  lemma {:induction false} BodyLenAppend(a: string, b: string)
    ensures BodyLen(a + b) == if BodyLen(a) < |a| then BodyLen(a) else |a| + BodyLen(b)
  {
    if a == "" {
      assert a + b == b;
    } else if a[0] == '<' || a[0] == '>' {
      assert (a + b)[0] == a[0];
    } else {
      assert (a + b)[1..] == a[1..] + b;
      BodyLenAppend(a[1..], b);
    }
  }

  /** A token at the head is still there after appending, and a new one must cross the seam. */
  lemma TokenLenAppend(a: string, b: string)
    requires a != ""
    ensures TokenLen(a) > 0 ==> TokenLen(a + b) == TokenLen(a)
    ensures TokenLen(a) == 0 && TokenLen(a + b) > 0 ==> TokenLen(a + b) > |a| && AngleFree(a[1..])
  {
    assert (a + b)[1..] == a[1..] + b;
    BodyLenAppend(a[1..], b);
    var k := BodyLen(a[1..]);
    if k == |a| - 1 { assert a[1..][..k] == a[1..]; }
  }

  lemma HeadLenAppend(f: Recognizer, a: string, b: string)
    requires a != ""
    ensures HeadLen(f, a) > 0 ==> HeadLen(f, a + b) == HeadLen(f, a)
    ensures HeadLen(f, a) == 0 && HeadLen(f, a + b) > 0 ==> HeadLen(f, a + b) > |a| && AngleFree(a[1..])
  {
    TokenLenAppend(a, b);
    var n := TokenLen(a);
    assert (a + b)[..n] == a[..n];
  }

  /** The token is the same in every text that starts with it. */
  lemma TokenLenOf(w: string, rest: string)
    requires IsToken(w)
    ensures TokenLen(w + rest) == |w|
  {
    var body := w[1..|w| - 1];
    assert w[1..] + rest == body + ([w[|w| - 1]] + rest);
    assert (w + rest)[1..] == w[1..] + rest;
    BodyLenAppend(body, [w[|w| - 1]] + rest);
    BodyLenAll(body);
    assert ([w[|w| - 1]] + rest)[0] == '>';
  }

  lemma {:induction false} BodyLenAll(s: string)
    requires AngleFree(s)
    ensures BodyLen(s) == |s|
  {
    if s != "" {
      assert s[0] in s;
      BodyLenAll(s[1..]);
    }
  }

  // ---- one pass ----

  lemma {:induction false} RewriteAngleFree(f: Recognizer, o: string, t: string)
    requires '<' !in o
    ensures Rewrite(f, o + t) == o + Rewrite(f, t)
  {
    if o == "" {
      assert o + t == t;
    } else {
      assert o[0] in o;
      assert (o + t)[0] == o[0] && (o + t)[1..] == o[1..] + t;
      assert TokenLen(o + t) == 0;
      RewriteAngleFree(f, o[1..], t);
    }
  }

  lemma RewriteToken(f: Recognizer, w: string, t: string)
    requires IsToken(w) && f(w).Some?
    ensures Rewrite(f, w + t) == f(w).value + Rewrite(f, t)
  {
    TokenLenOf(w, t);
    assert (w + t)[..|w|] == w && (w + t)[|w|..] == t;
  }

  lemma {:induction false} RewriteClean(f: Recognizer, t: string)
    requires Clean(f, t)
    ensures Rewrite(f, t) == t
    decreases |t|
  {
    if t != "" {
      RewriteClean(f, t[1..]);
    }
  }

  lemma {:induction false} CleanDrop(f: Recognizer, t: string, i: nat)
    requires Clean(f, t) && i <= |t|
    ensures Clean(f, t[i..])
    decreases i
  {
    if i == 0 {
      assert t[0..] == t;
    } else {
      CleanDrop(f, t[1..], i - 1);
      DropDrop(t, 1, i - 1);
    }
  }

  lemma RewriteUnrecognisedToken(f: Recognizer, w: string, t: string)
    requires IsToken(w) && f(w).None?
    ensures Rewrite(f, w + t) == w + Rewrite(f, t)
  {
    hide BodyLen, TokenLen, Rewrite;
    TokenLenOf(w, t);
    assert (w + t)[..|w|] == w;
    RewriteStep(f, w + t);
    assert (w + t)[1..] == w[1..] + t;
    assert w[1..] == w[1..|w| - 1] + ">";
    RewriteAngleFree(f, w[1..], t);
    Reassociate([w[0]], w[1..], Rewrite(f, t));
  }

  // ---- restored values that cannot take part in another token ----

  /** `f` recognises the token `w`. */
  predicate Recognises(f: Recognizer, w: string) {
    IsToken(w) && f(w).Some?
  }

  /**
   No value `f` puts into the text holds an angle bracket or can be part of a token that `h`
   recognises, so a later pass of `h` never touches what `f` restored.
   */
  ghost predicate InertIn(f: Recognizer, h: Recognizer) {
    forall w :: Recognises(f, w) ==>
      AngleFree(f(w).value) && forall v :: Recognises(h, v) ==> !Occurs(f(w).value, v)
  }

  /** Rewriting what follows a `<` cannot make the `<` the start of a recognised token. */
  lemma HeadStaysUnrecognised(f: Recognizer, h: Recognizer, t: string, z: string)
    requires InertIn(f, h)
    requires HeadLen(h, "<" + t + z) == 0
    ensures HeadLen(h, "<" + Rewrite(f, t) + z) == 0
  {
    var b, r := t[..BodyLen(t)], t[BodyLen(t)..];
    assert t == b + r;
    RewriteAngleFree(f, b, r);
    if r == "" {
      assert Rewrite(f, r) == "";
      assert Rewrite(f, t) == t;
    } else if r[0] == '>' {
      CloseStaysUnrecognised(f, h, b, r, z);
    } else {
      OpenStaysUnrecognised(f, h, b, r, z);
    }
  }

  lemma Regroup(b: string, s: string, z: string)
    ensures "<" + (b + s) + z == "<" + b + (s + z)
  {
  }

  lemma RegroupClose(b: string, s: string, z: string)
    ensures "<" + (b + (">" + s)) + z == ("<" + b + ">") + (s + z)
  {
  }

  lemma CloseStaysUnrecognised(f: Recognizer, h: Recognizer, b: string, r: string, z: string)
    requires AngleFree(b) && r != "" && r[0] == '>'
    requires HeadLen(h, "<" + (b + r) + z) == 0
    ensures HeadLen(h, "<" + (b + Rewrite(f, r)) + z) == 0
  {
    var w, s, s' := "<" + b + ">", r[1..], Rewrite(f, r[1..]);
    assert w[1..|w| - 1] == b;
    assert r == ">" + s;
    assert Rewrite(f, r) == ">" + s';
    RegroupClose(b, s, z);
    RegroupClose(b, s', z);
    SameHead(h, w, s + z, s' + z);
  }

  lemma OpenStaysUnrecognised(f: Recognizer, h: Recognizer, b: string, r: string, z: string)
    requires InertIn(f, h) && AngleFree(b) && r != "" && r[0] == '<'
    ensures HeadLen(h, "<" + (b + Rewrite(f, r)) + z) == 0
  {
    var n := HeadLen(f, r);
    Regroup(b, Rewrite(f, r), z);
    if n == 0 {
      RewriteStep(f, r);
      NoTokenBeforeOpen(b, Rewrite(f, r) + z);
    } else {
      assert Recognises(f, r[..n]);
      RewriteHead(f, r);
      var o, s := f(r[..n]).value, Rewrite(f, r[n..]);
      RestoredBodyUnrecognised(h, b, o, s + z);
      Reassociate(o, s, z);
    }
  }

  lemma RewriteHead(f: Recognizer, t: string)
    requires t != "" && HeadLen(f, t) > 0
    ensures Rewrite(f, t) == f(t[..HeadLen(f, t)]).value + Rewrite(f, t[HeadLen(f, t)..])
  {
  }

  lemma RestoredBodyUnrecognised(h: Recognizer, b: string, o: string, s: string)
    requires AngleFree(b) && AngleFree(o)
    requires forall v :: Recognises(h, v) ==> !Occurs(o, v)
    ensures HeadLen(h, "<" + b + (o + s)) == 0
  {
    var t := "<" + b + (o + s);
    TokenHoldsPrefix(b, o, s);
    assert HeadLen(h, t) > 0 ==> Recognises(h, t[..HeadLen(h, t)]);
  }

  lemma SameHead(h: Recognizer, w: string, s: string, t: string)
    requires IsToken(w)
    ensures HeadLen(h, w + s) == HeadLen(h, w + t)
  {
    TokenLenOf(w, s);
    TokenLenOf(w, t);
    assert (w + s)[..|w|] == w && (w + t)[..|w|] == w;
  }

  lemma NoTokenBeforeOpen(b: string, s: string)
    requires AngleFree(b) && s != "" && s[0] == '<'
    ensures TokenLen("<" + b + s) == 0
  {
    assert ("<" + b + s)[1..] == b + s;
    BodyLenAll(b);
    BodyLenAppend(b, s);
  }

  /** A token that starts before an angle-free part and does not end before it contains it. */
  lemma TokenHoldsPrefix(b: string, o: string, s: string)
    requires AngleFree(b) && AngleFree(o)
    ensures var t := "<" + b + (o + s);
            TokenLen(t) > 0 ==> Occurs(o, t[..TokenLen(t)])
  {
    var t := "<" + b + (o + s);
    assert t[1..] == (b + o) + s;
    BodyLenAll(b + o);
    BodyLenAppend(b + o, s);
    var n := TokenLen(t);
    if n > 0 {
      PartOfPrefix("<" + b, o, s, n);
      assert ("<" + b) + o + s == t;
    }
  }

  lemma PartOfPrefix(a: string, o: string, s: string, n: nat)
    requires |a| + |o| <= n <= |a + o + s|
    ensures Occurs(o, (a + o + s)[..n])
  {
    assert OccursAt(o, (a + o + s)[..n], |a|);
  }

  // ---- composing passes ----

  function Either(f: Recognizer, g: Recognizer): Recognizer {
    w => if f(w).Some? then f(w) else g(w)
  }

  /** A pass of `f` followed by a pass of `g` is one pass that prefers `f`. */
  lemma {:induction false} TwoPasses(f: Recognizer, g: Recognizer, t: string)
    requires InertIn(f, Either(f, g))
    ensures Rewrite(g, Rewrite(f, t)) == Rewrite(Either(f, g), t)
    decreases |t|
  {
    var h := Either(f, g);
    var n := HeadLen(h, t);
    if t == "" {
    } else if n > 0 {
      var w, rest := t[..n], t[n..];
      assert t == w + rest;
      TwoPasses(f, g, rest);
      if f(w).Some? {
        assert Recognises(f, w);
        RewriteAngleFree(g, f(w).value, Rewrite(f, rest));
      } else {
        RewriteUnrecognisedToken(f, w, rest);
        RewriteToken(g, w, Rewrite(f, rest));
      }
    } else {
      TwoPasses(f, g, t[1..]);
      assert HeadLen(g, [t[0]] + Rewrite(f, t[1..])) == 0 by {
        if t[0] == '<' {
          assert "<" + t[1..] + "" == t;
          HeadStaysUnrecognised(f, h, t[1..], "");
          assert "<" + Rewrite(f, t[1..]) + "" == [t[0]] + Rewrite(f, t[1..]);
        }
      }
      assert ([t[0]] + Rewrite(f, t[1..]))[1..] == Rewrite(f, t[1..]);
    }
  }

  /** Text already rewritten may be rewritten again together with what follows it. */
  lemma {:induction false} Absorb(f: Recognizer, y: string, z: string)
    requires InertIn(f, f)
    ensures Rewrite(f, Rewrite(f, y) + z) == Rewrite(f, y + z)
    decreases |y|
  {
    var n := if y == "" then 0 else HeadLen(f, y);
    if y == "" {
      assert Rewrite(f, y) + z == y + z;
    } else if n > 0 {
      var w, rest := y[..n], y[n..];
      assert y + z == w + (rest + z);
      assert Recognises(f, w);
      assert Rewrite(f, y) + z == f(w).value + (Rewrite(f, rest) + z);
      RewriteAngleFree(f, f(w).value, Rewrite(f, rest) + z);
      RewriteToken(f, w, rest + z);
      Absorb(f, rest, z);
    } else {
      AbsorbStep(f, y, z);
    }
  }

  lemma AbsorbStep(f: Recognizer, y: string, z: string)
    requires InertIn(f, f) && y != "" && HeadLen(f, y) == 0
    ensures Rewrite(f, Rewrite(f, y) + z) == Rewrite(f, y + z)
    decreases |y|, 0
  {
    hide InertIn, Rewrite, TokenLen;
    HeadLenAppend(f, y, z);
    if HeadLen(f, y + z) > 0 {
      OpenTextKept(f, y);
    } else {
      var y' := Rewrite(f, y[1..]);
      RewriteStep(f, y);
      var u := [y[0]] + (y' + z);
      Reassociate([y[0]], y', z);
      HeadStaysAt(f, f, y, z);
      RewriteStep(f, u);
      RewriteStep(f, y + z);
      assert u[1..] == y' + z && (y + z)[1..] == y[1..] + z && (y + z)[0] == y[0];
      Absorb(f, y[1..], z);
    }
  }

  /** An open bracket and bracket-free text behind it are copied. */
  lemma OpenTextKept(f: Recognizer, y: string)
    requires y != "" && HeadLen(f, y) == 0 && AngleFree(y[1..])
    ensures Rewrite(f, y) == y
  {
    hide TokenLen, HeadLen;
    RewriteStep(f, y);
    RewriteAngleFree(f, y[1..], "");
    assert y[1..] + "" == y[1..] && y == [y[0]] + y[1..];
    assert Rewrite(f, "") == "";
  }

  /** A pass over what follows the first character makes it the start of no token of `h`. */
  lemma HeadStaysAt(f: Recognizer, h: Recognizer, y: string, z: string)
    requires InertIn(f, h) && y != "" && HeadLen(h, y + z) == 0
    ensures HeadLen(h, [y[0]] + (Rewrite(f, y[1..]) + z)) == 0
  {
    hide InertIn, Rewrite;
    var r := Rewrite(f, y[1..]);
    if y[0] == '<' {
      assert "<" + y[1..] + z == y + z;
      HeadStaysUnrecognised(f, h, y[1..], z);
      assert "<" + r + z == [y[0]] + (r + z);
    }
  }

  /** After a pass nothing recognisable is left. */
  lemma {:induction false} RewriteIsClean(f: Recognizer, t: string)
    requires InertIn(f, f)
    ensures Clean(f, Rewrite(f, t))
    decreases |t|
  {
    var n := if t == "" then 0 else HeadLen(f, t);
    if t == "" {
    } else if n > 0 {
      assert Recognises(f, t[..n]);
      RewriteIsClean(f, t[n..]);
      CleanAngleFree(f, f(t[..n]).value, Rewrite(f, t[n..]));
    } else {
      RewriteIsClean(f, t[1..]);
      var u := [t[0]] + Rewrite(f, t[1..]);
      assert u[1..] == Rewrite(f, t[1..]);
      if t[0] == '<' {
        assert "<" + t[1..] + "" == t;
        HeadStaysUnrecognised(f, f, t[1..], "");
        assert "<" + Rewrite(f, t[1..]) + "" == u;
      }
    }
  }

  lemma {:induction false} CleanAngleFree(f: Recognizer, o: string, t: string)
    requires '<' !in o && Clean(f, t)
    ensures Clean(f, o + t)
  {
    if o == "" {
      assert o + t == t;
    } else {
      assert o[0] in o;
      assert (o + t)[1..] == o[1..] + t;
      CleanAngleFree(f, o[1..], t);
    }
  }

  /** Every recognised token has at most `m` bytes. */
  ghost predicate Bounded(f: Recognizer, m: int) {
    forall w :: Recognises(f, w) ==> |w| <= m
  }

  /** A clean prefix may be cut off wherever all but one byte of the longest token stays behind. */
  lemma {:induction false} CutSafePrefix(f: Recognizer, m: int, t: string, cut: nat, z: string)
    requires Bounded(f, m) && Clean(f, t)
    requires cut <= |t| && |t| - cut >= m - 1
    ensures Rewrite(f, t + z) == t[..cut] + Rewrite(f, t[cut..] + z)
    decreases cut
  {
    hide HeadLen, Rewrite;
    if cut == 0 {
      assert t[cut..] == t;
    } else {
      NoTokenAtClean(f, m, t, z);
      RewriteStep(f, t + z);
      var c, s := t[0], t[1..];
      assert (t + z)[0] == c && (t + z)[1..] == s + z;
      CutSafePrefix(f, m, s, cut - 1, z);
      assert s[cut - 1..] == t[cut..];
      assert t[..cut] == [c] + s[..cut - 1];
      Reassociate([c], s[..cut - 1], Rewrite(f, t[cut..] + z));
    }
  }

  lemma RewriteStep(f: Recognizer, t: string)
    requires t != "" && HeadLen(f, t) == 0
    ensures Rewrite(f, t) == [t[0]] + Rewrite(f, t[1..])
  {
  }

  lemma NoTokenAtClean(f: Recognizer, m: int, t: string, z: string)
    requires Bounded(f, m) && Clean(f, t) && t != "" && |t| >= m
    ensures HeadLen(f, t + z) == 0
  {
    HeadLenAppend(f, t, z);
    assert HeadLen(f, t + z) > 0 ==> Recognises(f, (t + z)[..HeadLen(f, t + z)]);
  }
}
