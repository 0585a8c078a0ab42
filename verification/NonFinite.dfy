/**
 Non-finite number literals rewritten as JSON numbers of the same length, in place, so that a strict
 validator can judge the rest of the document.
 */
module NonFinite {
  import opened Text

  predicate Space(c: char) {
    c == ' ' || c == '\t' || c == '\n' || c == '\r'
  }

  /** Only after these bytes does a value begin inside a container. */
  predicate BeforeValue(c: char) {
    c == ':' || c == ',' || c == '['
  }

  /** `s` ends here, or goes on with a byte that ends a token. */
  predicate EndsToken(s: string) {
    s == "" || Space(s[0]) || s[0] == ',' || s[0] == ']' || s[0] == '}'
  }

  /** The number that replaces the literal `s` begins with, or "". */
  function Number(s: string): (n: string)
    ensures |n| <= |s|
  {
    if "NaN" <= s && EndsToken(s[3..]) then "0e0"
    else if "Infinity" <= s && EndsToken(s[8..]) then "0e000000"
    else if "-Infinity" <= s && EndsToken(s[9..]) then "-0e000000"
    else ""
  }

  /** Where the scan stands: inside a string, after a backslash, and the last byte outside strings. */
  datatype State = State(inString: bool, escaped: bool, prev: char)

  const START := State(false, false, 0 as char)

  function Next(st: State, c: char): State {
    if st.inString then
      if st.escaped then st.(escaped := false)
      else if c == '\\' then st.(escaped := true)
      else if c == '"' then State(false, false, c)
      else st
    else if c == '"' then st.(inString := true)
    else if Space(c) then st
    else st.(prev := c)
  }

  /** A literal stands here, in value position. */
  predicate LiteralHere(st: State, s: string) {
    !st.inString && s != "" && s[0] != '"' && !Space(s[0]) && BeforeValue(st.prev) && Number(s) != ""
  }

  function Rewritten(st: State, s: string): (r: string)
    ensures |r| == |s|
    decreases |s|
  {
    if s == "" then ""
    else if LiteralHere(st, s) then Number(s) + Rewritten(st.(prev := '0'), s[|Number(s)|..])
    else [s[0]] + Rewritten(Next(st, s[0]), s[1..])
  }

  method NonFiniteAsNumbers(a: array<char>)
    modifies a
    ensures a[..] == Rewritten(START, old(a[..]))
  {
    hide *;
    ghost var was := a[..];
    ghost var done := "";
    var i := 0;
    var st := START;
    assert was[0..] == was && "" + was == was && "" + Rewritten(st, was) == Rewritten(st, was);
    while i < a.Length
      invariant 0 <= i <= a.Length && |done| == i && |was| == a.Length
      invariant a[..] == done + was[i..]
      invariant done + Rewritten(st, was[i..]) == Rewritten(START, was)
    {
      Step(st, was, i);
      Halves(a[..], done, was[i..]);
      var rest := a[i..];
      var here := LiteralHere(st, rest);
      var number := if here then Number(rest) else [a[i]];
      DropDrop(was, i, |number|);
      Untouched(a[..], done, was, i);
      if here {
        Overwrite(a, i, number);
      }
      ghost var next := if here then st.(prev := '0') else Next(st, was[i]);
      Reassociate(done, number, Rewritten(next, was[i + |number|..]));
      done := done + number;
      st := if here then st.(prev := '0') else Next(st, number[0]);
      i := i + |number|;
    }
    NothingLeft(st);
    assert was[i..] == "" && done + "" == done;
  }

  lemma Untouched(all: string, done: string, was: string, i: nat)
    requires i < |was| && all == done + was[i..]
    ensures all == done + [was[i]] + was[i + 1..]
  {
  }

  lemma Halves(all: string, a: string, b: string)
    requires all == a + b
    ensures all[..|a|] == a && all[|a|..] == b
    ensures b != "" ==> all[|a|] == b[0]
  {
  }

  lemma Step(st: State, s: string, i: nat)
    requires i < |s|
    ensures var n := Number(s[i..]);
            Rewritten(st, s[i..]) == if LiteralHere(st, s[i..]) then n + Rewritten(st.(prev := '0'), s[i + |n|..])
                                     else [s[i]] + Rewritten(Next(st, s[i]), s[i + 1..])
    ensures LiteralHere(st, s[i..]) ==> Number(s[i..]) != ""
    ensures s[i..][0] == s[i]
  {
    DropDrop(s, i, |Number(s[i..])|);
    DropDrop(s, i, 1);
  }

  lemma NothingLeft(st: State)
    ensures Rewritten(st, "") == ""
  {
  }

  method Overwrite(a: array<char>, i: nat, text: string)
    requires i + |text| <= a.Length
    modifies a
    ensures a[..] == old(a[..i]) + text + old(a[i + |text|..])
  {
    for k := 0 to |text|
      invariant a[i..i + k] == text[..k]
      invariant a[..i] == old(a[..i]) && a[i + |text|..] == old(a[i + |text|..])
    {
      a[i + k] := text[k];
    }
    assert a[..] == a[..i] + a[i..i + |text|] + a[i + |text|..];
  }

  // ---- what is replaced, and by what ----

  predicate Digits(s: string) {
    s != "" && forall i :: 0 <= i < |s| ==> '0' <= s[i] <= '9'
  }

  /** A number (section 6 of RFC 8259): sign, integer part, fraction, exponent. */
  ghost predicate JsonNumber(s: string) {
    exists minus: string, whole: string, frac: string, exp: string :: s == minus + whole + frac + exp
      && (minus == "" || minus == "-")
      && Digits(whole) && (whole[0] == '0' ==> |whole| == 1)
      && (frac == "" || (frac[0] == '.' && Digits(frac[1..])))
      && (exp == "" || ((exp[0] == 'e' || exp[0] == 'E')
                        && (Digits(exp[1..]) || (|exp| > 1 && (exp[1] == '+' || exp[1] == '-') && Digits(exp[2..])))))
  }

  lemma NumberIsJson(s: string)
    requires Number(s) != ""
    ensures JsonNumber(Number(s))
  {
    var n := Number(s);
    if n == "0e0" {
      assert n == "" + "0" + "" + "e0";
    } else if n == "0e000000" {
      assert n == "" + "0" + "" + "e000000";
    } else {
      assert n == "-" + "0" + "" + "e000000";
    }
  }

  /** The state after some bytes of the document as it was. */
  function After(st: State, s: string): State
    decreases |s|
  {
    if s == "" then st else After(Next(st, s[0]), s[1..])
  }

  /** At `p`, where a value begins, stands a whole non-finite literal. */
  predicate LiteralAt(st: State, s: string, p: nat, lit: string) {
    && p <= |s| && (lit == "NaN" || lit == "Infinity" || lit == "-Infinity")
    && !After(st, s[..p]).inString && BeforeValue(After(st, s[..p]).prev)
    && lit <= s[p..] && EndsToken(s[p + |lit|..])
  }

  /** States that differ at most in which byte that starts no value came last. */
  predicate Like(a: State, b: State) {
    a == b || (a.(prev := b.prev) == b && !BeforeValue(a.prev) && !BeforeValue(b.prev))
  }

  lemma {:induction false} LikeRuns(a: State, b: State, s: string)
    requires Like(a, b)
    ensures Like(After(a, s), After(b, s))
    decreases |s|
  {
    if s != "" { LikeRuns(Next(a, s[0]), Next(b, s[0]), s[1..]); }
  }

  /** Bytes that are neither quotes nor spaces nor start a value leave no value to begin after them. */
  lemma {:induction false} InsideLiteral(st: State, s: string)
    requires !st.inString && s != "" && forall i :: 0 <= i < |s| ==> LiteralByte(s[i])
    ensures Like(After(st, s), st.(prev := '0')) && !BeforeValue(After(st, s).prev)
    decreases |s|
  {
    assert LiteralByte(s[0]);
    if |s| > 1 {
      InsideLiteral(Next(st, s[0]), s[1..]);
    } else {
      assert s[1..] == "";
    }
  }

  lemma LiteralOf(s: string) returns (lit: string)
    requires Number(s) != ""
    ensures (lit == "NaN" || lit == "Infinity" || lit == "-Infinity") && lit <= s && EndsToken(s[|lit|..])
    ensures |lit| == |Number(s)| && forall i :: 0 <= i < |lit| ==> LiteralByte(s[i])
  {
    lit := if "NaN" <= s then "NaN" else if "Infinity" <= s then "Infinity" else "-Infinity";
    assert forall i :: 0 <= i < |lit| ==> lit[i] == s[i];
  }

  lemma AfterSplit(st: State, s: string, i: nat, p: nat)
    requires i <= p <= |s|
    ensures After(st, s[..p]) == After(After(st, s[..i]), s[i..][..p - i])
  {
    AfterAppend(st, s[..i], s[i..][..p - i]);
    assert s[..p] == s[..i] + s[i..][..p - i];
  }

  lemma {:induction false} AfterAppend(st: State, a: string, b: string)
    ensures After(st, a + b) == After(After(st, a), b)
    decreases |a|
  {
    if a == "" {
      assert a + b == b;
    } else {
      assert (a + b)[1..] == a[1..] + b;
      AfterAppend(Next(st, a[0]), a[1..], b);
    }
  }

  lemma OneAfter(st: State, s: string)
    requires s != ""
    ensures After(st, s[..1]) == Next(st, s[0])
  {
    assert s[..1][1..] == "";
  }

  /** Past a literal the scan goes on as if it had read the number. */
  lemma PastLiteral(st: State, s: string, p: nat)
    requires LiteralHere(st, s) && 0 < p <= |s|
    ensures p < |Number(s)| ==> !BeforeValue(After(st, s[..p]).prev)
    ensures p >= |Number(s)| ==> Like(After(st, s[..p]), After(st.(prev := '0'), s[|Number(s)|..][..p - |Number(s)|]))
  {
    var n := |Number(s)|;
    var lit := LiteralOf(s);
    if p < n {
      InsideLiteral(st, s[..p]);
    } else {
      InsideLiteral(st, s[..n]);
      AfterSplit(st, s, n, p);
      LikeRuns(After(st, s[..n]), st.(prev := '0'), s[n..][..p - n]);
    }
  }

  /** Every non-finite literal where a value begins is replaced by a JSON number. */
  lemma {:induction false} LiteralsReplaced(st: State, s: string, p: nat, lit: string)
    requires LiteralAt(st, s, p, lit)
    ensures p + |lit| <= |s| && JsonNumber(Rewritten(st, s)[p..p + |lit|])
    decreases |s|
  {
    hide Number, JsonNumber;
    LiteralSize(s, p, lit);
    if p == 0 {
      HereIsLiteral(st, s, lit);
      NumberIsJson(s);
      assert Rewritten(st, s)[0..|lit|] == Number(s);
    } else {
      var n := if LiteralHere(st, s) then |Number(s)| else 1;
      var next := if LiteralHere(st, s) then st.(prev := '0') else Next(st, s[0]);
      LaterLiteral(st, s, p, lit);
      LiteralsReplaced(next, s[n..], p - n, lit);
      LaterPart(st, s, n, p, |lit|);
    }
  }

  lemma LaterLiteral(st: State, s: string, p: nat, lit: string)
    requires LiteralAt(st, s, p, lit) && 0 < p && p + |lit| <= |s|
    ensures var n := if LiteralHere(st, s) then |Number(s)| else 1;
            var next := if LiteralHere(st, s) then st.(prev := '0') else Next(st, s[0]);
            p >= n && LiteralAt(next, s[n..], p - n, lit)
  {
    hide Number, After, EndsToken, Next;
    var n := if LiteralHere(st, s) then |Number(s)| else 1;
    if LiteralHere(st, s) { PastLiteral(st, s, p); }
    StateBefore(st, s, p);
    DropDrop(s, n, p - n);
    DropDrop(s, n, p - n + |lit|);
  }

  lemma LiteralSize(s: string, p: nat, lit: string)
    requires p <= |s| && lit <= s[p..]
    ensures p + |lit| <= |s|
  {
  }

  lemma HereIsLiteral(st: State, s: string, lit: string)
    requires LiteralAt(st, s, 0, lit)
    ensures LiteralHere(st, s) && |Number(s)| == |lit|
  {
    assert s[..0] == "" && s[0..] == s;
    if lit == "NaN" {
      assert s[0] == 'N';
    } else if lit == "Infinity" {
      assert s[0] == 'I';
    } else {
      assert s[0] == '-';
    }
  }

  lemma LaterPart(st: State, s: string, n: nat, p: nat, m: nat)
    requires s != "" && n <= p && p + m <= |s| && n == if LiteralHere(st, s) then |Number(s)| else 1
    ensures var next := if LiteralHere(st, s) then st.(prev := '0') else Next(st, s[0]);
            Rewritten(st, s)[p..p + m] == Rewritten(next, s[n..])[p - n..p - n + m]
  {
    hide Number, LiteralHere, Next;
    var next := if LiteralHere(st, s) then st.(prev := '0') else Next(st, s[0]);
    SliceBehind(if LiteralHere(st, s) then Number(s) else [s[0]], Rewritten(next, s[n..]), p, m);
  }

  lemma SliceBehind(a: string, b: string, p: nat, m: nat)
    requires |a| <= p && p + m <= |a| + |b|
    ensures (a + b)[p..p + m] == b[p - |a|..p - |a| + m]
  {
  }

  /** And nothing else changes: a changed byte belongs to such a literal. */
  lemma {:induction false} OnlyLiteralsReplaced(st: State, s: string, k: nat) returns (p: nat, lit: string)
    requires k < |s| && Rewritten(st, s)[k] != s[k]
    ensures p <= k < p + |lit| && LiteralAt(st, s, p, lit)
    decreases |s|
  {
    hide Number;
    var n := if LiteralHere(st, s) then |Number(s)| else 1;
    if k < n {
      p := 0;
      lit := LiteralOf(s);
      assert s[..0] == "" && s[0..] == s;
    } else {
      var next := if LiteralHere(st, s) then st.(prev := '0') else Next(st, s[0]);
      p, lit := OnlyLiteralsReplaced(next, s[n..], k - n);
      EarlierLiteral(st, s, p, lit);
      p := n + p;
    }
  }

  lemma EarlierLiteral(st: State, s: string, p: nat, lit: string)
    requires s != ""
    requires var n := if LiteralHere(st, s) then |Number(s)| else 1;
             LiteralAt(if LiteralHere(st, s) then st.(prev := '0') else Next(st, s[0]), s[n..], p, lit)
    ensures LiteralAt(st, s, (if LiteralHere(st, s) then |Number(s)| else 1) + p, lit)
  {
    hide Number, After, EndsToken, Next;
    var n := if LiteralHere(st, s) then |Number(s)| else 1;
    LiteralSize(s[n..], p, lit);
    StateBefore(st, s, n + p);
    DropDrop(s, n, p);
    DropDrop(s, n, p + |lit|);
  }

  lemma StateBefore(st: State, s: string, p: nat)
    requires s != "" && (if LiteralHere(st, s) then |Number(s)| else 1) <= p <= |s|
    ensures var n := if LiteralHere(st, s) then |Number(s)| else 1;
            Like(After(st, s[..p]), After(if LiteralHere(st, s) then st.(prev := '0') else Next(st, s[0]), s[n..][..p - n]))
  {
    hide Number, After, Next, Like;
    if LiteralHere(st, s) {
      PastLiteral(st, s, p);
    } else {
      OneAfter(st, s);
      AfterSplit(st, s, 1, p);
      SameIsLike(After(st, s[..p]));
    }
  }

  lemma SameIsLike(st: State)
    ensures Like(st, st)
  {
  }

  // ---- what is and is not touched ----

  predicate LiteralByte(c: char) {
    c in "NaInfity-"
  }

  /** Only bytes of literals change, and never inside a string: quotes, escapes and structure stay. */
  lemma {:induction false} OnlyLiteralBytesChange(st: State, s: string, k: nat)
    requires k < |s| && Rewritten(st, s)[k] != s[k]
    ensures LiteralByte(s[k])
    decreases |s|
  {
    if LiteralHere(st, s) {
      var n := |Number(s)|;
      if k >= n { OnlyLiteralBytesChange(st.(prev := '0'), s[n..], k - n); }
    } else if k > 0 {
      OnlyLiteralBytesChange(Next(st, s[0]), s[1..], k - 1);
    }
  }

  /** For each byte, whether it stands inside a string. */
  function Mask(st: State, s: string): (m: seq<bool>)
    ensures |m| == |s|
    decreases |s|
  {
    if s == "" then [] else [st.inString] + Mask(Next(st, s[0]), s[1..])
  }

  lemma {:induction false} MaskIgnoresPrev(st: State, prev: char, s: string)
    ensures Mask(st.(prev := prev), s) == Mask(st, s)
    decreases |s|
  {
    if s != "" {
      var n := Next(st, s[0]);
      assert Next(st.(prev := prev), s[0]) == n.(prev := Next(st.(prev := prev), s[0]).prev);
      MaskIgnoresPrev(n, Next(st.(prev := prev), s[0]).prev, s[1..]);
    }
  }

  /** Text without quotes, outside strings. */
  lemma {:induction false} MaskPlain(st: State, a: string, b: string)
    requires !st.inString && !st.escaped && '"' !in a
    ensures Mask(st, a + b) == seq(|a|, _ => false) + Mask(st, b)
    decreases |a|
  {
    if a == "" {
      assert a + b == b;
    } else {
      assert (a + b)[1..] == a[1..] + b;
      MaskPlain(Next(st, a[0]), a[1..], b);
      assert Next(st, a[0]) == st.(prev := Next(st, a[0]).prev);
      MaskIgnoresPrev(st, Next(st, a[0]).prev, b);
      assert seq(|a|, _ => false) == [false] + seq(|a| - 1, _ => false);
    }
  }

  lemma NumberPlain(s: string)
    ensures var n := Number(s); '"' !in n && '"' !in s[..|n|]
  {
    if "NaN" <= s { assert s[..3] == "NaN"; }
    if "Infinity" <= s { assert s[..8] == "Infinity"; }
    if "-Infinity" <= s { assert s[..9] == "-Infinity"; }
  }

  /** The rewritten document has its strings in the same places, byte for byte. */
  lemma {:induction false} StringsKept(st: State, s: string, k: nat)
    requires k < |s| && (st.escaped ==> st.inString)
    ensures Mask(st, Rewritten(st, s)) == Mask(st, s)
    ensures Mask(st, s)[k] ==> Rewritten(st, s)[k] == s[k]
    decreases |s|
  {
    if LiteralHere(st, s) {
      LiteralKept(st, s, k);
    } else if |s| > 1 {
      var next, rest := Next(st, s[0]), s[1..];
      StringsKept(next, rest, if k > 0 then k - 1 else 0);
      assert Rewritten(st, s)[1..] == Rewritten(next, rest);
    } else {
      assert s[1..] == "" && Rewritten(st, s) == [s[0]] + "";
    }
  }

  lemma LiteralKept(st: State, s: string, k: nat)
    requires k < |s| && (st.escaped ==> st.inString) && LiteralHere(st, s)
    ensures Mask(st, Rewritten(st, s)) == Mask(st, s)
    ensures Mask(st, s)[k] ==> Rewritten(st, s)[k] == s[k]
    decreases |s|, 0
  {
    hide Number;
    var n := Number(s);
    var st2, rest := st.(prev := '0'), s[|n|..];
    NumberPlain(s);
    assert s == s[..|n|] + rest;
    MaskPlain(st, s[..|n|], rest);
    MaskPlain(st, n, Rewritten(st2, rest));
    MaskIgnoresPrev(st, '0', rest);
    MaskIgnoresPrev(st, '0', Rewritten(st2, rest));
    if rest != "" {
      StringsKept(st2, rest, if k >= |n| then k - |n| else 0);
    } else {
      NothingLeft(st2);
    }
  }
}
