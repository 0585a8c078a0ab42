/** The bound on the byte length of a match, read off the syntax tree. */
module MatchLength {
  import opened Text
  import opened RegexTree

  /** Bytes of a rune in UTF-8 (RFC 3629 section 3). */
  function RuneBytes(c: char): (n: nat)
    ensures 1 <= n <= 4
  {
    var cp := c as int;
    if cp < 0x80 then 1 else if cp < 0x800 then 2 else if cp < 0x1_0000 then 3 else 4
  }

  function ByteLen(s: string): (n: nat)
    ensures n >= |s|
  {
    if s == "" then 0 else RuneBytes(s[0]) + ByteLen(s[1..])
  }

  /** The largest upper end of the class's ranges. */
  function ClassMax(ranges: seq<(char, char)>): char {
    if ranges == [] then 0 as char
    else
      var m := ClassMax(ranges[..|ranges| - 1]);
      if ranges[|ranges| - 1].1 > m then ranges[|ranges| - 1].1 else m
  }

  /** An upper bound on the bytes of a match; -1 when there is none to be seen. */
  function MaxLen(re: Regex): (n: int)
    ensures n >= -1
    decreases re, 0
  {
    match re
    case EmptyMatch => 0
    case Assertion => 0
    case Literal(runes, _) => ByteLen(runes)
    case CharClass(ranges) => RuneBytes(ClassMax(ranges))
    case AnyCharNotNL => 4
    case AnyChar => 4
    case Quest(sub) => MaxLen(sub)
    case Repeat(sub, _, max) =>
      if max < 0 then -1 else
        var n := MaxLen(sub);
        if n < 0 then -1 else Product(max, n)
    case Concat(subs) => SumLen(subs)
    case Alternate(subs) => LargestLen(subs)
    case Capture(subs) => if subs == [] then 0 else MaxLen(subs[0])
    case _ => -1
  }

  function Product(a: nat, b: nat): nat {
    a * b
  }

  function SumLen(subs: seq<Regex>): (n: int)
    ensures n >= -1
    decreases subs
  {
    if subs == [] then 0 else
      var n, rest := MaxLen(subs[0]), SumLen(subs[1..]);
      if n < 0 || rest < 0 then -1 else n + rest
  }

  function LargestLen(subs: seq<Regex>): (n: int)
    ensures n >= -1
    decreases subs
  {
    if subs == [] then 0 else
      var n, rest := MaxLen(subs[0]), LargestLen(subs[1..]);
      if n < 0 || rest < 0 then -1 else if n > rest then n else rest
  }

  // ---- soundness ----

  /** No case variant of a rune of `runes` takes more bytes than the rune. */
  ghost predicate NoLonger(u: Unicode, runes: string) {
    forall k, c :: 0 <= k < |runes| && u.InOrbit(c, runes[k]) ==> RuneBytes(c) <= RuneBytes(runes[k])
  }

  /** No case-insensitive literal of the tree has a longer case variant. */
  ghost predicate Level(u: Unicode, re: Regex)
    decreases re
  {
    match re
    case Literal(runes, foldCase) => foldCase ==> NoLonger(u, runes)
    case Star(sub) => Level(u, sub)
    case Plus(sub) => Level(u, sub)
    case Quest(sub) => Level(u, sub)
    case Repeat(sub, _, _) => Level(u, sub)
    case Concat(subs) => forall i :: 0 <= i < |subs| ==> Level(u, subs[i])
    case Alternate(subs) => forall i :: 0 <= i < |subs| ==> Level(u, subs[i])
    case Capture(subs) => forall i :: 0 <= i < |subs| ==> Level(u, subs[i])
    case _ => true
  }

  lemma {:induction false} ByteLenAppend(a: string, b: string)
    ensures ByteLen(a + b) == ByteLen(a) + ByteLen(b)
  {
    if a == "" {
      assert a + b == b;
    } else {
      assert (a + b)[1..] == a[1..] + b;
      ByteLenAppend(a[1..], b);
    }
  }

  /** Rune by rune no longer: no longer as a whole. */
  lemma {:induction false} Runewise(s: string, t: string)
    requires |s| == |t| && forall i :: 0 <= i < |s| ==> RuneBytes(s[i]) <= RuneBytes(t[i])
    ensures ByteLen(s) <= ByteLen(t)
  {
    if s != "" { Runewise(s[1..], t[1..]); }
  }

  lemma RuneBytesMonotone(a: char, b: char)
    requires a <= b
    ensures RuneBytes(a) <= RuneBytes(b)
  {
  }

  lemma {:induction false} ClassMaxCovers(ranges: seq<(char, char)>, i: nat)
    requires i < |ranges|
    ensures ranges[i].1 <= ClassMax(ranges)
    decreases |ranges|
  {
    if i < |ranges| - 1 { ClassMaxCovers(ranges[..|ranges| - 1], i); }
  }

  lemma {:induction false} RepeatedLen(parts: seq<string>, count: nat, n: nat)
    requires |parts| <= count && forall i :: 0 <= i < |parts| ==> ByteLen(parts[i]) <= n
    ensures ByteLen(Join(parts)) <= Product(count, n)
    decreases |parts|
  {
    if parts != [] {
      ByteLenAppend(parts[0], Join(parts[1..]));
      RepeatedLen(parts[1..], count - 1, n);
      assert (count - 1) * n + n == count * n;
    }
  }

  lemma {:induction false} SumSound(u: Unicode, subs: seq<Regex>, parts: seq<string>)
    requires SumLen(subs) >= 0 && |parts| == |subs|
    requires forall i :: 0 <= i < |subs| ==> Level(u, subs[i]) && Matches(u, subs[i], parts[i])
    ensures ByteLen(Join(parts)) <= SumLen(subs)
    decreases subs
  {
    hide Matches, Level, MaxLen, ByteLen;
    if subs != [] {
      BoundSound(u, subs[0], parts[0]);
      SumSound(u, subs[1..], parts[1..]);
      ByteLenAppend(parts[0], Join(parts[1..]));
    } else {
      NoBytes();
    }
  }

  lemma NoBytes()
    ensures ByteLen("") == 0
  {
  }

  lemma {:induction false} LargestCovers(subs: seq<Regex>, i: nat)
    requires LargestLen(subs) >= 0 && i < |subs|
    ensures 0 <= MaxLen(subs[i]) <= LargestLen(subs)
    decreases |subs|
  {
    if i > 0 { LargestCovers(subs[1..], i - 1); }
  }

  /** A bound read off a tree without longer case variants holds of every string it matches. */
  lemma {:induction false} BoundSound(u: Unicode, re: Regex, s: string)
    requires Level(u, re) && Matches(u, re, s) && MaxLen(re) >= 0
    ensures ByteLen(s) <= MaxLen(re)
    decreases re, 0
  {
    hide Join, SumLen, LargestLen;
    match re
    case EmptyMatch =>
    case Assertion =>
    case Literal(runes, foldCase) => Runewise(s, runes);
    case CharClass(ranges) =>
      var i :| 0 <= i < |ranges| && ranges[i].0 <= s[0] <= ranges[i].1;
      ClassMaxCovers(ranges, i);
      RuneBytesMonotone(s[0], ClassMax(ranges));
      OneRune(s);
    case AnyCharNotNL => OneRune(s);
    case AnyChar => OneRune(s);
    case Quest(sub) => if s != "" { BoundSound(u, sub, s); }
    case Repeat(sub, min, max) => RepeatSound(u, sub, s, min, max);
    case Concat(subs) =>
      var parts: seq<string> :| Join(parts) == s && |parts| == |subs| && forall i :: 0 <= i < |subs| ==> Matches(u, subs[i], parts[i]);
      SumSound(u, subs, parts);
    case Alternate(subs) =>
      var i :| 0 <= i < |subs| && Matches(u, subs[i], s);
      LargestCovers(subs, i);
      BoundSound(u, subs[i], s);
    case Capture(subs) => if subs != [] { BoundSound(u, subs[0], s); }
  }

  lemma OneRune(s: string)
    requires |s| == 1
    ensures ByteLen(s) == RuneBytes(s[0])
  {
    assert s[1..] == "";
  }

  lemma {:induction false} RepeatSound(u: Unicode, re: Regex, s: string, min: nat, max: nat)
    requires Level(u, re) && Repeated(u, re, s, min, max) && MaxLen(re) >= 0
    ensures ByteLen(s) <= Product(max, MaxLen(re))
    decreases re, 1
  {
    hide Join, MaxLen, Level;
    var parts: seq<string> :|
      Join(parts) == s && |parts| <= max && forall i :: 0 <= i < |parts| ==> Matches(u, re, parts[i]);
    forall i | 0 <= i < |parts|
      ensures ByteLen(parts[i]) <= MaxLen(re)
    {
      BoundSound(u, re, parts[i]);
    }
    RepeatedLen(parts, max, MaxLen(re));
  }

  // ---- tightness ----

  /** No class of the tree is empty, no alternative missing, no repetition asks for more than it allows. */
  predicate Inhabited(re: Regex)
    decreases re
  {
    match re
    case CharClass(ranges) => ranges != [] && forall i :: 0 <= i < |ranges| ==> ranges[i].0 <= ranges[i].1
    case Quest(sub) => Inhabited(sub)
    case Repeat(sub, min, max) => min <= max && Inhabited(sub)
    case Concat(subs) => forall i :: 0 <= i < |subs| ==> Inhabited(subs[i])
    case Alternate(subs) => subs != [] && forall i :: 0 <= i < |subs| ==> Inhabited(subs[i])
    case Capture(subs) => forall i :: 0 <= i < |subs| ==> Inhabited(subs[i])
    case _ => true
  }

  function Copies(s: string, n: nat): seq<string> {
    seq(n, _ => s)
  }

  lemma {:induction false} CopiesLen(s: string, n: nat)
    ensures ByteLen(Join(Copies(s, n))) == Product(n, ByteLen(s))
  {
    if n == 0 {
      assert Copies(s, 0) == [] && Join([]) == "";
    } else {
      CopiesLen(s, n - 1);
      assert Copies(s, n)[1..] == Copies(s, n - 1);
      ByteLenAppend(s, Join(Copies(s, n - 1)));
      assert (n - 1) * ByteLen(s) + ByteLen(s) == n * ByteLen(s);
    }
  }

  lemma {:induction false} HighestIn(ranges: seq<(char, char)>) returns (i: nat)
    requires ranges != []
    ensures i < |ranges| && ranges[i].1 == ClassMax(ranges)
  {
    var n := |ranges| - 1;
    if ranges[n].1 > ClassMax(ranges[..n]) {
      i := n;
    } else if n == 0 {
      i := 0;
    } else {
      i := HighestIn(ranges[..n]);
    }
  }

  lemma {:induction false} LargestIs(subs: seq<Regex>) returns (i: nat)
    requires subs != [] && LargestLen(subs) >= 0
    ensures i < |subs| && MaxLen(subs[i]) == LargestLen(subs)
    decreases |subs|
  {
    i := 0;
    if |subs| > 1 && MaxLen(subs[0]) <= LargestLen(subs[1..]) {
      i := LargestIs(subs[1..]);
      i := i + 1;
    }
  }

  lemma {:induction false} SumTight(u: Unicode, subs: seq<Regex>) returns (parts: seq<string>)
    requires u.Wf() && SumLen(subs) >= 0 && forall i :: 0 <= i < |subs| ==> Inhabited(subs[i])
    ensures |parts| == |subs| && forall i :: 0 <= i < |subs| ==> Matches(u, subs[i], parts[i])
    ensures ByteLen(Join(parts)) == SumLen(subs)
    decreases subs
  {
    hide Matches, Inhabited, MaxLen, ByteLen, Unicode.Wf;
    if subs == [] {
      parts := [];
      NoBytes();
    } else {
      var first := BoundTight(u, subs[0]);
      var rest := SumTight(u, subs[1..]);
      parts := [first] + rest;
      assert parts[1..] == rest;
      ByteLenAppend(first, Join(rest));
    }
  }

  /** The bound is no larger than it has to be: some string of the tree has that many bytes. */
  lemma {:induction false} BoundTight(u: Unicode, re: Regex) returns (s: string)
    requires u.Wf() && Inhabited(re) && MaxLen(re) >= 0
    ensures Matches(u, re, s) && ByteLen(s) == MaxLen(re)
    decreases re
  {
    hide SumLen, LargestLen, Join;
    s := "";
    match re
    case EmptyMatch =>
    case Assertion =>
    case Literal(runes, _) =>
      s := runes;
      SelfMatches(u, re, runes);
    case CharClass(ranges) =>
      var i := HighestIn(ranges);
      s := [ranges[i].1];
      OneRune(s);
    case AnyCharNotNL =>
      s := [0x1_0000 as char];
      OneRune(s);
    case AnyChar =>
      s := [0x1_0000 as char];
      OneRune(s);
    case Quest(sub) => s := BoundTight(u, sub);
    case Repeat(sub, min, max) =>
      var part := BoundTight(u, sub);
      s := Join(Copies(part, max));
      CopiesLen(part, max);
    case Concat(subs) =>
      var parts := SumTight(u, subs);
      s := Join(parts);
    case Alternate(subs) =>
      var i := LargestIs(subs);
      s := BoundTight(u, subs[i]);
    case Capture(subs) => if subs != [] { s := BoundTight(u, subs[0]); }
  }

  lemma SelfMatches(u: Unicode, re: Regex, runes: string)
    requires u.Wf() && re.Literal? && re.runes == runes
    ensures Matches(u, re, runes)
  {
    forall i | 0 <= i < |runes|
      ensures u.InOrbit(runes[i], runes[i])
    {
      assert u.period(runes[i]) >= 1 && u.Spin(runes[i], 0) == runes[i];
    }
  }

  /** For a case-insensitive literal the bound is right if and only if no variant is longer. */
  lemma LiteralBoundExact(u: Unicode, runes: string)
    requires u.Wf()
    ensures NoLonger(u, runes) <==>
            forall s :: Matches(u, Literal(runes, true), s) ==> ByteLen(s) <= MaxLen(Literal(runes, true))
  {
    var re := Literal(runes, true);
    if NoLonger(u, runes) {
      forall s | Matches(u, re, s)
        ensures ByteLen(s) <= MaxLen(re)
      {
        BoundSound(u, re, s);
      }
    } else {
      var k, c :| 0 <= k < |runes| && u.InOrbit(c, runes[k]) && RuneBytes(c) > RuneBytes(runes[k]);
      var s := LongerMatch(u, runes, k, c);
    }
  }

  /** Putting a longer case variant in place of a rune gives a longer match. */
  lemma LongerMatch(u: Unicode, runes: string, k: nat, c: char) returns (s: string)
    requires u.Wf() && k < |runes| && u.InOrbit(c, runes[k]) && RuneBytes(c) > RuneBytes(runes[k])
    ensures Matches(u, Literal(runes, true), s) && ByteLen(s) > ByteLen(runes)
  {
    s := runes[k := c];
    forall j | 0 <= j < |s|
      ensures u.InOrbit(s[j], runes[j])
    {
      assert u.period(runes[j]) >= 1 && u.Spin(runes[j], 0) == runes[j];
    }
    var a, b := runes[..k], runes[k + 1..];
    assert s == a + ([c] + b) && runes == a + ([runes[k]] + b);
    ByteLenAppend(a, [c] + b);
    ByteLenAppend(a, [runes[k]] + b);
    assert ([c] + b)[1..] == b && ([runes[k]] + b)[1..] == b;
  }
}
