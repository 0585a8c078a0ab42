/** The shape of minted placeholders: `<TYPE_N>`, printed injectively. */
module Placeholder {
  import opened Text
  import opened AngleRewrite

  predicate IsDigit(c: char) {
    '0' <= c <= '9'
  }

  predicate IsWordChar(c: char) {
    IsDigit(c) || 'a' <= c <= 'z' || 'A' <= c <= 'Z' || c == '_'
  }

  predicate Digits(s: string) {
    forall i :: 0 <= i < |s| ==> IsDigit(s[i])
  }

  predicate Word(s: string) {
    forall i :: 0 <= i < |s| ==> IsWordChar(s[i])
  }

  /** Decimal printing. */
  function Dec(n: nat): (s: string)
    ensures s != "" && Digits(s)
  {
    if n < 10 then [('0' as int + n) as char] else Dec(n / 10) + [('0' as int + n % 10) as char]
  }

  /** Decimal reading of a digit string. */
  function Value(s: string): nat
    requires Digits(s)
  {
    if s == "" then 0 else Value(s[..|s| - 1]) * 10 + (s[|s| - 1] as int - '0' as int)
  }

  lemma {:induction false} ValueOfDec(n: nat)
    ensures Value(Dec(n)) == n
  {
    if n < 10 {
      assert Dec(n)[..0] == "" && Value("") == 0;
    } else {
      ValueOfDec(n / 10);
      assert Dec(n)[..|Dec(n)| - 1] == Dec(n / 10);
    }
  }

  /** The canonical placeholder of a type and an index. */
  function Format(typ: string, index: nat): string {
    "<" + typ + "_" + Dec(index) + ">"
  }

  /** Printing is injective, although types may themselves hold underscores and digits. */
  lemma FormatInjective(t: string, i: nat, u: string, j: nat)
    requires Format(t, i) == Format(u, j)
    ensures t == u && i == j
  {
    var s := Format(t, i);
    var a, b := Dec(i), Dec(j);
    LastUnderscore(t, a);
    LastUnderscore(u, b);
    SameLast(s, |s| - 2 - |a|, |s| - 2 - |b|);
    assert s[|s| - 1 - |a|..|s| - 1] == a && s[|s| - 1 - |b|..|s| - 1] == b;
    assert s[1..1 + |t|] == t && s[1..1 + |u|] == u;
    ValueOfDec(i);
    ValueOfDec(j);
  }

  /** Position `k` holds the last underscore of `s`. */
  predicate LastUnderscoreAt(s: string, k: int) {
    0 <= k < |s| && s[k] == '_' && forall m :: k < m < |s| ==> s[m] != '_'
  }

  lemma LastUnderscore(t: string, d: string)
    requires Digits(d)
    ensures var s := "<" + t + "_" + d + ">"; LastUnderscoreAt(s, |s| - 2 - |d|)
  {
    var s := "<" + t + "_" + d + ">";
    var k := |s| - 2 - |d|;
    forall m | k < m < |s|
      ensures s[m] != '_'
    {
      if m < |s| - 1 { assert s[m] == d[m - k - 1]; }
    }
  }

  lemma SameLast(s: string, k: int, m: int)
    requires LastUnderscoreAt(s, k) && LastUnderscoreAt(s, m)
    ensures k == m
  {
  }

  /** The shape `<[A-Za-z0-9_]+_[0-9]+>` of tokens whose literal occurrences are reserved. */
  predicate LiteralShape(w: string) {
    IsToken(w) && exists k :: 1 < k < |w| - 2 && LiteralAt(w, k)
  }

  predicate LiteralAt(w: string, k: int)
    requires 1 < k < |w| - 2
  {
    w[k] == '_' && Word(w[1..k]) && Digits(w[k + 1..|w| - 1])
  }

  predicate WordType(typ: string) {
    typ != "" && Word(typ)
  }

  lemma FormatShape(typ: string, index: nat)
    requires WordType(typ)
    ensures LiteralShape(Format(typ, index))
  {
    var w, d := Format(typ, index), Dec(index);
    var k := |typ| + 1;
    assert w[1..k] == typ && w[k + 1..|w| - 1] == d;
    assert LiteralAt(w, k);
    assert w[1..|w| - 1] == typ + "_" + d;
    WordAngleFree(typ);
    DigitsAngleFree(d);
  }

  lemma WordAngleFree(s: string)
    requires Word(s)
    ensures AngleFree(s)
  {
  }

  lemma DigitsAngleFree(s: string)
    requires Digits(s)
    ensures AngleFree(s)
  {
  }

  /** All placeholder-shaped literals of a text. */
  function Literals(t: string): set<string>
    decreases |t|
  {
    if t == "" then {} else
      var n := TokenLen(t);
      if n > 0 && LiteralShape(t[..n]) then {t[..n]} + Literals(t[n..]) else Literals(t[1..])
  }

  /** The non-overlapping left-to-right search misses no occurrence. */
  lemma {:induction false} OccurrenceIsLiteral(w: string, t: string)
    requires LiteralShape(w) && Occurs(w, t)
    ensures w in Literals(t)
    decreases |t|
  {
    hide LiteralAt, TokenLen;
    var i: nat :| OccursAt(w, t, i);
    var n := TokenLen(t);
    if i == 0 {
      TokenLenOf(w, t[|w|..]);
      assert t == w + t[|w|..];
      assert t[..n] == w;
    } else {
      var step := if n > 0 && LiteralShape(t[..n]) then n else 1;
      OutsideToken(w, t, i, n);
      OccursLater(w, t, i, step);
      OccurrenceIsLiteral(w, t[step..]);
    }
  }

  lemma OccursLater(w: string, t: string, i: nat, k: nat)
    requires OccursAt(w, t, i) && k <= i
    ensures Occurs(w, t[k..])
  {
    assert t[k..][i - k..i - k + |w|] == t[i..i + |w|];
    assert OccursAt(w, t[k..], i - k);
  }

  lemma OutsideToken(w: string, t: string, i: nat, n: nat)
    requires IsToken(w) && OccursAt(w, t, i) && 0 < i && n <= |t|
    ensures n > 0 && IsToken(t[..n]) ==> n <= i
  {
    assert t[i..i + |w|][0] == t[i] == '<';
    OpensOnlyFirst(t[..n]);
  }

  lemma OpensOnlyFirst(w: string)
    ensures IsToken(w) ==> forall k :: 0 < k < |w| ==> w[k] != '<'
  {
    if IsToken(w) {
      forall k | 0 < k < |w|
        ensures w[k] != '<'
      {
        assert k < |w| - 1 ==> w[1..|w| - 1][k - 1] == w[k];
      }
    }
  }
}
