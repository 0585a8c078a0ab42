/**
 The drift-tolerant pattern built for a placeholder type: what it accepts, which types have their own
 canonical placeholders accepted, and when its length bound is right.
 */
module DriftPattern {
  import opened Text
  import opened Placeholder
  import opened RegexTree

  const MAX_DRIFT := 3
  const INDEX_LEN := 9

  const SPACES: seq<(char, char)> := [('\t', '\n'), (12 as char, '\r'), (' ', ' ')]
  const SEPARATORS: seq<(char, char)> := SPACES + [('-', '-'), ('_', '_')]
  const DIGITS: seq<(char, char)> := [('0', '9')]

  // ---- building the pattern ----

  /** Length of the text before the first underscore. */
  function RunLen(s: string): (n: nat)
    ensures n <= |s| && '_' !in s[..n] && (n < |s| ==> s[n] == '_')
  {
    if s == "" || s[0] == '_' then 0 else 1 + RunLen(s[1..])
  }

  /** The non-empty pieces between underscores. */
  function Fields(s: string): (r: seq<string>)
    ensures "" !in r
    decreases |s|
  {
    if s == "" then []
    else if s[0] == '_' then Fields(s[1..])
    else [s[..RunLen(s)]] + Fields(s[RunLen(s)..])
  }

  /** A type of underscores only is taken as one token. */
  function Tokens(typ: string): (r: seq<string>)
    ensures r != []
  {
    if Fields(typ) == [] then [typ] else Fields(typ)
  }

  const SPACE_RUN := Repeat(CharClass(SPACES), 0, MAX_DRIFT)
  const SEPARATOR_RUN := Repeat(CharClass(SEPARATORS), 0, MAX_DRIFT)
  const INDEX := Capture([Repeat(CharClass(DIGITS), 1, INDEX_LEN)])
  const CLOSE := Literal(">", false)

  /** Tokens, each followed by a separator run, then index, spaces and the closing bracket. */
  function Rest(tokens: seq<string>): seq<Regex> {
    if tokens == [] then [INDEX, SPACE_RUN, CLOSE]
    else [Literal(tokens[0], true), SEPARATOR_RUN] + Rest(tokens[1..])
  }

  function Pattern(typ: string): Regex {
    Concat([Literal("<", false), SPACE_RUN] + Rest(Tokens(typ)))
  }

  // ---- what the pattern accepts, as an engine would read it ----

  predicate Spaces(s: string) {
    |s| <= MAX_DRIFT && forall i :: 0 <= i < |s| ==> InClass(SPACES, s[i])
  }

  predicate Separators(s: string) {
    |s| <= MAX_DRIFT && forall i :: 0 <= i < |s| ==> InClass(SEPARATORS, s[i])
  }

  predicate Index(d: string) {
    1 <= |d| <= INDEX_LEN && Digits(d)
  }

  /** `s` is a case variant of token `t`. */
  ghost predicate Variant(u: Unicode, t: string, s: string) {
    |s| == |t| && forall i :: 0 <= i < |s| ==> u.InOrbit(s[i], t[i])
  }

  /** `s` continues a match after the given tokens' predecessors, with index text `d`. */
  ghost predicate Tail(u: Unicode, tokens: seq<string>, s: string, d: string)
    decreases |tokens|
  {
    if tokens == [] then
      |s| > |d| && s[..|d|] == d && Index(d) && s[|s| - 1] == '>' && Spaces(s[|d|..|s| - 1])
    else
      exists n: nat :: TailAt(u, tokens, s, d, n)
  }

  /** The first token is followed by `n` separators. */
  ghost predicate TailAt(u: Unicode, tokens: seq<string>, s: string, d: string, n: nat)
    requires tokens != []
    decreases |tokens|, 0
  {
    var k := |tokens[0]|;
    k + n <= |s| && Variant(u, tokens[0], s[..k]) && Separators(s[k..k + n]) && Tail(u, tokens[1..], s[k + n..], d)
  }

  /** The whole string is accepted with index text `d`. */
  ghost predicate Accepted(u: Unicode, typ: string, s: string, d: string) {
    exists n: nat :: AcceptedAt(u, typ, s, d, n)
  }

  ghost predicate AcceptedAt(u: Unicode, typ: string, s: string, d: string, n: nat) {
    1 + n <= |s| && s[0] == '<' && Spaces(s[1..1 + n]) && Tail(u, Tokens(typ), s[1 + n..], d)
  }

  // ---- the reading agrees with the language of the tree ----

  lemma ConcatCut(u: Unicode, re: Regex, rest: seq<Regex>, s: string) returns (n: nat)
    requires Matches(u, Concat([re] + rest), s)
    ensures n <= |s| && Matches(u, re, s[..n]) && Matches(u, Concat(rest), s[n..])
  {
    hide Matches;
    var parts := ConcatParts(u, [re] + rest, s);
    n := |parts[0]|;
    assert s[..n] == parts[0] && s[n..] == Join(parts[1..]);
    assert ([re] + rest)[0] == re;
    forall i | 0 <= i < |rest|
      ensures Matches(u, rest[i], parts[1..][i])
    {
      assert ([re] + rest)[i + 1] == rest[i] && parts[1..][i] == parts[i + 1];
    }
    ConcatOf(u, rest, parts[1..]);
  }

  lemma ConcatJoin(u: Unicode, re: Regex, rest: seq<Regex>, s: string, n: nat)
    requires n <= |s| && Matches(u, re, s[..n]) && Matches(u, Concat(rest), s[n..])
    ensures Matches(u, Concat([re] + rest), s)
  {
    hide Matches;
    var tail := ConcatParts(u, rest, s[n..]);
    var parts := [s[..n]] + tail;
    forall i | 0 <= i < |parts|
      ensures Matches(u, ([re] + rest)[i], parts[i])
    {
      if i > 0 { assert ([re] + rest)[i] == rest[i - 1] && parts[i] == tail[i - 1]; }
    }
    ConcatOf(u, [re] + rest, parts);
    assert parts[1..] == tail && s[..n] + s[n..] == s;
  }

  lemma ConcatNil(u: Unicode, s: string)
    ensures Matches(u, Concat([]), s) <==> s == ""
  {
    if s == "" { ConcatOf(u, [], []); }
  }

  /** A bounded repetition of a class is a run of its characters. */
  lemma ClassRun(u: Unicode, ranges: seq<(char, char)>, min: nat, max: nat, s: string)
    ensures Matches(u, Repeat(CharClass(ranges), min, max), s) <==>
            min <= |s| <= max && forall i :: 0 <= i < |s| ==> InClass(ranges, s[i])
  {
    if Repeated(u, CharClass(ranges), s, min, max) { RunOfClass(u, ranges, min, max, s); }
    if min <= |s| <= max && forall i :: 0 <= i < |s| ==> InClass(ranges, s[i]) { ClassOfRun(u, ranges, min, max, s); }
  }

  lemma RunOfClass(u: Unicode, ranges: seq<(char, char)>, min: nat, max: nat, s: string)
    requires Repeated(u, CharClass(ranges), s, min, max)
    ensures min <= |s| <= max && forall i :: 0 <= i < |s| ==> InClass(ranges, s[i])
  {
    hide InClass;
    var re := CharClass(ranges);
    var parts: seq<string> :| Join(parts) == s && min <= |parts| <= max && forall i :: 0 <= i < |parts| ==> Matches(u, re, parts[i]);
    SingleRunes(parts);
  }

  lemma ClassOfRun(u: Unicode, ranges: seq<(char, char)>, min: nat, max: nat, s: string)
    requires min <= |s| <= max && forall i :: 0 <= i < |s| ==> InClass(ranges, s[i])
    ensures Repeated(u, CharClass(ranges), s, min, max)
  {
    hide InClass, Join;
    var parts := seq(|s|, i requires 0 <= i < |s| => [s[i]]);
    SingleRunes(parts);
    assert Join(parts) == s;
  }

  lemma {:induction false} SingleRunes(parts: seq<string>)
    requires forall i :: 0 <= i < |parts| ==> |parts[i]| == 1
    ensures |Join(parts)| == |parts| && forall i :: 0 <= i < |parts| ==> Join(parts)[i] == parts[i][0]
  {
    if parts != [] {
      SingleRunes(parts[1..]);
      forall i | 0 <= i < |parts|
        ensures Join(parts)[i] == parts[i][0]
      {
        if i > 0 { assert Join(parts)[i] == Join(parts[1..])[i - 1] && parts[1..][i - 1] == parts[i]; }
      }
    }
  }

  lemma DigitClass(s: string)
    ensures Digits(s) <==> forall i :: 0 <= i < |s| ==> InClass(DIGITS, s[i])
  {
    assert forall c :: InClass(DIGITS, c) <==> IsDigit(c) by {
      forall c
        ensures InClass(DIGITS, c) <==> IsDigit(c)
      {
        if IsDigit(c) { assert DIGITS[0].0 <= c <= DIGITS[0].1; }
      }
    }
  }

  /** What the single members of the pattern match. */
  lemma Members(u: Unicode, t: string, s: string)
    ensures Matches(u, Literal(t, true), s) <==> Variant(u, t, s)
    ensures Matches(u, CLOSE, s) <==> s == ">"
    ensures Matches(u, Literal("<", false), s) <==> s == "<"
    ensures Matches(u, SPACE_RUN, s) <==> Spaces(s)
    ensures Matches(u, SEPARATOR_RUN, s) <==> Separators(s)
    ensures Matches(u, INDEX, s) <==> Index(s)
  {
    hide Matches, InClass, Digits;
    LiteralMembers(u, t, s);
    ClassRun(u, SPACES, 0, MAX_DRIFT, s);
    ClassRun(u, SEPARATORS, 0, MAX_DRIFT, s);
    ClassRun(u, DIGITS, 1, INDEX_LEN, s);
    DigitClass(s);
    CaptureOne(u, Repeat(CharClass(DIGITS), 1, INDEX_LEN), s);
  }

  lemma CaptureOne(u: Unicode, re: Regex, s: string)
    ensures Matches(u, Capture([re]), s) <==> Matches(u, re, s)
  {
  }

  lemma LiteralMembers(u: Unicode, t: string, s: string)
    ensures Matches(u, Literal(t, true), s) <==> Variant(u, t, s)
    ensures Matches(u, Literal(">", false), s) <==> s == ">"
    ensures Matches(u, Literal("<", false), s) <==> s == "<"
  {
  }

  lemma EndFromMatch(u: Unicode, s: string) returns (d: string)
    requires Matches(u, Concat(Rest([])), s)
    ensures Tail(u, [], s, d)
  {
    hide Matches, Spaces, Index;
    assert Rest([]) == [INDEX] + ([SPACE_RUN] + ([CLOSE] + []));
    var n := ConcatCut(u, INDEX, [SPACE_RUN] + ([CLOSE] + []), s);
    var m := ConcatCut(u, SPACE_RUN, [CLOSE] + [], s[n..]);
    var k := ConcatCut(u, CLOSE, [], s[n..][m..]);
    Members(u, "", s[..n]);
    Members(u, "", s[n..][..m]);
    Members(u, "", s[n..][m..][..k]);
    ConcatNil(u, s[n..][m..][k..]);
    d := s[..n];
    assert s[n..][m..] == ">" && |s| == n + m + 1;
    assert s[n..|s| - 1] == s[n..][..m];
    assert s[|s| - 1] == s[n..][m..][0];
  }

  lemma EndToMatch(u: Unicode, s: string, d: string)
    requires Tail(u, [], s, d)
    ensures Matches(u, Concat(Rest([])), s)
  {
    hide Matches, Spaces, Index;
    var n, m := |d|, |s| - 1 - |d|;
    assert Rest([]) == [INDEX] + ([SPACE_RUN] + ([CLOSE] + []));
    assert s[n..][m..] == ">" && s[n..][..m] == s[n..|s| - 1];
    Members(u, "", s[..n]);
    Members(u, "", s[n..][..m]);
    Members(u, "", ">");
    ConcatNil(u, "");
    assert ">"[..1] == ">" && ">"[1..] == "";
    ConcatJoin(u, CLOSE, [], ">", 1);
    ConcatJoin(u, SPACE_RUN, [CLOSE] + [], s[n..], m);
    ConcatJoin(u, INDEX, [SPACE_RUN] + ([CLOSE] + []), s, n);
  }

  lemma {:induction false} TailFromMatch(u: Unicode, tokens: seq<string>, s: string) returns (d: string)
    requires Matches(u, Concat(Rest(tokens)), s)
    ensures Tail(u, tokens, s, d)
    decreases tokens
  {
    hide Matches, Separators;
    if tokens == [] {
      d := EndFromMatch(u, s);
    } else {
      var t, rest := tokens[0], Rest(tokens[1..]);
      assert Rest(tokens) == [Literal(t, true)] + ([SEPARATOR_RUN] + rest);
      var n := ConcatCut(u, Literal(t, true), [SEPARATOR_RUN] + rest, s);
      var m := ConcatCut(u, SEPARATOR_RUN, rest, s[n..]);
      Members(u, t, s[..n]);
      Members(u, t, s[n..][..m]);
      DropDrop(s, n, m);
      assert s[n..][..m] == s[n..n + m];
      d := TailFromMatch(u, tokens[1..], s[n + m..]);
      assert TailAt(u, tokens, s, d, m);
    }
  }

  lemma {:induction false} TailToMatch(u: Unicode, tokens: seq<string>, s: string, d: string)
    requires Tail(u, tokens, s, d)
    ensures Matches(u, Concat(Rest(tokens)), s)
    decreases tokens
  {
    hide Matches, Separators;
    if tokens == [] {
      EndToMatch(u, s, d);
    } else {
      var m: nat :| TailAt(u, tokens, s, d, m);
      TailToMatch(u, tokens[1..], s[|tokens[0]| + m..], d);
      TokenToMatch(u, tokens, s, m);
    }
  }

  lemma TokenToMatch(u: Unicode, tokens: seq<string>, s: string, m: nat)
    requires tokens != [] && |tokens[0]| + m <= |s|
    requires Variant(u, tokens[0], s[..|tokens[0]|]) && Separators(s[|tokens[0]|..|tokens[0]| + m])
    requires Matches(u, Concat(Rest(tokens[1..])), s[|tokens[0]| + m..])
    ensures Matches(u, Concat(Rest(tokens)), s)
  {
    hide Matches, Separators, Variant;
    var t, n, rest := tokens[0], |tokens[0]|, Rest(tokens[1..]);
    Members(u, t, s[..n]);
    Members(u, t, s[n..n + m]);
    DropDrop(s, n, m);
    assert s[n..][..m] == s[n..n + m];
    ConcatJoin(u, SEPARATOR_RUN, rest, s[n..], m);
    ConcatJoin(u, Literal(t, true), [SEPARATOR_RUN] + rest, s, n);
    assert Rest(tokens) == [Literal(t, true)] + ([SEPARATOR_RUN] + rest);
  }

  lemma PatternParts(u: Unicode, typ: string)
    ensures Pattern(typ) == Concat([Literal("<", false)] + ([SPACE_RUN] + Rest(Tokens(typ))))
  {
    var rest := Rest(Tokens(typ));
    assert [Literal("<", false), SPACE_RUN] + rest == [Literal("<", false)] + ([SPACE_RUN] + rest);
  }

  lemma AcceptedFromMatch(u: Unicode, typ: string, s: string) returns (d: string)
    requires Matches(u, Pattern(typ), s)
    ensures Accepted(u, typ, s, d)
  {
    hide Matches, Tail, Spaces, Pattern;
    var rest := Rest(Tokens(typ));
    PatternParts(u, typ);
    var n := ConcatCut(u, Literal("<", false), [SPACE_RUN] + rest, s);
    var m := ConcatCut(u, SPACE_RUN, rest, s[n..]);
    Members(u, "", s[..n]);
    Members(u, "", s[n..][..m]);
    assert s[n..][..m] == s[1..1 + m] && s[n..][m..] == s[1 + m..];
    d := TailFromMatch(u, Tokens(typ), s[1 + m..]);
    assert AcceptedAt(u, typ, s, d, m);
  }

  lemma AcceptedToMatch(u: Unicode, typ: string, s: string, d: string)
    requires Accepted(u, typ, s, d)
    ensures Matches(u, Pattern(typ), s)
  {
    hide Matches, Tail, Spaces, Pattern;
    var rest := Rest(Tokens(typ));
    PatternParts(u, typ);
    var m: nat :| AcceptedAt(u, typ, s, d, m);
    assert s[..1] == "<";
    Members(u, "", s[..1]);
    Members(u, "", s[1..1 + m]);
    assert s[1..][..m] == s[1..1 + m] && s[1..][m..] == s[1 + m..];
    TailToMatch(u, Tokens(typ), s[1 + m..], d);
    ConcatJoin(u, SPACE_RUN, rest, s[1..], m);
    ConcatJoin(u, Literal("<", false), [SPACE_RUN] + rest, s, 1);
  }

  /** A string is in the pattern's language exactly when it is accepted with some index. */
  lemma PatternLanguage(u: Unicode, typ: string, s: string)
    ensures Matches(u, Pattern(typ), s) <==> exists d :: Accepted(u, typ, s, d)
  {
    hide Matches, Accepted, Pattern;
    if Matches(u, Pattern(typ), s) {
      var d := AcceptedFromMatch(u, typ, s);
    }
    if d :| Accepted(u, typ, s, d) {
      AcceptedToMatch(u, typ, s, d);
    }
  }

  // ---- canonical placeholders ----

  /** Runs of underscores inside are at most three long, at the end at most two. */
  predicate Runs(s: string)
    decreases |s|
  {
    s == "" ||
    var after := s[RunLen(s)..];
    var g := Gap(after);
    if g == |after| then g < MAX_DRIFT else g <= MAX_DRIFT && Runs(after[g..])
  }

  /** Length of the leading underscores. */
  function Gap(s: string): (g: nat)
    ensures g <= |s| && (forall i :: 0 <= i < g ==> s[i] == '_') && (g < |s| ==> s[g] != '_')
  {
    if s == "" || s[0] != '_' then 0 else 1 + Gap(s[1..])
  }

  /** The types whose canonical placeholders the pattern accepts. */
  predicate Regular(typ: string) {
    Gap(typ) == |typ| || (Gap(typ) == 0 && Runs(typ))
  }

  /** Case variants of word characters are no separators, except the underscore itself. */
  ghost predicate WordFolds(u: Unicode) {
    forall r, c :: IsWordChar(r) && u.InOrbit(c, r) ==> if r == '_' then c == '_' else !InClass(SEPARATORS, c)
  }

  const INDEX_LIMIT := 1_000_000_000

  lemma {:induction false} FieldsSkipGap(s: string)
    ensures Fields(s) == Fields(s[Gap(s)..])
    decreases |s|
  {
    if s != "" && s[0] == '_' {
      FieldsSkipGap(s[1..]);
      DropDrop(s, 1, Gap(s[1..]));
    }
  }

  lemma SelfVariant(u: Unicode, t: string)
    requires u.Wf()
    ensures Variant(u, t, t)
  {
    forall i | 0 <= i < |t|
      ensures u.InOrbit(t[i], t[i])
    {
      assert u.period(t[i]) >= 1 && u.Spin(t[i], 0) == t[i];
    }
  }

  lemma WordSeparators(u: Unicode, c: char)
    requires u.Wf() && WordFolds(u)
    ensures InClass(SEPARATORS, '_') && !InClass(SPACES, '_')
    ensures InClass(SPACES, c) ==> InClass(SEPARATORS, c)
    ensures IsWordChar(c) && c != '_' ==> !InClass(SEPARATORS, c)
  {
    assert SEPARATORS[4] == ('_', '_');
    if InClass(SPACES, c) {
      var i :| 0 <= i < |SPACES| && SPACES[i].0 <= c <= SPACES[i].1;
      assert SEPARATORS[i] == SPACES[i];
    }
    assert u.period(c) >= 1 && u.Spin(c, 0) == c;
    assert u.InOrbit(c, c);
  }

  /** A match of a token of word characters starts with no separator. */
  lemma TailStarts(u: Unicode, tokens: seq<string>, s: string, d: string)
    requires WordFolds(u) && tokens != [] && tokens[0] != "" && IsWordChar(tokens[0][0]) && tokens[0][0] != '_'
    requires Tail(u, tokens, s, d)
    ensures s != "" && !InClass(SEPARATORS, s[0])
  {
    hide InClass;
    var n: nat :| TailAt(u, tokens, s, d, n);
    assert u.InOrbit(s[..|tokens[0]|][0], tokens[0][0]);
  }

  /** Separators end exactly where the underscores do. */
  lemma OnlyGap(s: string, g: nat, m: nat)
    requires g < |s| && m < |s| && (forall i :: 0 <= i < g ==> s[i] == '_') && InClass(SEPARATORS, '_')
    requires !InClass(SEPARATORS, s[g]) && !InClass(SEPARATORS, s[m]) && Separators(s[..m])
    ensures m == g
  {
    hide InClass, Separators;
    InsideSeparators(s, m, g);
  }

  lemma InsideSeparators(s: string, m: nat, g: nat)
    ensures g < m <= |s| && Separators(s[..m]) ==> InClass(SEPARATORS, s[g])
  {
    hide InClass;
    if g < m <= |s| && Separators(s[..m]) {
      assert s[..m][g] == s[g];
    }
  }

  lemma GapSeparators(s: string, g: nat)
    requires g <= |s| && (forall i :: 0 <= i < g ==> s[i] == '_') && InClass(SEPARATORS, '_')
    ensures Separators(s[..g]) <==> g <= MAX_DRIFT
  {
  }

  /** After the tokens: the index has to be all the digits. */
  lemma EndOf(u: Unicode, digits: string, d: string)
    requires u.Wf() && WordFolds(u) && Digits(digits)
    ensures Tail(u, [], digits + ">", d) <==> d == digits && Index(digits)
  {
    hide InClass;
    var s := digits + ">";
    if Tail(u, [], s, d) {
      assert |d| <= |digits|;
      if |d| < |digits| {
        var sp := s[|d|..|s| - 1];
        assert sp[0] == digits[|d|];
        WordSeparators(u, sp[0]);
      }
      assert s[..|digits|] == digits;
    }
    if d == digits && Index(digits) {
      assert s[..|d|] == d && s[|d|..|s| - 1] == "";
    }
  }

  lemma EndStarts(u: Unicode, s: string, d: string)
    requires u.Wf() && WordFolds(u) && Tail(u, [], s, d)
    ensures s != "" && !InClass(SEPARATORS, s[0])
  {
    hide InClass;
    assert s[0] == s[..|d|][0];
    WordSeparators(u, s[0]);
  }

  /** Underscores, then the index: the separators are the underscores. */
  lemma AfterLastToken(u: Unicode, gap: string, digits: string, d: string, m: nat)
    requires u.Wf() && WordFolds(u) && Digits(digits) && digits != "" && forall i :: 0 <= i < |gap| ==> gap[i] == '_'
    ensures var y := gap + (digits + ">");
            m <= |y| && Separators(y[..m]) && Tail(u, [], y[m..], d)
            <==> m == |gap| && |gap| <= MAX_DRIFT && d == digits && Index(digits)
  {
    hide InClass, Tail, Index, Separators;
    var y := gap + (digits + ">");
    WordSeparators(u, digits[0]);
    assert y[|gap|] == digits[0] && y[|gap|..] == digits + ">";
    GapSeparators(y, |gap|);
    EndOf(u, digits, d);
    if m <= |y| && Separators(y[..m]) && Tail(u, [], y[m..], d) {
      EndStarts(u, y[m..], d);
      OnlyGap(y, |gap|, m);
    }
  }

  /** Underscores, then the next token: the separators are the underscores. */
  lemma AfterToken(u: Unicode, gap: string, tokens: seq<string>, next: string, d: string, m: nat)
    requires u.Wf() && WordFolds(u) && forall i :: 0 <= i < |gap| ==> gap[i] == '_'
    requires next != "" && IsWordChar(next[0]) && next[0] != '_'
    requires tokens != [] && tokens[0] != "" && tokens[0][0] == next[0]
    ensures var y := gap + next;
            m <= |y| && Separators(y[..m]) && Tail(u, tokens, y[m..], d)
            <==> m == |gap| && |gap| <= MAX_DRIFT && Tail(u, tokens, next, d)
  {
    hide InClass, Tail, Separators;
    var y := gap + next;
    WordSeparators(u, next[0]);
    assert y[|gap|] == next[0] && y[|gap|..] == next;
    GapSeparators(y, |gap|);
    if m <= |y| && Separators(y[..m]) && Tail(u, tokens, y[m..], d) {
      TailStarts(u, tokens, y[m..], d);
      OnlyGap(y, |gap|, m);
    }
  }

  /** A type's last token, with the underscores after it. */
  lemma LastTokenRead(u: Unicode, w: string, gap: string, digits: string, d: string)
    requires u.Wf() && WordFolds(u) && Digits(digits) && digits != "" && forall i :: 0 <= i < |gap| ==> gap[i] == '_'
    ensures Tail(u, [w], w + gap + ("_" + digits + ">"), d) <==> |gap| < MAX_DRIFT && d == digits && Index(digits)
  {
    hide Tail, Index, Separators, Variant;
    var x := w + gap + ("_" + digits + ">");
    SelfVariant(u, w);
    assert x[..|w|] == w && x[|w|..] == (gap + "_") + (digits + ">") && [w][1..] == [];
    forall m: nat
      ensures TailAt(u, [w], x, d, m) <==> m == |gap| + 1 && |gap| + 1 <= MAX_DRIFT && d == digits && Index(digits)
    {
      AfterLastToken(u, gap + "_", digits, d, m);
      TailAtCut(u, [w], x, d, m);
    }
    TailIs(u, [w], x, d, |gap| + 1);
  }

  /** A token with more tokens after the underscores. */
  lemma InnerTokenRead(u: Unicode, w: string, gap: string, tokens: seq<string>, next: string, d: string)
    requires u.Wf() && WordFolds(u) && forall i :: 0 <= i < |gap| ==> gap[i] == '_'
    requires next != "" && IsWordChar(next[0]) && next[0] != '_'
    requires tokens != [] && tokens[0] != "" && tokens[0][0] == next[0]
    ensures Tail(u, [w] + tokens, w + gap + next, d) <==> |gap| <= MAX_DRIFT && Tail(u, tokens, next, d)
  {
    hide Tail, Separators, Variant, IsWordChar;
    var x, all := w + gap + next, [w] + tokens;
    SelfVariant(u, w);
    assert x[..|w|] == w && x[|w|..] == gap + next && all[1..] == tokens;
    forall m: nat
      ensures TailAt(u, all, x, d, m) <==> m == |gap| && |gap| <= MAX_DRIFT && Tail(u, tokens, next, d)
    {
      AfterToken(u, gap, tokens, next, d, m);
      TailAtCut(u, all, x, d, m);
    }
    TailIs(u, all, x, d, |gap|);
  }

  /** The first token, the underscores after it, and the rest. */
  lemma TypeParts(t: string) returns (w: string, gap: string, rest: string)
    requires Word(t) && t != "" && t[0] != '_'
    ensures t == w + gap + rest && |rest| < |t| && Fields(t) == [w] + Fields(rest)
    ensures forall i :: 0 <= i < |gap| ==> gap[i] == '_'
    ensures rest != "" ==> rest[0] != '_' && IsWordChar(rest[0])
    ensures Word(rest)
    ensures Runs(t) <==> if rest == "" then |gap| < MAX_DRIFT else |gap| <= MAX_DRIFT && Runs(rest)
    ensures rest == "" ==> [w] + Fields(rest) == [w]
  {
    hide *;
    var n := RunLen(t);
    var after := t[n..];
    var g := Gap(after);
    w, gap, rest := t[..n], after[..g], after[g..];
    CutTwice(t, n, g);
    GapIsUnderscores(after);
    FirstRun(t);
    RunsStep(t);
    FieldsSkipGap(after);
    if rest == "" { NoMoreFields(w); }
  }

  lemma CutTwice(t: string, n: nat, g: nat)
    requires n + g <= |t| && Word(t)
    ensures t == t[..n] + t[n..][..g] + t[n..][g..] && Word(t[n..][g..])
    ensures n + g < |t| ==> IsWordChar(t[n..][g])
  {
    hide IsWordChar;
  }

  lemma GapIsUnderscores(s: string)
    ensures var gap := s[..Gap(s)];
            forall i :: 0 <= i < |gap| ==> gap[i] == '_'
    ensures Gap(s) < |s| ==> s[Gap(s)] != '_'
  {
  }

  lemma FirstRun(t: string)
    requires t != "" && t[0] != '_'
    ensures 0 < RunLen(t) && Fields(t) == [t[..RunLen(t)]] + Fields(t[RunLen(t)..])
  {
    hide Fields;
    assert RunLen(t) == 1 + RunLen(t[1..]);
    assert Fields(t) == [t[..RunLen(t)]] + Fields(t[RunLen(t)..]) by { FieldsStep(t); }
  }

  lemma FieldsStep(t: string)
    requires t != "" && t[0] != '_'
    ensures Fields(t) == [t[..RunLen(t)]] + Fields(t[RunLen(t)..])
  {
    hide RunLen;
  }

  /** What follows the first token decides. */
  lemma RunsStep(t: string)
    requires t != ""
    ensures var (n, after) := (RunLen(t), t[RunLen(t)..]);
            Runs(t) <==> if Gap(after) == |after| then Gap(after) < MAX_DRIFT
                         else Gap(after) <= MAX_DRIFT && Runs(after[Gap(after)..])
  {
    hide Gap, RunLen;
  }

  lemma NoMoreFields(w: string)
    ensures [w] + Fields("") == [w]
  {
  }

  /** A type's rest from a token on, as the pattern reads it out of the canonical placeholder. */
  lemma {:induction false} TypeRead(u: Unicode, t: string, digits: string, d: string)
    requires u.Wf() && WordFolds(u) && Word(t) && t != "" && t[0] != '_' && Digits(digits) && digits != ""
    ensures Tail(u, Fields(t), t + ("_" + digits + ">"), d) <==> Runs(t) && d == digits && Index(digits)
    decreases |t|
  {
    hide *;
    var w, gap, rest := TypeParts(t);
    var end := "_" + digits + ">";
    if rest == "" {
      assert t == w + gap;
      LastTokenRead(u, w, gap, digits, d);
    } else {
      TypeRead(u, rest, digits, d);
      FirstField(rest);
      Reassociate(w + gap, rest, end);
      InnerTokenRead(u, w, gap, Fields(rest), rest + end, d);
    }
  }

  lemma FirstField(t: string)
    requires t != "" && t[0] != '_'
    ensures Fields(t) != [] && Fields(t)[0] != "" && Fields(t)[0][0] == t[0]
  {
  }

  lemma TailAtCut(u: Unicode, tokens: seq<string>, s: string, d: string, m: nat)
    requires tokens != [] && |tokens[0]| <= |s| && Variant(u, tokens[0], s[..|tokens[0]|])
    ensures var y := s[|tokens[0]|..];
            TailAt(u, tokens, s, d, m) <==> m <= |y| && Separators(y[..m]) && Tail(u, tokens[1..], y[m..], d)
  {
    hide Tail, Separators;
    var k := |tokens[0]|;
    if k + m <= |s| {
      DropDrop(s, k, m);
      assert s[k..][..m] == s[k..k + m];
    }
  }

  lemma TailIs(u: Unicode, tokens: seq<string>, s: string, d: string, n: nat)
    requires tokens != [] && forall m: nat :: m != n ==> !TailAt(u, tokens, s, d, m)
    ensures Tail(u, tokens, s, d) <==> TailAt(u, tokens, s, d, n)
  {
    hide TailAt;
  }

  lemma {:induction false} DecLength(n: nat)
    ensures |Dec(n)| <= 1 <==> n < 10
    ensures |Dec(n)| <= 2 <==> n < 100
    ensures |Dec(n)| <= 3 <==> n < 1_000
    ensures |Dec(n)| <= 4 <==> n < 10_000
    ensures |Dec(n)| <= 5 <==> n < 100_000
    ensures |Dec(n)| <= 6 <==> n < 1_000_000
    ensures |Dec(n)| <= 7 <==> n < 10_000_000
    ensures |Dec(n)| <= 8 <==> n < 100_000_000
    ensures |Dec(n)| <= 9 <==> n < INDEX_LIMIT
    decreases n
  {
    if n >= 10 { DecLength(n / 10); }
  }

  /** A type of underscores only is its own, literal token. */
  lemma UnderscoreType(u: Unicode, typ: string, digits: string, d: string)
    requires u.Wf() && WordFolds(u) && Digits(digits) && digits != "" && Gap(typ) == |typ|
    ensures Tail(u, [typ], typ + ("_" + digits + ">"), d) <==> d == digits && Index(digits)
  {
    hide Tail, Index, Separators;
    var x := typ + ("_" + digits + ">");
    SelfVariant(u, typ);
    assert x[..|typ|] == typ && x[|typ|..] == "_" + (digits + ">") && [typ][1..] == [];
    forall m: nat
      ensures TailAt(u, [typ], x, d, m) <==> m == 1 && d == digits && Index(digits)
    {
      AfterLastToken(u, "_", digits, d, m);
      TailAtCut(u, [typ], x, d, m);
    }
    TailIs(u, [typ], x, d, 1);
  }

  lemma {:induction false} NoFields(s: string)
    ensures Fields(s) == [] <==> Gap(s) == |s|
    decreases |s|
  {
    if s != "" && s[0] == '_' { NoFields(s[1..]); }
  }

  /**
   The pattern accepts a type's canonical placeholder if and only if the type is all underscores, or
   starts with none, has inner runs of at most three and ends in at most two of them, and the index
   is below 10^9; the index read back is the one printed.
   */
  lemma CanonicalAccepted(u: Unicode, typ: string, index: nat, d: string)
    requires u.Wf() && WordFolds(u) && WordType(typ)
    ensures Accepted(u, typ, Format(typ, index), d) <==> Regular(typ) && index < INDEX_LIMIT && d == Dec(index)
  {
    hide Tail, InClass, Runs, Dec;
    var digits, s := Dec(index), Format(typ, index);
    var x := typ + ("_" + digits + ">");
    DecLength(index);
    assert s == "<" + x && s[1..] == x && s[1] == typ[0];
    NotSpace(u, typ[0]);
    forall n: nat
      ensures AcceptedAt(u, typ, s, d, n) ==> n == 0
    {
      FirstSpace(s, n);
    }
    assert s[1..1 + 0] == "";
    assert Accepted(u, typ, s, d) <==> AcceptedAt(u, typ, s, d, 0);
    NoFields(typ);
    if Gap(typ) == |typ| {
      UnderscoreType(u, typ, digits, d);
    } else if Gap(typ) == 0 {
      TypeRead(u, typ, digits, d);
    } else {
      LeadingUnderscore(u, typ, x, d);
    }
  }

  lemma FirstSpace(s: string, n: nat)
    ensures 0 < n && 1 + n <= |s| && Spaces(s[1..1 + n]) ==> InClass(SPACES, s[1])
  {
    hide InClass;
    if 0 < n && 1 + n <= |s| && Spaces(s[1..1 + n]) {
      assert s[1..1 + n][0] == s[1];
    }
  }

  lemma NotSpace(u: Unicode, c: char)
    requires u.Wf() && WordFolds(u) && IsWordChar(c)
    ensures !InClass(SPACES, c)
  {
    WordSeparators(u, c);
  }

  lemma LeadingUnderscore(u: Unicode, typ: string, x: string, d: string)
    requires u.Wf() && WordFolds(u) && WordType(typ) && 0 < Gap(typ) < |typ| && typ <= x
    ensures !Tail(u, Tokens(typ), x, d)
  {
    hide Tail, InClass;
    var rest := typ[Gap(typ)..];
    FieldsSkipGap(typ);
    FirstField(rest);
    WordSeparators(u, '_');
    assert x[0] == typ[0] == '_';
    if Tail(u, Tokens(typ), x, d) {
      TailStarts(u, Tokens(typ), x, d);
    }
  }
}
