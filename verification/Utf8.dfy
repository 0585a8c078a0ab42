/**
 UTF-8 (RFC 3629 section 3) on byte strings, one `char` per byte, and the demasker's search for
 a cut that does not split an encoded character.
 */
module Utf8 {

  predicate IsContinuation(c: char) {
    0x80 <= c as int < 0xC0
  }

  /** Go's utf8.RuneStart: the byte may begin an encoded character. */
  predicate RuneStart(c: char) {
    !IsContinuation(c)
  }

  predicate ByteIn(c: char, lo: int, hi: int) {
    lo <= c as int <= hi
  }

  /** Bytes the lead byte calls for, or 0 when no well-formed character begins with it. */
  function Width(lead: char): nat {
    if lead as int < 0x80 then 1
    else if ByteIn(lead, 0xC2, 0xDF) then 2
    else if ByteIn(lead, 0xE0, 0xEF) then 3
    else if ByteIn(lead, 0xF0, 0xF4) then 4
    else 0
  }

  /** The second byte's range depends on the lead byte (RFC 3629 section 4). */
  predicate SecondOk(lead: char, c: char) {
    && IsContinuation(c)
    && (lead as int == 0xE0 ==> c as int >= 0xA0)
    && (lead as int == 0xED ==> c as int < 0xA0)
    && (lead as int == 0xF0 ==> c as int >= 0x90)
    && (lead as int == 0xF4 ==> c as int < 0x90)
  }

  /** `s` starts with the first `k` bytes of a well-formed character. */
  predicate StartsRune(s: string, k: nat)
    requires k <= |s|
  {
    && (k > 1 ==> SecondOk(s[0], s[1]))
    && (k > 2 ==> IsContinuation(s[2]))
    && (k > 3 ==> IsContinuation(s[3]))
  }

  /** Byte length of the well-formed character at the head of `s`, or 0. */
  function RuneLen(s: string): (n: nat)
    ensures n <= |s| && n <= 4
  {
    if s == "" then 0 else
      var w := Width(s[0]);
      if 0 < w <= |s| && StartsRune(s, w) then w else 0
  }

  /** The size utf8.DecodeRuneInString reports: ill-formed input is consumed byte by byte. */
  function DecodeSize(s: string): (n: nat)
    requires s != ""
    ensures 0 < n <= |s| && n <= 4
  {
    if RuneLen(s) > 0 then RuneLen(s) else 1
  }

  predicate Valid(s: string)
    decreases |s|
  {
    s == "" || (RuneLen(s) > 0 && Valid(s[RuneLen(s)..]))
  }

  lemma RuneLenAppend(a: string, b: string)
    requires RuneLen(a) > 0
    ensures RuneLen(a + b) == RuneLen(a)
  {
    assert (a + b)[..|a|] == a;
  }

  lemma {:induction false} ValidAppend(a: string, b: string)
    requires Valid(a)
    ensures Valid(a + b) <==> Valid(b)
    decreases |a|
  {
    if a == "" {
      assert a + b == b;
    } else {
      var n := RuneLen(a);
      RuneLenAppend(a, b);
      assert (a + b)[n..] == a[n..] + b;
      ValidAppend(a[n..], b);
    }
  }

  /** An ASCII byte always stands at a character boundary, and so does what follows it. */
  lemma {:induction false} ValidAfterAscii(a: string, c: char, b: string)
    requires c as int < 0x80 && Valid(a + [c] + b)
    ensures Valid(a) && Valid(b)
    decreases |a|
  {
    var s := a + [c] + b;
    var n := RuneLen(s);
    if a == "" {
      assert s[0] == c;
      assert s[1..] == b;
    } else {
      assert s[0] == a[0] && s[|a|] == c;
      assert n <= |a|;
      assert s[n..] == a[n..] + [c] + b;
      ValidAfterAscii(a[n..], c, b);
      assert s[..|a|] == a;
      assert RuneLen(a) == n;
    }
  }

  /**
   Scans back from `end` to the start of the character that holds byte `end - 1` and keeps that
   character whole: the cut is `end` when the character ends there, its start otherwise.
   */
  method SafePrefixEnd(s: string, end: int) returns (cut: nat)
    ensures cut == SafeCut(s, end)
  {
    if end <= 0 {
      return 0;
    }
    if end >= |s| {
      return |s|;
    }
    var i := end - 1;
    while i >= 0 && !RuneStart(s[i])
      invariant -1 <= i < end
      invariant LastStart(s, end) == LastStart(s, i + 1)
    {
      i := i - 1;
    }
    if i < 0 {
      return 0;
    }
    if i + DecodeSize(s[i..]) <= end {
      return end;
    }
    return i;
  }

  /** Position of the last byte before `end` that may begin a character, or -1. */
  function LastStart(s: string, end: nat): (i: int)
    requires end <= |s|
    ensures -1 <= i < end
  {
    if end == 0 then -1
    else if RuneStart(s[end - 1]) then end - 1
    else LastStart(s, end - 1)
  }

  function SafeCut(s: string, end: int): (cut: nat)
    ensures cut <= |s|
    ensures end <= |s| ==> cut <= if end < 0 then 0 else end
  {
    if end <= 0 then 0
    else if end >= |s| then |s|
    else
      var i := LastStart(s, end);
      if i < 0 then 0
      else if i + DecodeSize(s[i..]) <= end then end
      else i
  }

  /** Some byte before `end` may begin a character. */
  predicate StartsBefore(s: string, end: int)
  {
    exists k: nat :: k < end && k < |s| && RuneStart(s[k])
  }

  lemma {:induction false} LastStartFound(s: string, end: nat)
    requires end <= |s|
    ensures LastStart(s, end) >= 0 <==> StartsBefore(s, end)
    ensures LastStart(s, end) >= 0 ==> RuneStart(s[LastStart(s, end)])
  {
    if end > 0 && !RuneStart(s[end - 1]) {
      LastStartFound(s, end - 1);
    }
  }

  /**
   What a cut `m` bytes before the end leaves behind it: those bytes, and at most three more of the
   character in its way, if and only if some byte before them may begin a character.
   */
  lemma CutLeaves(s: string, m: nat)
    ensures var left := |s| - SafeCut(s, |s| - m);
            && (left >= m || left == |s|)
            && (left <= m + 3 <==> |s| <= m + 3 || m == 0 || StartsBefore(s, |s| - m))
  {
    hide RuneLen;
    if |s| > m { LastStartFound(s, |s| - m); }
  }

  /** `i` lies between two characters of `s`. */
  predicate Boundary(s: string, i: nat)
    requires i <= |s|
    decreases |s|
  {
    i == 0 || (0 < RuneLen(s) <= i && Boundary(s[RuneLen(s)..], i - RuneLen(s)))
  }

  lemma RunePrefix(s: string, i: nat)
    requires 0 < RuneLen(s) <= i <= |s|
    ensures RuneLen(s[..i]) == RuneLen(s)
  {
  }

  lemma {:induction false} BoundarySplits(s: string, i: nat)
    requires Valid(s) && i <= |s| && Boundary(s, i)
    ensures Valid(s[..i]) && Valid(s[i..])
    decreases |s|
  {
    if i == 0 {
      assert s[0..] == s && s[..0] == "";
    } else {
      hide Width;
      var n := RuneLen(s);
      RunePrefix(s, i);
      BoundarySplits(s[n..], i - n);
      assert s[n..][i - n..] == s[i..];
      assert s[..i][n..] == s[n..][..i - n];
    }
  }

  /** The start of the character that byte `p` of a valid text belongs to. */
  lemma {:induction false} RuneAt(s: string, p: nat) returns (b: nat)
    requires Valid(s) && p < |s|
    ensures b <= p < b + RuneLen(s[b..])
    ensures Boundary(s, b) && Boundary(s, b + RuneLen(s[b..]))
    decreases |s|
  {
    var n := RuneLen(s);
    if p < n {
      b := 0;
      assert s[0..] == s;
      assert Boundary(s[n..], 0);
    } else {
      b := RuneAt(s[n..], p - n);
      assert s[n..][b..] == s[n + b..];
      b := n + b;
    }
  }

  lemma {:induction false} LastStartIs(s: string, end: nat, b: nat)
    requires b < end <= |s| && RuneStart(s[b])
    requires forall k :: b < k < end ==> IsContinuation(s[k])
    ensures LastStart(s, end) == b
  {
    if end - 1 != b {
      LastStartIs(s, end - 1, b);
    }
  }

  lemma RuneBytes(s: string)
    requires RuneLen(s) > 0
    ensures RuneStart(s[0]) && forall k :: 0 < k < RuneLen(s) ==> IsContinuation(s[k])
  {
  }

  /**
   The cut falls between characters, for every text that is the beginning of a valid one, as
   long as at least three bytes (the longest possible stub of a character) follow `end`.
   */
  lemma CutIsBoundary(s: string, end: int, more: string)
    requires Valid(s + more) && end + 3 <= |s|
    ensures Valid(s[..SafeCut(s, end)]) && Valid(s[SafeCut(s, end)..] + more)
  {
    hide RuneLen, Valid, Boundary, LastStart;
    var cut, t := SafeCut(s, end), s + more;
    if end <= 0 {
      assert s[0..] == s && s[..0] == "";
      ValidEmpty();
    } else {
      var b := RuneAt(t, end - 1);
      CutAtRune(s, end, more, b);
      BoundarySplits(t, cut);
      assert t[..cut] == s[..cut] && t[cut..] == s[cut..] + more;
    }
  }

  lemma ValidEmpty()
    ensures Valid("")
  {
  }

  lemma CutAtRune(s: string, end: nat, more: string, b: nat)
    requires 0 < end && end + 3 <= |s|
    requires b < end <= b + RuneLen((s + more)[b..])
    ensures SafeCut(s, end) == b || SafeCut(s, end) == b + RuneLen((s + more)[b..])
  {
    var r := (s + more)[b..];
    var n := RuneLen(r);
    RuneBytes(r);
    forall k | b <= k < end
      ensures s[k] == r[k - b]
    {
    }
    LastStartIs(s, end, b);
    assert |s[b..]| >= 4 && r == s[b..] + more;
    assert s[b..][..4] == r[..4];
    assert DecodeSize(s[b..]) == n;
  }
}
