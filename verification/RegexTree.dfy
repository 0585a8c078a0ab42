/**
 Parsed regular expressions and the strings they match.  Here a text is a sequence of runes, one
 `char` per rune.
 */
module RegexTree {
  import opened Text

  /** The nodes of a simplified syntax tree. */
  datatype Regex =
    | EmptyMatch
    | Assertion
    | NoMatch
    | Literal(runes: string, foldCase: bool)
    | CharClass(ranges: seq<(char, char)>)
    | AnyCharNotNL
    | AnyChar
    | Star(sub: Regex)
    | Plus(sub: Regex)
    | Quest(sub: Regex)
    | Repeat(sub: Regex, min: nat, max: int)
    | Concat(subs: seq<Regex>)
    | Alternate(subs: seq<Regex>)
    | Capture(subs: seq<Regex>)

  /** The Unicode case tables: lower-casing, and the cyclic order within a fold orbit. */
  datatype Unicode = Unicode(lower: char -> char, fold: char -> char, period: char -> nat)
  {
    /** Folding a rune `period` times, and not before, leads back to it. */
    ghost predicate Wf() {
      forall r :: period(r) >= 1 && Spin(r, period(r)) == r && forall i :: 0 < i < period(r) ==> Spin(r, i) != r
    }

    function Spin(r: char, n: nat): char {
      if n == 0 then r else fold(Spin(r, n - 1))
    }

    /** `c` is a case variant of `r`. */
    predicate InOrbit(c: char, r: char) {
      exists i :: 0 <= i < period(r) && Spin(r, i) == c
    }
  }

  predicate InClass(ranges: seq<(char, char)>, c: char) {
    exists i :: 0 <= i < |ranges| && ranges[i].0 <= c <= ranges[i].1
  }

  /** `s` is a concatenation of strings matched by `re`. */
  ghost predicate Repeated(u: Unicode, re: Regex, s: string, min: nat, max: int)
    decreases re, 1
  {
    exists parts: seq<string> ::
      Join(parts) == s && min <= |parts| && (max < 0 || |parts| <= max)
      && forall i :: 0 <= i < |parts| ==> Matches(u, re, parts[i])
  }

  /** The language of a tree.  Assertions consume nothing; where they hold is not modelled. */
  ghost predicate Matches(u: Unicode, re: Regex, s: string)
    decreases re, 0
  {
    match re
    case EmptyMatch => s == ""
    case Assertion => s == ""
    case NoMatch => false
    case Literal(runes, foldCase) =>
      |s| == |runes| && forall i :: 0 <= i < |s| ==> if foldCase then u.InOrbit(s[i], runes[i]) else s[i] == runes[i]
    case CharClass(ranges) => |s| == 1 && InClass(ranges, s[0])
    case AnyCharNotNL => |s| == 1 && s[0] != '\n'
    case AnyChar => |s| == 1
    case Star(sub) => Repeated(u, sub, s, 0, -1)
    case Plus(sub) => Repeated(u, sub, s, 1, -1)
    case Quest(sub) => s == "" || Matches(u, sub, s)
    case Repeat(sub, min, max) => Repeated(u, sub, s, min, max)
    case Concat(subs) =>
      exists parts: seq<string> ::
        Join(parts) == s && |parts| == |subs| && forall i :: 0 <= i < |subs| ==> Matches(u, subs[i], parts[i])
    case Alternate(subs) => exists i :: 0 <= i < |subs| && Matches(u, subs[i], s)
    case Capture(subs) => if subs == [] then s == "" else Matches(u, subs[0], s)
  }

  /** One part of a concatenation, with what stands around it. */
  lemma {:induction false} JoinAt(parts: seq<string>, i: nat) returns (before: string, after: string)
    requires i < |parts|
    ensures Join(parts) == before + parts[i] + after
  {
    before, after := Join(parts[..i]), Join(parts[i + 1..]);
    assert parts == parts[..i] + ([parts[i]] + parts[i + 1..]);
    JoinAppend(parts[..i], [parts[i]] + parts[i + 1..]);
    assert ([parts[i]] + parts[i + 1..])[1..] == parts[i + 1..];
    Reassociate(before, parts[i], after);
  }

  lemma ConcatParts(u: Unicode, subs: seq<Regex>, s: string) returns (parts: seq<string>)
    requires Matches(u, Concat(subs), s)
    ensures Join(parts) == s && |parts| == |subs| && forall i :: 0 <= i < |subs| ==> Matches(u, subs[i], parts[i])
  {
    parts :| Join(parts) == s && |parts| == |subs| && forall i :: 0 <= i < |subs| ==> Matches(u, subs[i], parts[i]);
  }

  lemma ConcatOf(u: Unicode, subs: seq<Regex>, parts: seq<string>)
    requires |parts| == |subs| && forall i :: 0 <= i < |subs| ==> Matches(u, subs[i], parts[i])
    ensures Matches(u, Concat(subs), Join(parts))
  {
  }
}
