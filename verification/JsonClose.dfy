/** Detecting where a streamed JSON object closes. */
module JsonClose {
  import opened Text

  /** What the tracker remembers between bytes. */
  datatype Track = Track(depth: int, inString: bool, escaped: bool, started: bool)

  const FRESH := Track(0, false, false, false)

  function Next(t: Track, ch: char): Track {
    if t.escaped then t.(escaped := false)
    else if ch == '\\' then t.(escaped := true)
    else if ch == '"' then t.(inString := !t.inString)
    else if t.inString then t
    else if ch == '{' then t.(depth := t.depth + 1, started := true)
    else if ch == '}' then t.(depth := t.depth - 1)
    else t
  }

  /** This byte brings an opened object back to depth 0. */
  predicate ClosesAt(t: Track, ch: char) {
    !t.escaped && !t.inString && ch == '}' && t.started && t.depth == 1
  }

  function Run(t: Track, s: string): Track
    decreases s
  {
    if s == "" then t else Run(Next(t, s[0]), s[1..])
  }

  predicate Closes(t: Track, s: string)
    decreases s
  {
    s != "" && (ClosesAt(t, s[0]) || Closes(Next(t, s[0]), s[1..]))
  }

  /** The state depends only on the text fed so far, not on where it was cut. */
  lemma {:induction false} RunAppend(t: Track, a: string, b: string)
    ensures Run(t, a + b) == Run(Run(t, a), b)
    ensures Closes(t, a + b) <==> Closes(t, a) || Closes(Run(t, a), b)
    decreases a
  {
    if a == "" {
      assert a + b == b;
    } else {
      assert (a + b)[1..] == a[1..] + b;
      RunAppend(Next(t, a[0]), a[1..], b);
    }
  }

  class CloseTracker {
    var depth: int
    var inString: bool
    var escaped: bool
    var started: bool

    ghost function State(): Track
      reads this
    {
      Track(depth, inString, escaped, started)
    }

    constructor ()
      ensures State() == FRESH
    {
      depth, inString, escaped, started := 0, false, false, false;
    }

    /** Consumes one fragment and reports whether the object closed within it. */
    method Feed(s: string) returns (closedHere: bool)
      modifies this
      ensures State() == Run(old(State()), s)
      ensures closedHere == Closes(old(State()), s)
    {
      closedHere := false;
      var i := 0;
      while i < |s|
        invariant 0 <= i <= |s|
        invariant Run(State(), s[i..]) == Run(old(State()), s)
        invariant (closedHere || Closes(State(), s[i..])) == Closes(old(State()), s)
      {
        hide *;
        var ch := s[i];
        ghost var before := State();
        OneByte(before, s, i);
        i := i + 1;
        if escaped {
          escaped := false;
          continue;
        }
        if ch == '\\' {
          escaped := true;
          continue;
        }
        if ch == '"' {
          inString := !inString;
          continue;
        }
        if inString {
          continue;
        }
        if ch == '{' {
          depth := depth + 1;
          started := true;
        } else if ch == '}' {
          depth := depth - 1;
          if started && depth == 0 {
            closedHere := true;
          }
        }
      }
    }
  }

  lemma OneByte(t: Track, s: string, i: nat)
    requires i < |s|
    ensures Run(t, s[i..]) == Run(Next(t, s[i]), s[i + 1..])
    ensures Closes(t, s[i..]) <==> ClosesAt(t, s[i]) || Closes(Next(t, s[i]), s[i + 1..])
  {
    assert s[i..][1..] == s[i + 1..];
  }

  // ---- printed JSON (RFC 8259) ----

  /**
   A JSON value as written: `gap`s are whitespace, string bodies and scalars are raw text.  An
   object's member is its key body, the gap before the colon, and the value in its own gaps.
   */
  datatype Json =
    | Scalar(text: string)
    | Str(body: string)
    | Arr(gap: string, items: Items)
    | Obj(gap: string, members: Members)
  datatype Items = NoItems | Item(before: string, value: Json, after: string, items: Items)
  datatype Members =
    | NoMembers
    | Member(gap: string, key: string, beforeColon: string, before: string, value: Json, after: string, members: Members)

  predicate Whitespace(s: string) {
    forall c :: c in s ==> c == ' ' || c == '\t' || c == '\n' || c == '\r'
  }

  /** A literal name, or text over the characters of a number. */
  predicate ScalarText(s: string) {
    s in {"true", "false", "null"} || forall c :: c in s ==> c in "+-.eE0123456789"
  }

  /** No raw quote, and every backslash followed by the character it escapes. */
  predicate StringBody(s: string) {
    s == "" ||
    if s[0] == '\\' then |s| >= 2 && StringBody(s[2..]) else s[0] != '"' && StringBody(s[1..])
  }

  predicate WellFormed(v: Json) {
    match v
    case Scalar(text) => ScalarText(text)
    case Str(body) => StringBody(body)
    case Arr(gap, items) => Whitespace(gap) && WellFormedItems(items)
    case Obj(gap, members) => Whitespace(gap) && WellFormedMembers(members)
  }

  predicate WellFormedItems(xs: Items) {
    match xs
    case NoItems => true
    case Item(before, value, after, items) =>
      Whitespace(before) && WellFormed(value) && Whitespace(after) && WellFormedItems(items)
  }

  predicate WellFormedMembers(ms: Members) {
    match ms
    case NoMembers => true
    case Member(gap, key, beforeColon, before, value, after, members) =>
      && Whitespace(gap) && StringBody(key) && Whitespace(beforeColon) && Whitespace(before)
      && WellFormed(value) && Whitespace(after) && WellFormedMembers(members)
  }

  function Print(v: Json): string {
    match v
    case Scalar(text) => text
    case Str(body) => "\"" + body + "\""
    case Arr(gap, items) => "[" + gap + PrintItems(items) + "]"
    case Obj(gap, members) => "{" + gap + PrintMembers(members) + "}"
  }

  function PrintItems(xs: Items): string {
    match xs
    case NoItems => ""
    case Item(before, value, after, items) =>
      before + (Print(value) + (after + ((if items.Item? then "," else "") + PrintItems(items))))
  }

  function PrintMembers(ms: Members): string {
    match ms
    case NoMembers => ""
    case Member(gap, key, beforeColon, before, value, after, members) =>
      gap + (("\"" + key + "\"") + (beforeColon + (":" + (before + (Print(value) +
      (after + ((if members.Member? then "," else "") + PrintMembers(members))))))))
  }

  // ---- text that leaves the tracker where it was ----

  /** Outside strings, inside an object: `s` neither moves the tracker nor closes the object. */
  ghost predicate Level(s: string) {
    forall d: int :: d >= 1 ==> Run(Track(d, false, false, true), s) == Track(d, false, false, true)
                                && !Closes(Track(d, false, false, true), s)
  }

  lemma LevelAppend(a: string, b: string)
    requires Level(a) && Level(b)
    ensures Level(a + b)
  {
    forall d: int | d >= 1
      ensures Run(Track(d, false, false, true), a + b) == Track(d, false, false, true)
              && !Closes(Track(d, false, false, true), a + b)
    {
      RunAppend(Track(d, false, false, true), a, b);
    }
  }

  predicate Neutral(s: string) {
    forall c :: c in s ==> c != '"' && c != '\\' && c != '{' && c != '}'
  }

  lemma {:induction false} NeutralLevel(s: string)
    requires Neutral(s)
    ensures Level(s)
  {
    if s != "" {
      assert forall c :: c in s[1..] ==> c in s;
      assert s[0] in s;
      NeutralLevel(s[1..]);
    }
  }

  lemma SpaceLevel(s: string)
    requires Whitespace(s)
    ensures Level(s)
  {
    hide Level;
    NeutralLevel(s);
  }

  lemma ScalarLevel(s: string)
    requires ScalarText(s)
    ensures Level(s)
  {
    hide Level;
    assert Neutral("true") && Neutral("false") && Neutral("null") && Neutral("+-.eE0123456789");
    NeutralLevel(s);
  }

  lemma {:induction false} BodyRun(d: int, s: string)
    requires StringBody(s)
    ensures Run(Track(d, true, false, true), s) == Track(d, true, false, true)
    ensures !Closes(Track(d, true, false, true), s)
  {
    if s != "" {
      if s[0] == '\\' {
        BodyRun(d, s[2..]);
        assert s[1..][1..] == s[2..];
      } else {
        BodyRun(d, s[1..]);
      }
    }
  }

  lemma StringLevel(s: string)
    requires StringBody(s)
    ensures Level("\"" + s + "\"")
  {
    hide StringBody;
    forall d: int | d >= 1
      ensures Run(Track(d, false, false, true), "\"" + s + "\"") == Track(d, false, false, true)
              && !Closes(Track(d, false, false, true), "\"" + s + "\"")
    {
      BodyRun(d, s);
      Quote(d);
      RunAppend(Track(d, false, false, true), "\"", s);
      RunAppend(Track(d, false, false, true), "\"" + s, "\"");
    }
  }

  lemma Quote(d: int)
    ensures Run(Track(d, false, false, true), "\"") == Track(d, true, false, true)
    ensures Run(Track(d, true, false, true), "\"") == Track(d, false, false, true)
    ensures !Closes(Track(d, false, false, true), "\"") && !Closes(Track(d, true, false, true), "\"")
  {
    assert "\""[1..] == "";
  }

  lemma Braces(d: int)
    ensures Run(Track(d, false, false, true), "{") == Track(d + 1, false, false, true)
    ensures Run(Track(d, false, false, true), "}") == Track(d - 1, false, false, true)
    ensures !Closes(Track(d, false, false, true), "{")
    ensures Closes(Track(d, false, false, true), "}") <==> d == 1
  {
    assert "{"[1..] == "" && "}"[1..] == "";
  }

  /** A nested object is level: its own braces cancel. */
  lemma ObjectLevel(inner: string)
    requires Level(inner)
    ensures Level("{" + inner + "}")
  {
    hide Run, Closes;
    forall d: int | d >= 1
      ensures Run(Track(d, false, false, true), "{" + inner + "}") == Track(d, false, false, true)
              && !Closes(Track(d, false, false, true), "{" + inner + "}")
    {
      var t := Track(d, false, false, true);
      Braces(d);
      Braces(d + 1);
      RunAppend(t, "{", inner);
      RunAppend(t, "{" + inner, "}");
    }
  }

  lemma {:induction false} ValueLevel(v: Json)
    requires WellFormed(v)
    ensures Level(Print(v))
    decreases v
  {
    hide Level, StringBody, ScalarText, Whitespace;
    match v
    case Scalar(text) => ScalarLevel(text);
    case Str(body) => StringLevel(body);
    case Arr(gap, items) =>
      ItemsLevel(items);
      SpaceLevel(gap);
      NeutralLevel("[");
      NeutralLevel("]");
      LevelAppend("[", gap);
      LevelAppend("[" + gap, PrintItems(items));
      LevelAppend("[" + gap + PrintItems(items), "]");
    case Obj(gap, members) =>
      MembersLevel(members);
      SpaceLevel(gap);
      LevelAppend(gap, PrintMembers(members));
      ObjectLevel(gap + PrintMembers(members));
      assert "{" + gap + PrintMembers(members) + "}" == "{" + (gap + PrintMembers(members)) + "}";
  }

  lemma {:induction false} ItemsLevel(xs: Items)
    requires WellFormedItems(xs)
    ensures Level(PrintItems(xs))
    decreases xs
  {
    hide Level;
    match xs
    case NoItems => NeutralLevel("");
    case Item(before, value, after, items) =>
      var comma := if items.Item? then "," else "";
      ItemsLevel(items);
      ValueLevel(value);
      NeutralLevel(comma);
      SpaceLevel(before);
      SpaceLevel(after);
      LevelAppend(comma, PrintItems(items));
      LevelAppend(after, comma + PrintItems(items));
      LevelAppend(Print(value), after + (comma + PrintItems(items)));
      LevelAppend(before, Print(value) + (after + (comma + PrintItems(items))));
  }

  lemma {:induction false} MembersLevel(ms: Members)
    requires WellFormedMembers(ms)
    ensures Level(PrintMembers(ms))
    decreases ms
  {
    hide Level;
    match ms
    case NoMembers => NeutralLevel("");
    case Member(gap, key, beforeColon, before, value, after, members) =>
      var comma := if members.Member? then "," else "";
      MembersLevel(members);
      ValueLevel(value);
      StringLevel(key);
      NeutralLevel(comma);
      NeutralLevel(":");
      SpaceLevel(gap);
      SpaceLevel(beforeColon);
      SpaceLevel(before);
      SpaceLevel(after);
      var tail := after + (comma + PrintMembers(members));
      LevelAppend(comma, PrintMembers(members));
      LevelAppend(after, comma + PrintMembers(members));
      LevelAppend(Print(value), tail);
      LevelAppend(before, Print(value) + tail);
      LevelAppend(":", before + (Print(value) + tail));
      LevelAppend(beforeColon, ":" + (before + (Print(value) + tail)));
      LevelAppend("\"" + key + "\"", beforeColon + (":" + (before + (Print(value) + tail))));
      LevelAppend(gap, ("\"" + key + "\"") + (beforeColon + (":" + (before + (Print(value) + tail)))));
  }

  // ---- the top-level object ----

  /** A printed object closes with its last byte and not before. */
  lemma ObjectCloses(v: Json)
    requires v.Obj? && WellFormed(v)
    ensures var s := Print(v);
            s != "" && !Closes(FRESH, s[..|s| - 1]) && Closes(FRESH, s)
            && Run(FRESH, s) == Track(0, false, false, true)
  {
    hide Run, Closes;
    var s, inner := Print(v), v.gap + PrintMembers(v.members);
    MembersLevel(v.members);
    SpaceLevel(v.gap);
    LevelAppend(v.gap, PrintMembers(v.members));
    OpenBrace();
    Braces(1);
    RunAppend(FRESH, "{", inner);
    RunAppend(FRESH, "{" + inner, "}");
    assert s == "{" + inner + "}";
    assert s[..|s| - 1] == "{" + inner;
  }

  lemma OpenBrace()
    ensures Run(FRESH, "{") == Track(1, false, false, true) && !Closes(FRESH, "{")
  {
    assert "{"[1..] == "";
  }

  /** What Feed answers for each fragment. */
  function Answers(t: Track, fragments: seq<string>): (r: seq<bool>)
    ensures |r| == |fragments|
    decreases fragments
  {
    if fragments == [] then []
    else [Closes(t, fragments[0])] + Answers(Run(t, fragments[0]), fragments[1..])
  }

  lemma {:induction false} NothingLeft(t: Track, fragments: seq<string>)
    requires Join(fragments) == ""
    ensures forall i :: 0 <= i < |fragments| ==> !Answers(t, fragments)[i]
    decreases fragments
  {
    if fragments != [] { NothingLeft(Run(t, fragments[0]), fragments[1..]); }
  }

  lemma PrefixOpen(t: Track, s: string, k: nat)
    requires k < |s| && !Closes(t, s[..|s| - 1])
    ensures !Closes(t, s[..k])
    ensures Closes(t, s) ==> Closes(Run(t, s[..k]), s[k..])
    ensures !Closes(Run(t, s[..k]), s[k..|s| - 1])
  {
    hide Closes, Run;
    assert s[..|s| - 1] == s[..k] + s[k..|s| - 1];
    assert s == s[..k] + s[k..];
    RunAppend(t, s[..k], s[k..|s| - 1]);
    RunAppend(t, s[..k], s[k..]);
  }

  lemma HeadJoin(fragments: seq<string>, i: nat)
    requires 0 < i <= |fragments|
    ensures Join(fragments[..i]) == fragments[0] + Join(fragments[1..][..i - 1])
  {
    assert fragments[..i][1..] == fragments[1..][..i - 1];
  }

  /** The tracker answers yes for exactly the fragment that brings the last byte. */
  lemma {:induction false} ClosesInLast(t: Track, s: string, fragments: seq<string>, i: nat)
    requires s != "" && Closes(t, s) && !Closes(t, s[..|s| - 1])
    requires Join(fragments) == s && i < |fragments|
    ensures Answers(t, fragments)[i] <==> |Join(fragments[..i])| < |s| <= |Join(fragments[..i + 1])|
    decreases i
  {
    hide Closes, Run;
    var f, rest := fragments[0], fragments[1..];
    HeadJoin(fragments, i + 1);
    assert s == f + Join(rest) && s[..|f|] == f && s[|f|..] == Join(rest);
    if |f| == |s| {
      assert f == s;
      NothingLeft(Run(t, f), rest);
      if i > 0 { HeadJoin(fragments, i); }
    } else {
      PrefixOpen(t, s, |f|);
      if i > 0 {
        HeadJoin(fragments, i);
        var tail := Join(rest);
        assert s[|f|..|s| - 1] == tail[..|tail| - 1];
        ClosesInLast(Run(t, f), tail, rest, i - 1);
      }
    }
  }

  /**
   For every printed JSON object, in any fragmentation, Feed answers yes for exactly the fragment
   that holds the final brace.
   */
  lemma ObjectCloseDetected(v: Json, fragments: seq<string>, i: nat)
    requires v.Obj? && WellFormed(v) && Join(fragments) == Print(v) && i < |fragments|
    ensures Answers(FRESH, fragments)[i]
            <==> |Join(fragments[..i])| < |Print(v)| <= |Join(fragments[..i + 1])|
  {
    hide Closes, Run;
    ObjectCloses(v);
    ClosesInLast(FRESH, Print(v), fragments, i);
  }
}
