/** Reading and writing named-event SSE frames. */
module EventFrame {
  import opened Text
  import opened Framing

  const EVENT_PREFIX := "event: "
  const DATA_PREFIX := "data: "
  const DATA_LINE_PREFIX := "data:"
  const DONE_SENTINEL := "[DONE]"

  datatype Frame = Done | Passthrough | Event(name: string, data: string)

  // ---- lines ----

  /** The next line without its newline, and what follows. */
  function NextLine(buf: string): (r: (string, string))
    ensures '\n' !in r.0
    ensures buf == r.0 + r.1 || buf == r.0 + "\n" + r.1
    ensures buf != "" ==> |r.1| < |buf|
    ensures |r.0| + |r.1| <= |buf|
  {
    if buf == "" then ("", "")
    else if buf[0] == '\n' then ("", buf[1..])
    else
      var (line, rest) := NextLine(buf[1..]);
      ([buf[0]] + line, rest)
  }

  lemma {:induction false} NextLineOf(line: string, rest: string)
    requires '\n' !in line
    ensures NextLine(line + "\n" + rest) == (line, rest)
  {
    var buf := line + "\n" + rest;
    if line == "" {
      assert buf[1..] == rest;
    } else {
      assert buf[1..] == line[1..] + "\n" + rest;
      NextLineOf(line[1..], rest);
      HeadTail(line);
    }
  }

  /** All trailing carriage returns dropped. */
  function TrimCR(line: string): (r: string)
    ensures r <= line
    ensures r == "" || r[|r| - 1] != '\r'
    ensures (line == "" || line[|line| - 1] != '\r') ==> r == line
  {
    if line != "" && line[|line| - 1] == '\r' then TrimCR(line[..|line| - 1]) else line
  }

  /** The payload of a data line: what follows the colon, one optional space stripped. */
  function Payload(line: string): (r: string)
    requires DATA_LINE_PREFIX <= line
    ensures |r| <= |line| - 5
  {
    var value := line[|DATA_LINE_PREFIX|..];
    if " " <= value then value[1..] else value
  }

  // ---- classification ----

  function Joined(data: Option<string>, payload: string): string {
    match data
    case None => payload
    case Some(d) => d + "\n" + payload
  }

  /** What the remaining lines make of the name and data found so far. */
  function Read(rest: string, name: string, data: Option<string>): Frame
    decreases |rest|
  {
    if rest == "" then
      if data.Some? && data.value != "" then Event(name, data.value) else Passthrough
    else
      var (line, more) := NextLine(rest);
      var trimmed := TrimCR(line);
      if EVENT_PREFIX <= trimmed then Read(more, trimmed[|EVENT_PREFIX|..], data)
      else if DATA_LINE_PREFIX <= trimmed then
        var payload := Payload(trimmed);
        if payload == DONE_SENTINEL then Done else Read(more, name, Some(Joined(data, payload)))
      else Read(more, name, data)
  }

  function Classify(frame: string): Frame {
    Read(frame, "", None)
  }

  method ClassifyFrame(frame: string) returns (kind: Frame)
    ensures kind == Classify(frame)
  {
    var eventName: string, dataPayload: Option<string> := "", None;
    var rest := frame;
    while |rest| > 0
      invariant Read(rest, eventName, dataPayload) == Classify(frame)
      decreases |rest|
    {
      var (line, remainder) := NextLine(rest);
      rest := remainder;
      var trimmed := TrimCR(line);
      if trimmed == "" {
        continue;
      }
      if EVENT_PREFIX <= trimmed {
        eventName := trimmed[|EVENT_PREFIX|..];
      } else if DATA_LINE_PREFIX <= trimmed {
        var payload := Payload(trimmed);
        if payload == DONE_SENTINEL {
          return Done;
        }
        dataPayload := Some(Joined(dataPayload, payload));
      }
    }
    if dataPayload.Some? && dataPayload.value != "" {
      return Event(eventName, dataPayload.value);
    }
    return Passthrough;
  }

  function BuildEventFrame(name: string, data: string): string {
    EVENT_PREFIX + name + "\n" + DATA_PREFIX + data + "\n\n"
  }

  // ---- what a frame's lines say ----

  /** What a data line carries; the space after the colon is optional and not part of it. */
  function DataOf(line: string): Option<string> {
    var trimmed := TrimCR(line);
    if "data: " <= trimmed then Some(trimmed[6..])
    else if "data:" <= trimmed then Some(trimmed[5..])
    else None
  }

  function NameIn(line: string): Option<string> {
    var trimmed := TrimCR(line);
    if "event: " <= trimmed then Some(trimmed[7..]) else None
  }

  /** The lines of a frame, each ended by a newline. */
  function Glue(lines: seq<string>): string {
    if lines == [] then "" else lines[0] + "\n" + Glue(lines[1..])
  }

  /** What the data lines carry, in order. */
  function Payloads(lines: seq<string>): seq<string> {
    if lines == [] then [] else
      (if DataOf(lines[0]).Some? then [DataOf(lines[0]).value] else []) + Payloads(lines[1..])
  }

  /** The last name, or the one given. */
  function LastName(lines: seq<string>, name: string): string {
    if lines == [] then name else LastName(lines[1..], if NameIn(lines[0]).Some? then NameIn(lines[0]).value else name)
  }

  /** One text of several lines. */
  function JoinLines(ps: seq<string>): string
    requires ps != []
  {
    if |ps| == 1 then ps[0] else JoinLines(ps[..|ps| - 1]) + "\n" + ps[|ps| - 1]
  }

  function SoFar(ps: seq<string>): Option<string> {
    if ps == [] then None else Some(JoinLines(ps))
  }

  function Verdict(name: string, ps: seq<string>): Frame {
    if ps == [] || JoinLines(ps) == "" then Passthrough else Event(name, JoinLines(ps))
  }

  lemma LineSays(line: string, ps: seq<string>)
    ensures DATA_LINE_PREFIX <= TrimCR(line) <==> DataOf(line).Some?
    ensures DataOf(line).Some? ==> Payload(TrimCR(line)) == DataOf(line).value
    ensures DataOf(line).Some? ==> Some(Joined(SoFar(ps), DataOf(line).value)) == SoFar(ps + [DataOf(line).value])
    ensures NameIn(line).Some? ==> DataOf(line).None?
  {
    var trimmed := TrimCR(line);
    if "data:" <= trimmed {
      assert "data: " <= trimmed <==> " " <= trimmed[5..];
    }
    assert "event: " <= trimmed ==> trimmed[0] == 'e';
    assert "data:" <= trimmed ==> trimmed[0] == 'd';
  }

  /**
   A frame of any lines is [DONE] if one of its data lines says so; otherwise it is an event with the last
   name and all data lines as one text, or, without any text in them, nothing of interest.
   */
  lemma {:induction false} FrameOfLines(lines: seq<string>, name: string, ps: seq<string>)
    requires forall line :: line in lines ==> '\n' !in line
    ensures Read(Glue(lines), name, SoFar(ps))
            == if DONE_SENTINEL in Payloads(lines) then Done else Verdict(LastName(lines, name), ps + Payloads(lines))
    decreases |lines|
  {
    hide TrimCR, DataOf, NameIn, JoinLines, Payload, Joined;
    if lines == [] {
      assert ps + Payloads(lines) == ps;
    } else {
      var line, rest := lines[0], lines[1..];
      NextLineOf(line, Glue(rest));
      LineSays(line, ps);
      NameLine(line);
      assert forall l :: l in rest ==> l in lines;
      if DataOf(line).Some? {
        var p := DataOf(line).value;
        FrameOfLines(rest, name, ps + [p]);
        Reassociate(ps, [p], Payloads(rest));
      } else {
        FrameOfLines(rest, if NameIn(line).Some? then NameIn(line).value else name, ps);
        assert [] + Payloads(rest) == Payloads(rest);
      }
    }
  }

  lemma NameLine(line: string)
    ensures EVENT_PREFIX <= TrimCR(line) <==> NameIn(line).Some?
    ensures NameIn(line).Some? ==> NameIn(line).value == TrimCR(line)[|EVENT_PREFIX|..]
  {
  }

  /** So a frame means what its lines say, whether its data lines have a space after the colon or not. */
  lemma ClassifiedByLines(lines: seq<string>)
    requires forall line :: line in lines ==> '\n' !in line
    ensures Classify(Glue(lines))
            == if DONE_SENTINEL in Payloads(lines) then Done else Verdict(LastName(lines, ""), Payloads(lines))
  {
    hide Read, Glue, Payloads, Verdict;
    FrameOfLines(lines, "", []);
    assert [] + Payloads(lines) == Payloads(lines);
  }

  // ---- reading back what was built ----

  /** A text that survives as the rest of one line. */
  predicate OneLine(s: string) {
    '\n' !in s && (s == "" || s[|s| - 1] != '\r')
  }

  /** Names are always ends of one line. */
  lemma {:induction false} NameIsOneLine(rest: string, name: string, data: Option<string>)
    requires OneLine(name)
    ensures var f := Read(rest, name, data); f.Event? ==> OneLine(f.name)
    decreases |rest|
  {
    if rest != "" {
      var (line, more) := NextLine(rest);
      var trimmed := TrimCR(line);
      if EVENT_PREFIX <= trimmed {
        NameIsOneLine(more, trimmed[|EVENT_PREFIX|..], data);
      } else {
        NameIsOneLine(more, name, data);
        if DATA_LINE_PREFIX <= trimmed {
          NameIsOneLine(more, name, Some(Joined(data, Payload(trimmed))));
        }
      }
    }
  }

  /** Every further data line costs its five-byte field name and gives one newline back. */
  lemma {:induction false} DataShrinks(rest: string, name: string, d: string)
    ensures var f := Read(rest, name, Some(d));
            f.Event? ==> |f.data| == |d| || |f.data| + 4 <= |d| + |rest|
    decreases |rest|
  {
    if rest != "" {
      var (line, more) := NextLine(rest);
      var trimmed := TrimCR(line);
      if EVENT_PREFIX <= trimmed {
        DataShrinks(more, trimmed[|EVENT_PREFIX|..], d);
      } else if DATA_LINE_PREFIX <= trimmed {
        DataShrinks(more, name, d + "\n" + Payload(trimmed));
      } else {
        DataShrinks(more, name, d);
      }
    }
  }

  lemma ReadEventLine(name: string, rest: string, data: Option<string>)
    requires OneLine(name)
    ensures Read(EVENT_PREFIX + name + "\n" + rest, "", data) == Read(rest, name, data)
  {
    hide Read;
    var line := EVENT_PREFIX + name;
    NextLineOf(line, rest);
    ReadUnfold(line + "\n" + rest, "", data);
    assert line[|EVENT_PREFIX|..] == name;
  }

  lemma ReadUnfold(rest: string, name: string, data: Option<string>)
    requires rest != ""
    ensures Read(rest, name, data) ==
            var (line, more) := NextLine(rest);
            var trimmed := TrimCR(line);
            if EVENT_PREFIX <= trimmed then Read(more, trimmed[|EVENT_PREFIX|..], data)
            else if DATA_LINE_PREFIX <= trimmed then
              var payload := Payload(trimmed);
              if payload == DONE_SENTINEL then Done else Read(more, name, Some(Joined(data, payload)))
            else Read(more, name, data)
  {
  }

  lemma ReadDataLine(d: string, rest: string, name: string)
    requires OneLine(d)
    ensures Read(DATA_PREFIX + d + "\n" + rest, name, None)
            == if d == DONE_SENTINEL then Done else Read(rest, name, Some(d))
  {
    hide *;
    var line := DATA_PREFIX + d;
    DataLine(d);
    NextLineOf(line, rest);
    ReadUnfold(line + "\n" + rest, name, None);
    JoinedFirst(d);
  }

  lemma JoinedFirst(d: string)
    ensures Joined(None, d) == d
  {
  }

  lemma DataLine(d: string)
    ensures var line := DATA_PREFIX + d;
            && line != "" && '\n' !in DATA_PREFIX
            && !(EVENT_PREFIX <= line) && DATA_LINE_PREFIX <= line && Payload(line) == d
            && (OneLine(d) ==> '\n' !in line && TrimCR(line) == line)
  {
    var line := DATA_PREFIX + d;
    assert line[0] == 'd' && EVENT_PREFIX[0] == 'e';
    assert line[|DATA_LINE_PREFIX|..] == " " + d;
    assert (" " + d)[1..] == d;
  }

  lemma ReadBlank(name: string, data: Option<string>)
    ensures Read("\n", name, data) == Read("", name, data)
  {
    assert NextLine("\n") == ("", "");
  }

  /** Data cut short by a newline or trimmed at the end never comes back whole. */
  lemma TornData(d: string, name: string)
    requires !OneLine(d)
    ensures var f := Read(DATA_PREFIX + d + "\n\n", name, None); f.Event? ==> f.data != d
  {
    hide *;
    var buf := DATA_PREFIX + d + "\n\n";
    var (line, more) := NextLine(buf);
    var (d1, d2) := NextLine(d);
    NotOneLine(d);
    FirstLineOfData(DATA_PREFIX, d);
    TrimmedData(d1);
    ReadUnfold(buf, name, None);
    var payload := Payload(TrimCR(line));
    JoinedFirst(payload);
    DataShrinks(more, name, payload);
  }

  lemma NotOneLine(d: string)
    requires !OneLine(d)
    ensures '\n' !in DATA_PREFIX
    ensures '\n' !in d ==> d != "" && d[|d| - 1] == '\r'
  {
  }

  lemma TrimmedData(d: string)
    ensures var line := TrimCR(DATA_PREFIX + d);
            && line != "" && !(EVENT_PREFIX <= line) && DATA_LINE_PREFIX <= line
            && |Payload(line)| <= |d| && (d != "" && d[|d| - 1] == '\r' ==> |Payload(line)| < |d|)
  {
    var line := TrimCR(DATA_PREFIX + d);
    TrimKeeps(DATA_PREFIX, d);
    assert line[0] == 'd' && EVENT_PREFIX[0] == 'e';
    assert line[5] == ' ' && line[|DATA_LINE_PREFIX|..][0] == ' ';
  }

  lemma {:induction false} TrimKeeps(p: string, s: string)
    requires p != "" && p[|p| - 1] != '\r'
    ensures p <= TrimCR(p + s)
    ensures s != "" && s[|s| - 1] == '\r' ==> |TrimCR(p + s)| < |p + s|
  {
    if s != "" && s[|s| - 1] == '\r' {
      assert (p + s)[..|p + s| - 1] == p + s[..|s| - 1];
      TrimKeeps(p, s[..|s| - 1]);
    }
  }

  lemma FirstLineOfData(p: string, d: string)
    requires '\n' !in p
    ensures var (line, more) := NextLine(p + d + "\n\n");
            var (d1, d2) := NextLine(d);
            && p + d + "\n\n" != "" && line == p + d1
            && ('\n' in d ==> |d1| + 1 + |d2| == |d| && |more| == |d2| + 2)
            && ('\n' !in d ==> d1 == d && |more| == 1)
  {
    hide NextLine;
    var (d1, d2) := NextLine(d);
    if '\n' in d {
      SplitAtNewline(d);
      Regroup(p, d1, d2, "\n\n");
      NextLineOf(p + d1, d2 + "\n\n");
    } else {
      WholeLine(d);
      assert p + d + "\n\n" == (p + d) + "\n" + "\n";
      NextLineOf(p + d, "\n");
    }
  }

  lemma Regroup(p: string, a: string, b: string, end: string)
    ensures p + (a + "\n" + b) + end == (p + a) + "\n" + (b + end)
  {
  }

  lemma {:induction false} SplitAtNewline(d: string)
    requires '\n' in d
    ensures d == NextLine(d).0 + "\n" + NextLine(d).1
  {
    if d[0] != '\n' { SplitAtNewline(d[1..]); }
  }

  lemma {:induction false} WholeLine(d: string)
    requires '\n' !in d
    ensures NextLine(d) == (d, "")
  {
    if d != "" {
      WholeLine(d[1..]);
      HeadTail(d);
    }
  }

  /**
   Classification recovers name and data from a built frame if and only if both are rests of one
   line and the data is neither empty nor the [DONE] sentinel.
   */
  lemma BuiltFrameReadsBack(name: string, data: string)
    ensures Classify(BuildEventFrame(name, data)) == Event(name, data)
            <==> OneLine(name) && OneLine(data) && data != "" && data != DONE_SENTINEL
  {
    hide Read;
    var frame := BuildEventFrame(name, data);
    var rest := DATA_PREFIX + data + "\n\n";
    NameIsOneLine(frame, "", None);
    if OneLine(name) {
      assert frame == EVENT_PREFIX + name + "\n" + rest;
      ReadEventLine(name, rest, None);
      if OneLine(data) {
        assert rest == DATA_PREFIX + data + "\n" + "\n";
        ReadDataLine(data, "\n", name);
        ReadBlank(name, Some(data));
        ReadEnd(name, Some(data));
      } else {
        TornData(data, name);
      }
    }
  }

  lemma ReadEnd(name: string, data: Option<string>)
    ensures Read("", name, data) == if data.Some? && data.value != "" then Event(name, data.value) else Passthrough
  {
  }

  /** What the proxy rebuilds reaches the client as one frame. */
  lemma BuiltFrameIsOneFrame(name: string, data: string)
    requires '\n' !in name && '\n' !in data
    ensures Split(BuildEventFrame(name, data)) == ([BuildEventFrame(name, data)], "")
  {
    hide FrameEnd;
    var head, mid := EVENT_PREFIX + name, DATA_PREFIX + data;
    var frame := BuildEventFrame(name, data);
    assert frame == head + ("\n" + (mid + "\n\n"));
    BlankLine();
    LineHasNoEnd(mid, "\n\n");
    NewlineThenText(mid + "\n\n");
    LineHasNoEnd(head, "\n" + (mid + "\n\n"));
    assert frame[|frame|..] == "";
    EmptySplit();
    assert frame[..|frame|] == frame;
    assert [frame] + [] == [frame];
  }

  lemma BlankLine()
    ensures FrameEnd("\n\n") == 2
  {
  }

  lemma NewlineThenText(t: string)
    requires t != "" && t[0] != '\n' && t[0] != '\r' && FrameEnd(t) > 0
    ensures FrameEnd("\n" + t) == FrameEnd(t) + 1
  {
    var s := "\n" + t;
    assert s[1..] == t && s[1] == t[0];
  }

  lemma {:induction false} LineHasNoEnd(line: string, rest: string)
    requires '\n' !in line
    requires rest != "" && rest[0] == '\n' && FrameEnd(rest) > 0
    requires |rest| >= 2 && (rest[1] == '\n' || rest[1] != '\r')
    ensures FrameEnd(line + rest) == |line| + FrameEnd(rest)
    decreases |line|
  {
    hide Framing.FrameEnd;
    if line == "" {
      assert line + rest == rest;
    } else {
      assert (line + rest)[1..] == line[1..] + rest;
      LineHasNoEnd(line[1..], rest);
      assert (line + rest)[0] == line[0];
      NoEndAtStart(line + rest, |line|);
    }
  }

  /** A frame end that starts later is found by looking further. */
  lemma NoEndAtStart(s: string, k: nat)
    requires s != "" && s[0] != '\n' && FrameEnd(s[1..]) > 0
    requires 0 < k && k + 1 < |s| && '\n' !in s[..k] && s[k] == '\n' && (s[k + 1] == '\n' || s[k + 1] != '\r')
    ensures FrameEnd(s) == FrameEnd(s[1..]) + 1
  {
    assert k > 1 ==> s[1] in s[..k];
  }
}
