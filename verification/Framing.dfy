/** Cutting a byte stream into SSE frames. */
module Framing {
  import opened Text

  const FRAME_SEP_LF := "\n\n"
  const FRAME_SEP_CRLF := "\r\n\r\n"

  // ---- frame separators ----

  /** Position of the first occurrence of `sep`, or -1. */
  function Index(data: string, sep: string): (i: int)
    ensures -1 <= i && (i >= 0 ==> i + |sep| <= |data|)
    decreases |data|
  {
    if sep <= data then 0
    else if data == "" then -1
    else
      var i := Index(data[1..], sep);
      if i == -1 then -1 else i + 1
  }

  /** The earliest separator and where it stands, or index -1. */
  function FindFrameSeparator(data: string): (r: (string, int))
    ensures -1 <= r.1 && (r.1 >= 0 ==> r.1 + |r.0| <= |data|) && |r.0| > 0
  {
    var lfIdx := Index(data, FRAME_SEP_LF);
    var crlfIdx := Index(data, FRAME_SEP_CRLF);
    if crlfIdx != -1 && (lfIdx == -1 || crlfIdx < lfIdx) then (FRAME_SEP_CRLF, crlfIdx)
    else (FRAME_SEP_LF, lfIdx)
  }

  /** Where the first frame ends, separator included, or 0 when none is complete. */
  function FrameEnd(data: string): (n: nat)
    ensures n <= |data|
    decreases |data|
  {
    if FRAME_SEP_LF <= data then 2
    else if FRAME_SEP_CRLF <= data then 4
    else if data == "" then 0
    else
      var n := FrameEnd(data[1..]);
      if n == 0 then 0 else n + 1
  }

  lemma {:induction false} SeparatorIsFrameEnd(data: string)
    ensures var (sep, idx) := FindFrameSeparator(data);
            FrameEnd(data) == if idx == -1 then 0 else idx + |sep|
    decreases |data|
  {
    if !(FRAME_SEP_LF <= data) && !(FRAME_SEP_CRLF <= data) && data != "" {
      SeparatorIsFrameEnd(data[1..]);
    }
  }

  /** The first `n` bytes end with a blank line, of either kind. */
  predicate EndsFrame(data: string, n: int) {
    || (2 <= n <= |data| && data[n - 2] == '\n' && data[n - 1] == '\n')
    || (4 <= n <= |data| && data[n - 4] == '\r' && data[n - 3] == '\n' && data[n - 2] == '\r' && data[n - 1] == '\n')
  }

  lemma StartsFrame(data: string)
    ensures FRAME_SEP_LF <= data <==> EndsFrame(data, 2)
    ensures FRAME_SEP_CRLF <= data <==> |data| >= 4 && data[0] == '\r' && data[1] == '\n' && data[2] == '\r' && data[3] == '\n'
  {
  }

  lemma EndsFrameTail(data: string, n: int)
    requires data != "" && !EndsFrame(data, 2) && !(FRAME_SEP_CRLF <= data)
    ensures EndsFrame(data, n) <==> EndsFrame(data[1..], n - 1)
  {
    StartsFrame(data);
    var tail := data[1..];
    assert forall k :: 0 <= k < |tail| ==> tail[k] == data[k + 1];
  }

  /** The first frame ends at the first blank line, LF or CRLF. */
  lemma {:induction false} FirstBlankLine(data: string, m: int)
    ensures FrameEnd(data) > 0 ==> EndsFrame(data, FrameEnd(data))
    ensures EndsFrame(data, m) ==> 0 < FrameEnd(data) <= m
    decreases |data|
  {
    StartsFrame(data);
    if !(FRAME_SEP_LF <= data) && !(FRAME_SEP_CRLF <= data) && data != "" {
      hide EndsFrame;
      FirstBlankLine(data[1..], m - 1);
      EndsFrameTail(data, m);
      EndsFrameTail(data, FrameEnd(data[1..]) + 1);
    }
  }

  /** A complete frame stays the first frame whatever arrives later. */
  lemma {:induction false} FrameEndStable(data: string, more: string)
    requires FrameEnd(data) > 0
    ensures FrameEnd(data + more) == FrameEnd(data)
    decreases |data|
  {
    var d := data + more;
    assert forall k :: 0 <= k < |data| ==> d[k] == data[k];
    if !(FRAME_SEP_LF <= data) && !(FRAME_SEP_CRLF <= data) {
      FrameEndStable(data[1..], more);
      assert d[1..] == data[1..] + more;
      FrameEndRoom(data[1..]);
      if |data| < 4 {
        assert data[1..][0] == data[1] && data[1..][1] == data[2];
      }
    }
  }

  lemma FrameEndRoom(data: string)
    ensures FrameEnd(data) > 0 ==> |data| >= 2
    ensures FrameEnd(data) > 0 && |data| == 2 ==> data == FRAME_SEP_LF
  {
    if |data| == 1 {
      assert data[1..] == "";
    } else if |data| == 2 && !(FRAME_SEP_LF <= data) {
      assert |data[1..]| == 1 && data[1..][1..] == "";
    }
  }

  /** Complete frames, and the tail that has to wait for more bytes. */
  function Split(data: string): (seq<string>, string)
    decreases |data|
  {
    var n := FrameEnd(data);
    if n == 0 then ([], data) else
      var (frames, tail) := Split(data[n..]);
      ([data[..n]] + frames, tail)
  }

  method SplitFrames(data: string) returns (frames: seq<string>, tail: string)
    ensures (frames, tail) == Split(data)
  {
    frames := [];
    var rest := data;
    while |rest| > 0
      invariant frames + Split(rest).0 == Split(data).0 && Split(rest).1 == Split(data).1
      decreases |rest|
    {
      var (sep, idx) := FindFrameSeparator(rest);
      SeparatorIsFrameEnd(rest);
      if idx == -1 {
        assert frames + [] == frames;
        return frames, rest;
      }
      var end := idx + |sep|;
      Reassociate(frames, [rest[..end]], Split(rest[end..]).0);
      frames := frames + [rest[..end]];
      rest := rest[end..];
    }
    EmptySplit();
    assert frames + [] == frames;
    return frames, "";
  }

  /** No byte is lost; frames are minimal and the tail holds no complete frame. */
  lemma {:induction false} SplitLossless(data: string)
    ensures Join(Split(data).0) + Split(data).1 == data
    ensures forall f :: f in Split(data).0 ==> f != "" && FrameEnd(f) == |f|
    ensures FrameEnd(Split(data).1) == 0
    decreases |data|
  {
    hide FrameEnd;
    var n := FrameEnd(data);
    if n > 0 {
      SplitLossless(data[n..]);
      FirstFrame(data);
      var (frames, tail) := Split(data[n..]);
      Reassociate(data[..n], Join(frames), tail);
      TakeDrop(data, n);
      assert ([data[..n]] + frames)[1..] == frames;
    }
  }

  lemma {:induction false} FirstFrame(data: string)
    requires FrameEnd(data) > 0
    ensures FrameEnd(data[..FrameEnd(data)]) == FrameEnd(data)
    decreases |data|
  {
    var n := FrameEnd(data);
    var f := data[..n];
    if !(FRAME_SEP_LF <= data) && !(FRAME_SEP_CRLF <= data) {
      FirstFrame(data[1..]);
      assert f[1..] == data[1..][..n - 1];
      assert f + data[n..] == data;
    }
  }

  /** Framing commutes with appending bytes: earlier frames are final. */
  lemma {:induction false} SplitStable(data: string, more: string)
    ensures Split(data + more).0 == Split(data).0 + Split(Split(data).1 + more).0
    ensures Split(data + more).1 == Split(Split(data).1 + more).1
    decreases |data|
  {
    hide FrameEnd;
    var n := FrameEnd(data);
    if n > 0 {
      FrameEndStable(data, more);
      AppendDrop(data, more, n);
      SplitStable(data[n..], more);
      var (frames, tail) := Split(data[n..]);
      Reassociate([data[..n]], frames, Split(tail + more).0);
    }
  }

  /** Framing chunk by chunk, the incomplete tail carried into the next chunk. */
  function Carry(chunks: seq<string>): (seq<string>, string) {
    if chunks == [] then ([], "") else
      var (frames, tail) := Carry(chunks[..|chunks| - 1]);
      var (next, rest) := Split(tail + chunks[|chunks| - 1]);
      (frames + next, rest)
  }

  /** The frames do not depend on how the bytes were chunked. */
  lemma {:induction false} ChunkingIrrelevant(chunks: seq<string>)
    ensures Carry(chunks) == Split(Join(chunks))
  {
    hide Split;
    if chunks == [] {
      EmptySplit();
    } else {
      var before, last := chunks[..|chunks| - 1], chunks[|chunks| - 1];
      ChunkingIrrelevant(before);
      assert chunks == before + [last];
      JoinSnoc(before, last);
      SplitStable(Join(before), last);
    }
  }

  lemma EmptySplit()
    ensures Split("") == ([], "")
  {
  }

  /** All frames of a finished stream: an incomplete last one counts as a frame. */
  function Complete(data: string): seq<string> {
    var (frames, tail) := Split(data);
    if tail == "" then frames else frames + [tail]
  }

  /** Frames seen over a whole session: chunk by chunk, the last chunk ending the stream. */
  function Session(chunks: seq<string>, last: string): seq<string> {
    Carry(chunks).0 + Complete(Carry(chunks).1 + last)
  }

  lemma SessionFrames(chunks: seq<string>, last: string)
    ensures Session(chunks, last) == Complete(Join(chunks) + last)
  {
    hide Split;
    ChunkingIrrelevant(chunks);
    SplitStable(Join(chunks), last);
    var (frames, tail) := Split(Split(Join(chunks)).1 + last);
    Reassociate(Carry(chunks).0, frames, [tail]);
  }

  /** The frames a chunk completes; at the end of the stream an incomplete last frame counts too. */
  method PrepareFrames(tailBuf: string, body: string, endOfStream: bool) returns (frames: seq<string>, tail: string)
    ensures !endOfStream ==> (frames, tail) == Split(tailBuf + body)
    ensures endOfStream ==> frames == Complete(tailBuf + body) && tail == ""
  {
    frames, tail := SplitFrames(tailBuf + body);
    if endOfStream && |tail| > 0 {
      frames, tail := frames + [tail], "";
    }
  }

  // ---- frames read one by one ----

  /** What a reader makes of each frame. */
  function ReadAll<I>(read: string -> I, frames: seq<string>): (r: seq<I>)
    ensures |r| == |frames| && forall i :: 0 <= i < |r| ==> r[i] == read(frames[i])
  {
    seq(|frames|, i requires 0 <= i < |frames| => read(frames[i]))
  }

  lemma ReadMore<I>(read: string -> I, frames: seq<string>, i: nat)
    requires i < |frames|
    ensures ReadAll(read, frames[..i + 1]) == ReadAll(read, frames[..i]) + [read(frames[i])]
  {
  }

  lemma CarryNothing<I>(read: string -> I, chunks: seq<string>)
    ensures Carry(chunks[..0]) == ([], "") && ReadAll(read, Carry(chunks[..0]).0) == []
  {
  }

  /** One more chunk: its frames are read after those before. */
  lemma CarryMore<I>(read: string -> I, chunks: seq<string>, i: nat)
    requires i < |chunks|
    ensures var (frames, tail) := Carry(chunks[..i]);
            var (next, rest) := Split(tail + chunks[i]);
            Carry(chunks[..i + 1]) == (frames + next, rest)
            && ReadAll(read, frames + next) == ReadAll(read, frames) + ReadAll(read, next)
  {
    hide Split;
    TakeSnoc(chunks, i);
    var before := chunks[..i];
    assert (before + [chunks[i]])[..i] == before;
  }

  /** A whole session reads the frames of the whole byte stream. */
  lemma WholeSession<I>(read: string -> I, chunks: seq<string>, last: string)
    ensures var (frames, tail) := Carry(chunks);
            ReadAll(read, frames) + ReadAll(read, Complete(tail + last)) == ReadAll(read, Complete(Join(chunks) + last))
  {
    hide Carry, Complete;
    SessionFrames(chunks, last);
  }
}
