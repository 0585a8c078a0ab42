/** Outgoing sequence numbers of a Responses stream into which synthetic frames are inserted. */
module Sequencing {
  import opened Text

  /** What a written frame carries: the upstream number it came with, and the number it left with. */
  datatype Stamp = Stamp(upstream: Option<int>, synthetic: bool, number: Option<int>)

  /** The number of the next frame that came with an upstream number. */
  function NextOutSeq(outSeq: int, upstream: int): int {
    if upstream > outSeq then upstream else outSeq + 1
  }

  /** The last number written; -1 before the first. */
  function LastNumber(stamps: seq<Stamp>): int {
    if stamps == [] then -1 else
      var last := stamps[|stamps| - 1];
      if last.number.Some? then last.number.value else LastNumber(stamps[..|stamps| - 1])
  }

  function Assigned(outSeq: int, upstream: Option<int>, synthetic: bool): Option<int> {
    if synthetic then Some(outSeq + 1)
    else if upstream.None? then None
    else Some(NextOutSeq(outSeq, upstream.value))
  }

  /** Every frame got its number by the counter's rule. */
  predicate Numbered(stamps: seq<Stamp>) {
    stamps == [] ||
    var before, last := stamps[..|stamps| - 1], stamps[|stamps| - 1];
    Numbered(before) && last.number == Assigned(LastNumber(before), last.upstream, last.synthetic)
  }

  lemma {:induction false} NumberedPrefix(stamps: seq<Stamp>, i: nat)
    requires Numbered(stamps) && i < |stamps|
    ensures Numbered(stamps[..i + 1])
    ensures stamps[i].number == Assigned(LastNumber(stamps[..i]), stamps[i].upstream, stamps[i].synthetic)
    decreases |stamps|
  {
    var before := stamps[..|stamps| - 1];
    if i == |before| {
      assert stamps[..i + 1] == stamps;
    } else {
      assert before[..i + 1] == stamps[..i + 1] && before[..i] == stamps[..i];
      NumberedPrefix(before, i);
    }
  }

  /** Numbers written so far never exceed the last one. */
  lemma {:induction false} BelowLast(stamps: seq<Stamp>, i: nat)
    requires Numbered(stamps) && i < |stamps| && stamps[i].number.Some?
    ensures stamps[i].number.value <= LastNumber(stamps)
    decreases |stamps|
  {
    var before, last := stamps[..|stamps| - 1], stamps[|stamps| - 1];
    if i < |before| {
      BelowLast(before, i);
      assert before[i] == stamps[i];
    }
  }

  /** The emitted numbers strictly increase. */
  lemma StrictlyIncreasing(stamps: seq<Stamp>, i: nat, j: nat)
    requires Numbered(stamps) && i < j < |stamps| && stamps[i].number.Some? && stamps[j].number.Some?
    ensures stamps[i].number.value < stamps[j].number.value
  {
    NumberedPrefix(stamps, j);
    NumberedPrefix(stamps, j - 1);
    assert stamps[..j - 1 + 1] == stamps[..j];
    BelowLast(stamps[..j], i);
  }

  /** No frame is numbered below its upstream number; frames without one stay without. */
  lemma NeverBelowUpstream(stamps: seq<Stamp>, i: nat)
    requires Numbered(stamps) && i < |stamps| && !stamps[i].synthetic
    ensures stamps[i].number.Some? <==> stamps[i].upstream.Some?
    ensures stamps[i].upstream.Some? ==> stamps[i].number.value >= stamps[i].upstream.value
  {
    NumberedPrefix(stamps, i);
  }

  // ---- well-numbered upstreams ----

  /** The last upstream number; -1 before the first. */
  function LastUpstream(numbers: seq<Option<int>>): int {
    if numbers == [] then -1 else
      var last := numbers[|numbers| - 1];
      if last.Some? then last.value else LastUpstream(numbers[..|numbers| - 1])
  }

  /** Non-negative and strictly increasing wherever a number is present. */
  predicate Increasing(numbers: seq<Option<int>>) {
    numbers == [] ||
    var before, last := numbers[..|numbers| - 1], numbers[|numbers| - 1];
    Increasing(before) && (last.Some? ==> last.value > LastUpstream(before))
  }

  /** The upstream numbers of written frames, none for synthetic ones. */
  function Upstreams(stamps: seq<Stamp>): (r: seq<Option<int>>)
    ensures |r| == |stamps|
  {
    if stamps == [] then [] else
      var before, last := stamps[..|stamps| - 1], stamps[|stamps| - 1];
      Upstreams(before) + [if last.synthetic then None else last.upstream]
  }

  function Synthetics(stamps: seq<Stamp>): nat {
    if stamps == [] then 0 else
      Synthetics(stamps[..|stamps| - 1]) + if stamps[|stamps| - 1].synthetic then 1 else 0
  }

  lemma {:induction false} CounterBounds(stamps: seq<Stamp>)
    requires Numbered(stamps) && Increasing(Upstreams(stamps))
    ensures LastUpstream(Upstreams(stamps)) <= LastNumber(stamps) <= LastUpstream(Upstreams(stamps)) + Synthetics(stamps)
  {
    if stamps != [] {
      var before, last := stamps[..|stamps| - 1], stamps[|stamps| - 1];
      UpstreamsSnoc(stamps);
      CounterBounds(before);
    }
  }

  lemma UpstreamsSnoc(stamps: seq<Stamp>)
    requires stamps != []
    ensures var ups := Upstreams(stamps);
            ups[..|ups| - 1] == Upstreams(stamps[..|stamps| - 1])
            && ups[|ups| - 1] == if stamps[|stamps| - 1].synthetic then None else stamps[|stamps| - 1].upstream
  {
  }

  /**
   For a well-numbered upstream a frame keeps its number until the first synthetic frame, and later
   exceeds it by at most the number of synthetic frames written before it.
   */
  lemma {:induction false} ShiftedBySynthetics(stamps: seq<Stamp>, i: nat)
    requires Numbered(stamps) && Increasing(Upstreams(stamps))
    requires i < |stamps| && !stamps[i].synthetic && stamps[i].upstream.Some?
    ensures stamps[i].number.Some?
    ensures stamps[i].upstream.value <= stamps[i].number.value <= stamps[i].upstream.value + Synthetics(stamps[..i])
    decreases |stamps|
  {
    var before := stamps[..|stamps| - 1];
    UpstreamsSnoc(stamps);
    if i < |before| {
      assert before[..i] == stamps[..i] && before[i] == stamps[i];
      ShiftedBySynthetics(before, i);
    } else {
      CounterBounds(before);
    }
  }
}
