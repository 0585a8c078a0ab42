/**
 The scanners' fan-out: rules dealt round-robin into buckets, one worker a bucket, each writing
 its own result slot, slots concatenated at the end.
 */
module Fanout {

  function Flatten<T>(parts: seq<seq<T>>): seq<T> {
    if parts == [] then [] else parts[0] + Flatten(parts[1..])
  }

  /** All matches of all rules, rule after rule: the sequential scan. */
  function ScanAll<R, M>(scan: R -> seq<M>, rules: seq<R>): seq<M> {
    if rules == [] then [] else scan(rules[0]) + ScanAll(scan, rules[1..])
  }

  lemma {:induction false} ScanAllAppend<R, M>(scan: R -> seq<M>, a: seq<R>, b: seq<R>)
    ensures ScanAll(scan, a + b) == ScanAll(scan, a) + ScanAll(scan, b)
  {
    if a == [] {
      assert a + b == b;
    } else {
      assert (a + b)[1..] == a[1..] + b;
      ScanAllAppend(scan, a[1..], b);
    }
  }

  lemma ScanAllSnoc<R, M>(scan: R -> seq<M>, rules: seq<R>, i: nat)
    requires i < |rules|
    ensures ScanAll(scan, rules[..i + 1]) == ScanAll(scan, rules[..i]) + scan(rules[i])
  {
    assert rules[..i + 1] == rules[..i] + [rules[i]];
    ScanAllAppend(scan, rules[..i], [rules[i]]);
    assert ScanAll(scan, [rules[i]]) == scan(rules[i]) + ScanAll(scan, []);
  }

  /** What all buckets together find. */
  ghost function Found<R, M>(scan: R -> seq<M>, buckets: seq<seq<R>>): multiset<M> {
    if buckets == [] then multiset{} else multiset(ScanAll(scan, buckets[0])) + Found(scan, buckets[1..])
  }

  lemma {:induction false} FoundAfterDeal<R, M>(scan: R -> seq<M>, buckets: seq<seq<R>>, k: nat, r: R)
    requires k < |buckets|
    ensures Found(scan, buckets[k := buckets[k] + [r]]) == Found(scan, buckets) + multiset(scan(r))
  {
    var dealt := buckets[k := buckets[k] + [r]];
    if k == 0 {
      assert dealt[1..] == buckets[1..];
      ScanAllAppend(scan, buckets[0], [r]);
      assert ScanAll(scan, [r]) == scan(r) + ScanAll(scan, []);
    } else {
      assert dealt[1..] == buckets[1..][k - 1 := buckets[1..][k - 1] + [r]];
      FoundAfterDeal(scan, buckets[1..], k - 1, r);
    }
  }

  lemma {:induction false} FoundNothing<R, M>(scan: R -> seq<M>, buckets: seq<seq<R>>)
    requires forall i :: 0 <= i < |buckets| ==> buckets[i] == []
    ensures Found(scan, buckets) == multiset{}
  {
    if buckets != [] { FoundNothing(scan, buckets[1..]); }
  }

  /** Deals the rules out: rule `i` goes to bucket `i % workers`. */
  method BucketRules<R, M>(ghost scan: R -> seq<M>, rules: seq<R>, workers: nat) returns (buckets: seq<seq<R>>)
    requires workers > 0
    ensures |buckets| == workers
    ensures Found(scan, buckets) == multiset(ScanAll(scan, rules))
  {
    buckets := seq(workers, _ => []);
    FoundNothing(scan, buckets);
    for i := 0 to |rules|
      invariant |buckets| == workers
      invariant Found(scan, buckets) == multiset(ScanAll(scan, rules[..i]))
    {
      var k := i % workers;
      FoundAfterDeal(scan, buckets, k, rules[i]);
      ScanAllSnoc(scan, rules, i);
      hide ScanAll, Found;
      buckets := buckets[k := buckets[k] + [rules[i]]];
    }
    assert rules[..|rules|] == rules;
  }

  lemma {:induction false} FlattenSlots<R, M>(scan: R -> seq<M>, buckets: seq<seq<R>>, slots: seq<seq<M>>)
    requires |slots| == |buckets|
    requires forall w :: 0 <= w < |slots| ==> slots[w] == ScanAll(scan, buckets[w])
    ensures multiset(Flatten(slots)) == Found(scan, buckets)
  {
    if slots != [] {
      FlattenSlots(scan, buckets[1..], slots[1..]);
    }
  }

  /** The slot numbers below `n`. */
  function Slots(n: nat): (s: set<nat>)
    ensures forall w :: w in s <==> 0 <= w < n
  {
    if n == 0 then {} else Slots(n - 1) + {n - 1}
  }

  /**
   Workers finish in any order.  Whatever the order and however many workers there are, the
   concatenated slots hold exactly the matches of the sequential scan.
   */
  method ScanParallel<R, M>(scan: R -> seq<M>, rules: seq<R>, cpus: nat) returns (all: seq<M>)
    requires cpus > 0
    ensures multiset(all) == multiset(ScanAll(scan, rules))
  {
    var workers := if |rules| < cpus then |rules| else cpus;
    if workers == 0 {
      return [];
    }
    var buckets := BucketRules(scan, rules, workers);
    var slots: seq<seq<M>> := seq(workers, _ => []);
    var running := Slots(workers);
    while running != {}
      invariant |slots| == workers && forall w :: w in running ==> w < workers
      invariant forall w :: 0 <= w < workers && w !in running ==> slots[w] == ScanAll(scan, buckets[w])
      decreases running
    {
      var w :| w in running;
      slots := slots[w := ScanAll(scan, buckets[w])];
      running := running - {w};
    }
    FlattenSlots(scan, buckets, slots);
    all := Flatten(slots);
  }
}
