/** Building a demasker's lookup index from the minted replacements. */
module Factory {
  import opened Demasking
  import opened PlaceholderScan
  import JsonEscape
  import JsonCommute
  import Masking

  type Pairs = seq<(string, string)>

  /** Placeholder to original; the first replacement of a placeholder wins, empty ones are skipped. */
  function Originals(reps: seq<Masking.Replacement>): map<string, string> {
    if reps == [] then map[] else
      var m := Originals(reps[..|reps| - 1]);
      var r := reps[|reps| - 1];
      if r.placeholder == "" || r.placeholder in m then m else m[r.placeholder := r.original]
  }

  /** The replacer's argument list and the map say the same. */
  ghost predicate Agree(pairs: Pairs, m: map<string, string>) {
    && (forall i :: 0 <= i < |pairs| ==> pairs[i].0 in m && m[pairs[i].0] == pairs[i].1)
    && (forall w :: w in m ==> HasKey(pairs, w))
  }

  ghost predicate HasKey(pairs: Pairs, w: string) {
    exists i :: 0 <= i < |pairs| && pairs[i].0 == w
  }

  lemma AgreeAdd(pairs: Pairs, m: map<string, string>, w: string, o: string)
    requires Agree(pairs, m) && w !in m
    ensures Agree(pairs + [(w, o)], m[w := o])
  {
    var longer := pairs + [(w, o)];
    forall v | v in m[w := o]
      ensures HasKey(longer, v)
    {
      if v == w {
        assert longer[|pairs|].0 == v;
      } else {
        assert HasKey(pairs, v);
        var i :| 0 <= i < |pairs| && pairs[i].0 == v;
        assert longer[i].0 == v;
      }
    }
  }

  /** The longest key, 0 when there is none. */
  ghost predicate LongestKey(n: nat, m: map<string, string>) {
    && (forall w :: w in m ==> |w| <= n)
    && (n > 0 ==> exists w :: w in m && |w| == n)
  }

  method BuildLookupIndex(reps: seq<Masking.Replacement>)
    returns (exactPairs: Pairs, jsonPairs: Pairs, out: map<string, string>, jsonOut: map<string, string>, maxPending: nat)
    ensures out == Originals(reps) && jsonOut == JsonCommute.Escaped(out)
    ensures Agree(exactPairs, out) && Agree(jsonPairs, jsonOut)
    ensures LongestKey(maxPending, out)
  {
    exactPairs, jsonPairs, out, jsonOut, maxPending := [], [], map[], map[], 0;
    EmptyIndex(reps);
    hide *;
    for i := 0 to |reps|
      invariant out == Originals(reps[..i]) && jsonOut == JsonCommute.Escaped(out)
      invariant Agree(exactPairs, out) && Agree(jsonPairs, jsonOut)
      invariant LongestKey(maxPending, out)
    {
      var rep := reps[i];
      OriginalsStep(reps, i);
      if rep.placeholder == "" || rep.placeholder in out {
        continue;
      }
      var escaped := JsonEscape.Escape(rep.original);
      EscapedAdd(out, rep.placeholder, rep.original);
      AgreeAdd(exactPairs, out, rep.placeholder, rep.original);
      AgreeAdd(jsonPairs, jsonOut, rep.placeholder, escaped);
      LongestAdd(maxPending, out, rep.placeholder, rep.original);
      out := out[rep.placeholder := rep.original];
      jsonOut := jsonOut[rep.placeholder := escaped];
      exactPairs := exactPairs + [(rep.placeholder, rep.original)];
      jsonPairs := jsonPairs + [(rep.placeholder, escaped)];
      if |rep.placeholder| > maxPending {
        maxPending := |rep.placeholder|;
      }
    }
    assert reps[..|reps|] == reps;
  }

  lemma EmptyIndex(reps: seq<Masking.Replacement>)
    ensures Originals(reps[..0]) == map[] && JsonCommute.Escaped(map[]) == map[]
    ensures Agree([], map[]) && LongestKey(0, map[])
  {
  }

  lemma OriginalsStep(reps: seq<Masking.Replacement>, i: nat)
    requires i < |reps|
    ensures var m := Originals(reps[..i]);
            Originals(reps[..i + 1]) ==
              if reps[i].placeholder == "" || reps[i].placeholder in m then m
              else m[reps[i].placeholder := reps[i].original]
  {
    assert reps[..i + 1][..i] == reps[..i];
  }

  lemma EscapedAdd(m: map<string, string>, w: string, o: string)
    ensures w in m <==> w in JsonCommute.Escaped(m)
    ensures JsonCommute.Escaped(m[w := o]) == JsonCommute.Escaped(m)[w := JsonEscape.Escape(o)]
  {
    hide JsonEscape.Escape;
  }

  lemma LongestAdd(n: nat, m: map<string, string>, w: string, o: string)
    requires LongestKey(n, m)
    ensures LongestKey(if |w| > n then |w| else n, m[w := o])
  {
    if |w| <= n && n > 0 {
      var v :| v in m && |v| == n;
      assert v in m[w := o];
    } else {
      assert w in m[w := o];
    }
  }

  /** A replacement whose placeholder occurs once is what the index restores. */
  lemma {:induction false} OriginalsLists(reps: seq<Masking.Replacement>)
    requires forall i, j :: 0 <= i < j < |reps| ==> reps[i].placeholder != reps[j].placeholder
    requires forall i :: 0 <= i < |reps| ==> reps[i].placeholder != ""
    ensures forall i :: 0 <= i < |reps| ==>
              reps[i].placeholder in Originals(reps) && Originals(reps)[reps[i].placeholder] == reps[i].original
    ensures forall w :: w in Originals(reps) ==> exists i :: 0 <= i < |reps| && reps[i].placeholder == w
  {
    if reps != [] {
      var before, r := reps[..|reps| - 1], reps[|reps| - 1];
      OriginalsLists(before);
      forall i | 0 <= i < |reps|
        ensures reps[i].placeholder in Originals(reps) && Originals(reps)[reps[i].placeholder] == reps[i].original
      {
        if i < |before| { assert before[i] == reps[i]; }
      }
      forall w | w in Originals(reps)
        ensures exists i :: 0 <= i < |reps| && reps[i].placeholder == w
      {
        if w in Originals(before) {
          var i :| 0 <= i < |before| && before[i].placeholder == w;
          assert reps[i].placeholder == w;
        } else {
          assert reps[|reps| - 1].placeholder == w;
        }
      }
    }
  }

  /** A demasker's view: the index, the resolved rules, and the larger of both length bounds. */
  function MakeView(pairs: Pairs, originals: map<string, string>, rules: seq<DriftRule>, indexMax: nat, ruleMax: nat): View {
    View(pairs, originals, rules, if ruleMax > indexMax then ruleMax else indexMax)
  }
}
