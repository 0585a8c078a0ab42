/** Small vocabulary about texts shared by every module. */
module Text {

  datatype Option<+T> = None | Some(value: T)

  /** The concatenation of all parts, in order. */
  function Join(parts: seq<string>): string {
    if parts == [] then "" else parts[0] + Join(parts[1..])
  }

  lemma {:induction false} JoinAppend(a: seq<string>, b: seq<string>)
    ensures Join(a + b) == Join(a) + Join(b)
  {
    if a == [] {
      assert a + b == b;
    } else {
      assert (a + b)[1..] == a[1..] + b;
      JoinAppend(a[1..], b);
    }
  }

  lemma JoinSnoc(a: seq<string>, s: string)
    ensures Join(a + [s]) == Join(a) + s
  {
    JoinAppend(a, [s]);
    assert Join([s]) == s + Join([]);
  }

  // Sequence identities the solver is slow to find inside larger proofs.

  lemma HeadTail<T>(s: seq<T>)
    requires s != []
    ensures s == [s[0]] + s[1..]
  {
  }

  lemma Reassociate<T>(a: seq<T>, b: seq<T>, c: seq<T>)
    ensures a + b + c == a + (b + c)
  {
  }

  lemma DropDrop<T>(s: seq<T>, i: nat, j: nat)
    requires i + j <= |s|
    ensures s[i..][j..] == s[i + j..]
  {
  }

  lemma TakeDrop<T>(s: seq<T>, i: nat)
    requires i <= |s|
    ensures s == s[..i] + s[i..]
  {
  }

  lemma AppendDrop<T>(a: seq<T>, b: seq<T>, i: nat)
    requires i <= |a|
    ensures (a + b)[i..] == a[i..] + b
    ensures (a + b)[..i] == a[..i]
  {
  }

  lemma TakeSnoc<T>(s: seq<T>, i: nat)
    requires i < |s|
    ensures s[..i + 1] == s[..i] + [s[i]]
  {
  }

  /** `needle` stands in `hay` from position `i` on. */
  predicate OccursAt(needle: string, hay: string, i: nat) {
    i + |needle| <= |hay| && hay[i..i + |needle|] == needle
  }

  /** `needle` is a contiguous part of `hay`. */
  ghost predicate Occurs(needle: string, hay: string) {
    exists i: nat :: OccursAt(needle, hay, i)
  }

  lemma OccursInSuffix(needle: string, hay: string, k: nat)
    requires k <= |hay| && Occurs(needle, hay[k..])
    ensures Occurs(needle, hay)
  {
    var i: nat :| OccursAt(needle, hay[k..], i);
    assert hay[k..][i..i + |needle|] == hay[k + i..k + i + |needle|];
    assert OccursAt(needle, hay, k + i);
  }

  lemma OccursInPrefix(needle: string, hay: string, k: nat)
    requires k <= |hay| && Occurs(needle, hay[..k])
    ensures Occurs(needle, hay)
  {
    var i: nat :| OccursAt(needle, hay[..k], i);
    assert hay[..k][i..i + |needle|] == hay[i..i + |needle|];
    assert OccursAt(needle, hay, i);
  }

  lemma OccursMember(needle: string, hay: string, c: char)
    ensures Occurs(needle, hay) && c in needle ==> c in hay
  {
    if Occurs(needle, hay) && c in needle {
      var i: nat :| OccursAt(needle, hay, i);
      var k :| 0 <= k < |needle| && needle[k] == c;
      assert hay[i..i + |needle|][k] == hay[i + k];
    }
  }
}
