/** The sort key shared by the scanners: start ascending, length descending, then rule ID. */
module Ordering {
  import opened Text

  /** Bytewise comparison of Go strings. */
  predicate StrLe(a: string, b: string) {
    a == "" || (b != "" && (a[0] < b[0] || (a[0] == b[0] && StrLe(a[1..], b[1..]))))
  }

  lemma {:induction false} StrLeTotal(a: string, b: string)
    ensures StrLe(a, b) || StrLe(b, a)
    ensures StrLe(a, b) && StrLe(b, a) ==> a == b
  {
    if a != "" && b != "" && a[0] == b[0] {
      StrLeTotal(a[1..], b[1..]);
      assert a == [a[0]] + a[1..] && b == [b[0]] + b[1..];
    }
  }

  lemma {:induction false} StrLeTransitive(a: string, b: string, c: string)
    requires StrLe(a, b) && StrLe(b, c)
    ensures StrLe(a, c)
  {
    if a != "" && a[0] == b[0] && b[0] == c[0] {
      StrLeTransitive(a[1..], b[1..], c[1..]);
    }
  }

  datatype Key = Key(start: int, len: int, id: string)

  predicate KeyLe(a: Key, b: Key) {
    a.start < b.start || (a.start == b.start && (a.len > b.len || (a.len == b.len && StrLe(a.id, b.id))))
  }

  lemma KeyLeTotal(a: Key, b: Key)
    ensures KeyLe(a, b) || KeyLe(b, a)
    ensures KeyLe(a, b) && KeyLe(b, a) ==> a == b
  {
    StrLeTotal(a.id, b.id);
  }

  lemma KeyLeTransitive(a: Key, b: Key, c: Key)
    requires KeyLe(a, b) && KeyLe(b, c)
    ensures KeyLe(a, c)
  {
    if a.start == c.start && a.len == c.len {
      StrLeTransitive(a.id, b.id, c.id);
    }
  }

  ghost predicate SortedOn<T>(key: T -> Key, s: seq<T>) {
    forall i, j :: 0 <= i < j < |s| ==> KeyLe(key(s[i]), key(s[j]))
  }

  function Insert<T>(key: T -> Key, x: T, s: seq<T>): (r: seq<T>)
    ensures multiset(r) == multiset{x} + multiset(s)
  {
    if s == [] then [x]
    else if KeyLe(key(x), key(s[0])) then [x] + s
    else
      assert s == [s[0]] + s[1..];
      [s[0]] + Insert(key, x, s[1..])
  }

  /** The library sort; any sorting routine gives the same result when keys tell elements apart. */
  function SortOn<T>(key: T -> Key, s: seq<T>): (r: seq<T>)
    ensures multiset(r) == multiset(s)
  {
    if s == [] then []
    else
      assert s == [s[0]] + s[1..];
      Insert(key, s[0], SortOn(key, s[1..]))
  }

  lemma {:induction false} InsertSorted<T>(key: T -> Key, x: T, s: seq<T>)
    requires SortedOn(key, s)
    ensures SortedOn(key, Insert(key, x, s))
  {
    if s != [] {
      KeyLeTotal(key(x), key(s[0]));
      if KeyLe(key(x), key(s[0])) {
        forall j | 0 <= j < |s|
          ensures KeyLe(key(x), key(s[j]))
        {
          if j > 0 { KeyLeTransitive(key(x), key(s[0]), key(s[j])); }
        }
      } else {
        var r := Insert(key, x, s[1..]);
        InsertSorted(key, x, s[1..]);
        forall j | 0 <= j < |r|
          ensures KeyLe(key(s[0]), key(r[j]))
        {
          assert r[j] in multiset(r);
          assert r[j] == x || r[j] in s[1..];
        }
      }
    }
  }

  lemma {:induction false} SortOnSorts<T>(key: T -> Key, s: seq<T>)
    ensures SortedOn(key, SortOn(key, s))
  {
    if s != [] {
      SortOnSorts(key, s[1..]);
      InsertSorted(key, s[0], SortOn(key, s[1..]));
    }
  }

  lemma {:induction false} SortedUnchanged<T>(key: T -> Key, s: seq<T>)
    requires SortedOn(key, s)
    ensures SortOn(key, s) == s
  {
    if s != [] {
      SortedUnchanged(key, s[1..]);
      assert s == [s[0]] + s[1..];
    }
  }

  /** The key tells the elements of `s` apart. */
  ghost predicate KeyDetermines<T>(key: T -> Key, s: multiset<T>) {
    forall x, y :: x in s && y in s && key(x) == key(y) ==> x == y
  }

  /** Sorting forgets the order in which the elements arrived. */
  lemma SortIgnoresOrder<T>(key: T -> Key, a: seq<T>, b: seq<T>)
    requires multiset(a) == multiset(b) && KeyDetermines(key, multiset(a))
    ensures SortOn(key, a) == SortOn(key, b)
  {
    SortOnSorts(key, a);
    SortOnSorts(key, b);
    SortedUnique(key, SortOn(key, a), SortOn(key, b));
  }

  lemma {:induction false} SortedUnique<T>(key: T -> Key, a: seq<T>, b: seq<T>)
    requires multiset(a) == multiset(b) && KeyDetermines(key, multiset(a))
    requires SortedOn(key, a) && SortedOn(key, b)
    ensures a == b
  {
    hide *;
    SameLength(a, b);
    if a != [] {
      SameHead(key, a, b);
      TailMultiset(key, a);
      TailMultiset(key, b);
      TailSorted(key, a);
      TailSorted(key, b);
      SortedUnique(key, a[1..], b[1..]);
      HeadTail(a);
      HeadTail(b);
    }
  }

  lemma SameLength<T>(a: seq<T>, b: seq<T>)
    requires multiset(a) == multiset(b)
    ensures |a| == |b|
  {
    assert |multiset(a)| == |a| && |multiset(b)| == |b|;
  }

  lemma TailMultiset<T>(key: T -> Key, a: seq<T>)
    requires a != []
    ensures multiset(a[1..]) == multiset(a) - multiset{a[0]}
    ensures KeyDetermines(key, multiset(a)) ==> KeyDetermines(key, multiset(a[1..]))
  {
    assert a == [a[0]] + a[1..];
  }

  lemma TailSorted<T>(key: T -> Key, a: seq<T>)
    requires a != [] && SortedOn(key, a)
    ensures SortedOn(key, a[1..])
  {
  }

  lemma SameHead<T>(key: T -> Key, a: seq<T>, b: seq<T>)
    requires a != [] && b != []
    requires multiset(a) == multiset(b) && KeyDetermines(key, multiset(a))
    requires SortedOn(key, a) && SortedOn(key, b)
    ensures a[0] == b[0]
  {
    assert a[0] in multiset(b) && b[0] in multiset(a);
    var i :| 0 <= i < |b| && b[i] == a[0];
    var j :| 0 <= j < |a| && a[j] == b[0];
    assert i == 0 || KeyLe(key(b[0]), key(b[i]));
    assert j == 0 || KeyLe(key(a[0]), key(a[j]));
    KeyLeTotal(key(a[0]), key(b[0]));
  }
}
