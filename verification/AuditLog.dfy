/**
 The audit log of the in-memory backend: at most a configured number of records, the oldest making
 room for a new one.
 */
module AuditLog {
  import opened Ordering
  import opened AuditIndex

  type Log = map<string, Record>

  /** Every record stands under its own request ID. */
  ghost predicate WellKeyed(log: Log) {
    forall id :: id in log ==> log[id].id == id
  }

  /** The order in which one iteration over the log visits its request IDs; any order may occur. */
  ghost predicate Visits(order: seq<string>, log: Log) {
    && (forall id :: id in order <==> id in log)
    && (forall i, j :: 0 <= i < j < |order| ==> order[i] != order[j])
  }

  function Age(r: Record): Key {
    Key(r.micro, 0, r.id)
  }

  predicate Older(a: Record, b: Record) {
    a.micro < b.micro || (a.micro == b.micro && a.id != b.id && StrLe(a.id, b.id))
  }

  /** The record with the smallest timestamp and, among those, the smallest request ID. */
  ghost predicate Least(log: Log, id: string) {
    id in log && forall k :: k in log ==> KeyLe(Age(log[id]), Age(log[k]))
  }

  /** What an iteration has settled on; the blank ID doubles as "none yet". */
  function Oldest(log: Log, order: seq<string>): (id: string)
    requires forall i :: 0 <= i < |order| ==> order[i] in log
    ensures id == "" || id in order
  {
    if order == [] then "" else
      var before, id := Oldest(log, order[..|order| - 1]), order[|order| - 1];
      if before == "" || Older(log[id], log[before]) then id else before
  }

  function Evicted(log: Log, order: seq<string>): Log
    requires forall i :: 0 <= i < |order| ==> order[i] in log
  {
    if Oldest(log, order) == "" then log else log - {Oldest(log, order)}
  }

  function Stored(log: Log, cap: int, order: seq<string>, rec: Record): Log
    requires forall i :: 0 <= i < |order| ==> order[i] in log
  {
    (if rec.id !in log && 0 < cap <= |log| then Evicted(log, order) else log)[rec.id := rec]
  }

  lemma OlderIs(a: Record, b: Record)
    requires a.id != b.id
    ensures Older(a, b) <==> KeyLe(Age(a), Age(b))
    ensures Older(a, b) <==> !Older(b, a)
  {
    StrLeTotal(a.id, b.id);
  }

  /** Once the iteration has seen a least record with a proper ID, it stays with it. */
  lemma {:induction false} StaysWithLeast(log: Log, order: seq<string>, id: string)
    requires WellKeyed(log) && Least(log, id) && id != "" && id in order
    requires forall i :: 0 <= i < |order| ==> order[i] in log
    ensures Oldest(log, order) == id
  {
    var last, before := order[|order| - 1], Oldest(log, order[..|order| - 1]);
    if last == id {
      if before != "" && before != id {
        OlderIs(log[id], log[before]);
      }
    } else {
      assert order == order[..|order| - 1] + [last];
      StaysWithLeast(log, order[..|order| - 1], id);
      OlderIs(log[id], log[last]);
    }
  }

  /** With a blank ID that is least, the iteration ends with nothing exactly when it visits that ID last. */
  lemma BlankLast(log: Log, order: seq<string>)
    requires WellKeyed(log) && Least(log, "") && Visits(order, log)
    ensures order != []
    ensures Oldest(log, order) == "" <==> order[|order| - 1] == ""
  {
    assert "" in order;
    var last, before := order[|order| - 1], Oldest(log, order[..|order| - 1]);
    if last == "" {
      if before != "" {
        OlderIs(log[""], log[before]);
      }
    }
  }

  /** In whatever order the log is visited, the least record is the one removed, unless its ID is blank. */
  lemma RemovesLeastExactlyWhenNamed(log: Log, order: seq<string>, id: string)
    requires WellKeyed(log) && Visits(order, log) && Least(log, id)
    ensures Evicted(log, order) == log - {id} <==> id != ""
  {
    if id != "" {
      StaysWithLeast(log, order, id);
    } else {
      var gone := Oldest(log, order);
      assert "" in log && "" !in log - {""};
      assert "" in Evicted(log, order);
    }
  }

  lemma {:induction false} LeastExists(log: Log) returns (id: string)
    requires WellKeyed(log) && log != map[]
    ensures Least(log, id)
    decreases |log|
  {
    var x :| x in log;
    var rest := log - {x};
    assert |log| == |rest| + 1 by {
      SizeLess(log, x);
    }
    if rest == map[] {
      id := x;
      forall k | k in log
        ensures KeyLe(Age(log[id]), Age(log[k]))
      {
        OnlyKey(log, x, k);
        KeyLeTotal(Age(log[x]), Age(log[x]));
      }
    } else {
      var y := LeastExists(rest);
      id := if KeyLe(Age(log[x]), Age(log[y])) then x else y;
      KeyLeTotal(Age(log[x]), Age(log[y]));
      KeyLeTotal(Age(log[x]), Age(log[x]));
      forall k | k in log
        ensures KeyLe(Age(log[id]), Age(log[k]))
      {
        KeptKey(log, x, k);
        if id == x && k != x {
          KeyLeTransitive(Age(log[x]), Age(log[y]), Age(log[k]));
        }
      }
    }
  }

  lemma OnlyKey(log: Log, x: string, k: string)
    requires log - {x} == map[] && k in log
    ensures k == x
  {
    assert k != x ==> k in log - {x};
  }

  lemma KeptKey(log: Log, x: string, k: string)
    ensures k in log && k != x ==> k in log - {x} && (log - {x})[k] == log[k]
  {}

  lemma SizeLess(log: Log, x: string)
    requires x in log
    ensures |log - {x}| == |log| - 1
  {
    assert log.Keys == (log - {x}).Keys + {x};
    assert |log.Keys| == |log| && |(log - {x}).Keys| == |log - {x}|;
  }

  lemma SizeStored(log: Log, rec: Record)
    ensures |log[rec.id := rec]| == if rec.id in log then |log| else |log| + 1
  {
    var after := log[rec.id := rec];
    assert after.Keys == log.Keys + {rec.id};
    assert |after.Keys| == |after| && |log.Keys| == |log|;
  }

  /** The cap holds after every store, except a store that makes room and finds a least blank ID last. */
  lemma CapKeptExactly(log: Log, cap: int, order: seq<string>, rec: Record)
    requires WellKeyed(log) && Visits(order, log) && 0 < cap && |log| <= cap
    ensures |Stored(log, cap, order, rec)| <= cap <==>
            !(rec.id !in log && |log| == cap && Least(log, "") && order != [] && order[|order| - 1] == "")
  {
    hide Least, WellKeyed, Visits;
    SizeStored(log, rec);
    if rec.id !in log && |log| == cap {
      var id := LeastExists(log);
      Sizes(log, order, id, rec);
      OneLeast(log, id, "");
    }
  }

  lemma OneLeast(log: Log, a: string, b: string)
    requires WellKeyed(log) && Least(log, a)
    ensures Least(log, b) ==> a == b
  {
    if Least(log, b) {
      KeyLeTotal(Age(log[a]), Age(log[b]));
    }
  }

  lemma Sizes(log: Log, order: seq<string>, id: string, rec: Record)
    requires WellKeyed(log) && Visits(order, log) && Least(log, id) && rec.id !in log
    ensures order != []
    ensures var after := Evicted(log, order)[rec.id := rec];
            |after| == if id == "" && order[|order| - 1] == "" then |log| + 1 else |log|
  {
    assert id in order;
    var gone := Oldest(log, order);
    SizeStored(Evicted(log, order), rec);
    if id != "" {
      StaysWithLeast(log, order, id);
    } else {
      BlankLast(log, order);
    }
    if gone != "" {
      SizeLess(log, gone);
    }
  }

  /** A stored record reads back, and every record but the evicted one is untouched. */
  lemma StoredKeepsTheRest(log: Log, cap: int, order: seq<string>, rec: Record, k: string)
    requires WellKeyed(log) && Visits(order, log)
    ensures rec.id in Stored(log, cap, order, rec) && Stored(log, cap, order, rec)[rec.id] == rec
    ensures k in log && k != rec.id && !Least(log, k) && !Least(log, "") ==>
            k in Stored(log, cap, order, rec) && Stored(log, cap, order, rec)[k] == log[k]
  {
    hide Least, WellKeyed, Visits;
    if k in log && !Least(log, "") {
      var id := LeastExists(log);
      RemovesLeastExactlyWhenNamed(log, order, id);
    }
  }

  class AuditLogStore {
    const cap: int
    var audit: Log

    ghost predicate Valid()
      reads this
    {
      WellKeyed(audit)
    }

    constructor (cap: int)
      ensures Valid() && audit == map[] && this.cap == cap
    {
      this.cap := cap;
      audit := map[];
    }

    method EvictOldest(order: seq<string>)
      requires Valid() && Visits(order, audit)
      modifies this
      ensures Valid() && audit == Evicted(old(audit), order)
    {
      var oldest := "";
      assert order[..0] == [];
      for i := 0 to |order|
        invariant audit == old(audit) && oldest == Oldest(audit, order[..i])
      {
        assert order[..i + 1][..i] == order[..i];
        assert order[i] in order;
        if oldest == "" || Older(audit[order[i]], audit[oldest]) {
          oldest := order[i];
        }
      }
      assert order[..|order|] == order;
      if oldest != "" {
        audit := audit - {oldest};
      }
    }

    /** Stores a record taken at `nano`, kept in microseconds. */
    method PutAuditRecord(rec: Record, nano: int, order: seq<string>)
      requires Valid() && Visits(order, audit)
      modifies this
      ensures Valid() && audit == Stored(old(audit), cap, order, rec.(micro := nano / 1000))
    {
      var kept := rec.(micro := nano / 1000);
      if kept.id !in audit && cap > 0 && |audit| >= cap {
        EvictOldest(order);
      }
      audit := audit[kept.id := kept];
    }
  }
}
