/**
 The audit listing of the Redis backend: a bounded number of score windows over the index, cut into
 pages; the index is the sequence of its members in listing order.
 */
module AuditIndex {
  import opened Text
  import opened Ordering

  const DEFAULT_PAGE_SIZE := 50
  const MAX_PAGE_SIZE := 500
  const MAX_ROUNDS := 10
  const MIN_BATCH := 100

  /** An index member: the record's timestamp in microseconds, and its request ID. */
  datatype Member = Member(score: int, id: string)

  datatype Record = Record(id: string, micro: int, model: string, path: string, ruleIds: set<string>, dataTypes: set<int>)

  /** The position a page's last record marks. */
  datatype Cursor = Cursor(micro: int, id: string)

  datatype Page = Page(records: seq<Record>, next: Option<Cursor>)

  /** Filters; empty, zero and absent values mean any. */
  datatype Query = Query(model: string, path: string, ruleId: string, dataType: int,
                         since: Option<int>, until: Option<int>, limit: int)
  {
    predicate Matches(r: Record) {
      && (model != "" ==> r.model == model)
      && (path != "" ==> r.path == path)
      && (ruleId != "" ==> ruleId in r.ruleIds)
      && (dataType != 0 ==> dataType in r.dataTypes)
      && (since.Some? ==> r.micro >= since.value)
      && (until.Some? ==> r.micro < until.value)
    }

    function ClampLimit(): (n: nat)
      ensures 1 <= n <= MAX_PAGE_SIZE
    {
      if limit <= 0 then DEFAULT_PAGE_SIZE else if limit > MAX_PAGE_SIZE then MAX_PAGE_SIZE else limit
    }

    function Batch(): (n: nat)
      ensures n > ClampLimit() && n >= MIN_BATCH
    {
      if ClampLimit() + 1 > MIN_BATCH then ClampLimit() + 1 else MIN_BATCH
    }
  }

  // ---- the order of the index ----

  function KeyOf(m: Member): Key {
    Key(m.score, 0, m.id)
  }

  /** Timestamp descending, then request ID descending. */
  predicate Precedes(a: Member, b: Member) {
    a != b && KeyLe(KeyOf(b), KeyOf(a))
  }

  /** Members stand in listing order, and no request ID occurs twice. */
  ghost predicate Index(s: seq<Member>) {
    && (forall i, j :: 0 <= i < j < |s| ==> Precedes(s[i], s[j]))
    && (forall i, j :: 0 <= i < j < |s| ==> s[i].id != s[j].id)
  }

  /** Where the members with a score of at most `max` begin. */
  function Start(s: seq<Member>, max: int): (a: nat)
    ensures a <= |s| && (a < |s| ==> s[a].score <= max) && forall i :: 0 <= i < a ==> s[i].score > max
  {
    if s == [] || s[0].score <= max then 0 else 1 + Start(s[1..], max)
  }

  predicate AtOrBefore(c: Cursor, m: Member) {
    !Precedes(Member(c.micro, c.id), m)
  }

  /** The first position strictly after the cursor. */
  function Pos(s: seq<Member>, c: Cursor): (p: nat)
    ensures p <= |s| && (p < |s| ==> !AtOrBefore(c, s[p])) && forall i :: 0 <= i < p ==> AtOrBefore(c, s[i])
  {
    if s == [] || !AtOrBefore(c, s[0]) then 0 else 1 + Pos(s[1..], c)
  }

  function Min(a: nat, b: nat): nat {
    if a <= b then a else b
  }

  // ---- the records behind the members ----

  /** The live records; an index member may have outlived its record. */
  type Store = map<string, Record>

  ghost predicate Consistent(s: seq<Member>, store: Store) {
    forall m :: m in s && m.id in store ==> store[m.id].id == m.id && store[m.id].micro == m.score
  }

  predicate Hit(store: Store, q: Query, m: Member) {
    m.id in store && q.Matches(store[m.id])
  }

  /** The matching records of positions `lo` to `hi`, in order. */
  function Matching(s: seq<Member>, store: Store, q: Query, lo: nat, hi: nat): (r: seq<Record>)
    requires hi <= |s|
    ensures hi <= lo ==> r == []
    decreases hi
  {
    if hi <= lo then [] else
      var before := Matching(s, store, q, lo, hi - 1);
      if Hit(store, q, s[hi - 1]) then before + [store[s[hi - 1].id]] else before
  }

  function Take<T>(s: seq<T>, n: nat): seq<T> {
    if |s| <= n then s else s[..n]
  }

  // ---- the scan ----

  function WindowStart(s: seq<Member>, max: Option<int>): (a: nat)
    ensures a <= |s|
  {
    if max.None? then 0 else Start(s, max.value)
  }

  /** ZREVRANGEBYSCORE with a count: the window of members from the given score down. */
  function Window(s: seq<Member>, max: Option<int>, count: nat): (w: seq<Member>)
  {
    var a := WindowStart(s, max);
    s[a..Min(a + count, |s|)]
  }

  /**
   The rounds from one window on: `a` is where the window begins, `x` how far the index has been
   examined, `p` where the page begins.  The result says how far it was examined in the end, and
   whether the scan took the index to be exhausted.
   */
  function Scan(s: seq<Member>, store: Store, q: Query, p: nat, a: nat, x: nat, round: nat): (r: (nat, bool))
    requires a <= x <= |s| && round < MAX_ROUNDS
    ensures x <= r.0 <= |s|
    decreases MAX_ROUNDS - round
  {
    var e := Min(a + q.Batch(), |s|);
    if e == a then (x, true)
    else if e - a < q.Batch() then (e, true)
    else if e <= x then (x, true)
    else if round + 1 == MAX_ROUNDS || |Matching(s, store, q, p, e)| > q.ClampLimit() then (e, false)
    else Scan(s, store, q, p, Min(Start(s, s[e - 1].score), e), e, round + 1)
  }

  /** Where a page begins, and where its first window does. */
  function PageStart(s: seq<Member>, cursor: Option<Cursor>): (r: (nat, nat))
    ensures r.0 <= |s| && r.1 <= |s|
  {
    match cursor
    case None => (0, 0)
    case Some(c) => (Pos(s, c), Start(s, c.micro))
  }

  /** The page a listing returns. */
  function PageOf(s: seq<Member>, store: Store, q: Query, cursor: Option<Cursor>): Page {
    var (p, a) := PageStart(s, cursor);
    var (x, exhausted) := Scan(s, store, q, p, a, a, 0);
    var found := Matching(s, store, q, p, x);
    var limit := q.ClampLimit();
    if |found| > limit then Page(found[..limit], Some(Cursor(found[limit - 1].micro, found[limit - 1].id)))
    else if !exhausted && x > 0 && s[x - 1].id != "" then Page(found, Some(Cursor(s[x - 1].score, s[x - 1].id)))
    else Page(found, None)
  }

  // ---- the listing ----

  /** The request IDs at positions `lo` to `hi`, as a set and in order. */
  function IdsAt(s: seq<Member>, lo: nat, hi: nat): set<string>
    requires lo <= hi <= |s|
  {
    set i | lo <= i < hi :: s[i].id
  }

  function IdSeq(s: seq<Member>, lo: nat, hi: nat): (r: seq<string>)
    requires hi <= |s|
  {
    if hi <= lo then [] else seq(hi - lo, i requires 0 <= i < hi - lo => s[lo + i].id)
  }

  function Max(a: nat, b: nat): nat {
    if a >= b then a else b
  }

  lemma IdKnown(s: seq<Member>, lo: nat, hi: nat, i: nat)
    requires Index(s) && lo <= hi <= |s| && lo <= i < |s|
    ensures s[i].id in IdsAt(s, lo, hi) <==> i < hi
  {
    if i < hi { assert s[i].id in IdsAt(s, lo, hi); }
  }

  lemma ScoresDescend(s: seq<Member>, i: nat, j: nat)
    requires Index(s) && i <= j < |s|
    ensures s[i].score >= s[j].score
  {
    if i < j { assert Precedes(s[i], s[j]); }
  }

  /** Everything after the cursor's position is after the cursor. */
  lemma AfterPos(s: seq<Member>, c: Cursor, i: nat)
    requires Index(s) && i < |s|
    ensures AtOrBefore(c, s[i]) <==> i < Pos(s, c)
  {
    var p := Pos(s, c);
    if p < i {
      assert Precedes(s[p], s[i]);
      KeyLeTransitive(KeyOf(s[i]), KeyOf(s[p]), Key(c.micro, 0, c.id));
      KeyLeTotal(KeyOf(s[i]), KeyOf(s[p]));
      KeyLeTotal(KeyOf(s[p]), Key(c.micro, 0, c.id));
    }
  }

  /** Inside the cursor's first window only ties of its score can be at or before it. */
  lemma CursorTie(s: seq<Member>, c: Cursor, i: nat)
    requires Index(s) && Start(s, c.micro) <= i < |s|
    ensures (s[i].score == c.micro && StrLe(c.id, s[i].id)) <==> i < Pos(s, c)
  {
    ScoresDescend(s, Start(s, c.micro), i);
    AfterPos(s, c, i);
    StrLeTotal(c.id, s[i].id);
  }

  /** Walks one window: which IDs to fetch, and whether any member was new. */
  method Examine(ghost s: seq<Member>, ghost a: nat, ghost x: nat, ghost e: nat, zs: seq<Member>, seen: set<string>,
                 cursor: Option<Cursor>)
    returns (ids: seq<string>, progressed: bool, last: Member)
    requires Index(s) && a <= x <= |s| && a < e <= |s| && zs == s[a..e] && seen == IdsAt(s, a, x)
    requires a >= PageStart(s, cursor).1
    ensures progressed <==> e > x
    ensures progressed ==> last == s[e - 1]
    ensures ids == IdSeq(s, Max(x, PageStart(s, cursor).0), e)
  {
    hide *;
    ghost var p := PageStart(s, cursor).0;
    ids, progressed, last := [], false, zs[0];
    AtLeast(x, p);
    NoIds(s, x, p, a);
    for i := 0 to |zs|
      invariant progressed <==> a + i > x
      invariant progressed ==> last == s[a + i - 1]
      invariant ids == IdSeq(s, Max(x, p), a + i)
    {
      var z := zs[i];
      ExamineStep(s, a, x, a + i, cursor);
      if z.id in seen {
        continue;
      }
      progressed := true;
      last := z;
      if cursor.Some? && z.score == cursor.value.micro && StrLe(cursor.value.id, z.id) {
        continue;
      }
      ids := ids + [z.id];
    }
  }

  lemma NoIds(s: seq<Member>, x: nat, p: nat, hi: nat)
    requires hi <= |s| && hi <= Max(x, p)
    ensures IdSeq(s, Max(x, p), hi) == []
  {
  }

  lemma ExamineStep(s: seq<Member>, a: nat, x: nat, i: nat, cursor: Option<Cursor>)
    requires Index(s) && a <= x <= |s| && a <= i < |s| && a >= PageStart(s, cursor).1
    ensures s[i].id in IdsAt(s, a, x) <==> i < x
    ensures var p := PageStart(s, cursor).0;
            && IdSeq(s, Max(x, p), i + 1) == (if x <= i && p <= i then IdSeq(s, Max(x, p), i) + [s[i].id] else IdSeq(s, Max(x, p), i))
            && ((cursor.Some? && s[i].score == cursor.value.micro && StrLe(cursor.value.id, s[i].id)) <==> i < p)
  {
    hide Index, IdsAt, IdSeq, Pos, Start;
    IdKnown(s, a, x, i);
    OneMoreId(s, Max(x, PageStart(s, cursor).0), i);
    if cursor.Some? { CursorTie(s, cursor.value, i); }
  }

  lemma OneMoreId(s: seq<Member>, lo: nat, i: nat)
    requires i < |s|
    ensures IdSeq(s, lo, i + 1) == if lo <= i then IdSeq(s, lo, i) + [s[i].id] else IdSeq(s, lo, i)
  {
  }

  /** The live, matching records of the given IDs. */
  function Fetched(store: Store, q: Query, ids: seq<string>): seq<Record> {
    if ids == [] then [] else
      var before, id := Fetched(store, q, ids[..|ids| - 1]), ids[|ids| - 1];
      if id in store && q.Matches(store[id]) then before + [store[id]] else before
  }

  method Collect(store: Store, q: Query, ids: seq<string>, sofar: seq<Record>, limit: nat) returns (collected: seq<Record>)
    requires |sofar| <= limit
    ensures collected == Take(sofar + Fetched(store, q, ids), limit + 1)
  {
    collected := sofar;
    assert ids[..0] == [] && sofar + [] == sofar;
    for i := 0 to |ids|
      invariant |collected| <= limit && collected == sofar + Fetched(store, q, ids[..i])
    {
      var id := ids[i];
      assert ids[..i + 1][..i] == ids[..i];
      if id !in store {
        continue;
      }
      if !q.Matches(store[id]) {
        continue;
      }
      collected := collected + [store[id]];
      if |collected| > limit {
        FetchedGrows(store, q, ids, i + 1);
        return;
      }
    }
    assert ids[..|ids|] == ids;
  }

  lemma {:induction false} FetchedGrows(store: Store, q: Query, ids: seq<string>, n: nat)
    requires n <= |ids|
    ensures Fetched(store, q, ids[..n]) <= Fetched(store, q, ids)
    decreases |ids|
  {
    if n == |ids| {
      assert ids[..n] == ids;
    } else {
      FetchedGrows(store, q, ids[..|ids| - 1], n);
      assert ids[..|ids| - 1][..n] == ids[..n];
    }
  }

  /** The records fetched for new positions extend the matches found so far. */
  lemma {:induction false} FetchedIsMatching(s: seq<Member>, store: Store, q: Query, p: nat, x: nat, e: nat)
    requires x <= e <= |s|
    ensures Matching(s, store, q, p, e) == Matching(s, store, q, p, x) + Fetched(store, q, IdSeq(s, Max(x, p), e))
    decreases e
  {
    hide *;
    var lo := Max(x, p);
    if e <= lo {
      FetchedNone(store, q);
      NoIds(s, x, p, e);
      NoneInside(s, store, q, p, x, e);
    } else {
      var ids, id := IdSeq(s, lo, e - 1), s[e - 1].id;
      AtLeast(x, p);
      OneMoreId(s, lo, e - 1);
      FetchedSnoc(store, q, ids, id);
      MatchingSnoc(s, store, q, p, e);
      FetchedIsMatching(s, store, q, p, x, e - 1);
      HitIs(store, q, s[e - 1]);
      if Hit(store, q, s[e - 1]) {
        Reassociate(Matching(s, store, q, p, x), Fetched(store, q, ids), [store[id]]);
      }
    }
  }

  lemma AtLeast(x: nat, p: nat)
    ensures x <= Max(x, p) && p <= Max(x, p)
  {
  }

  lemma HitIs(store: Store, q: Query, m: Member)
    ensures Hit(store, q, m) <==> m.id in store && q.Matches(store[m.id])
  {
  }

  lemma FetchedNone(store: Store, q: Query)
    ensures Fetched(store, q, []) == []
  {
  }

  lemma FetchedSnoc(store: Store, q: Query, ids: seq<string>, id: string)
    ensures Fetched(store, q, ids + [id])
            == if id in store && q.Matches(store[id]) then Fetched(store, q, ids) + [store[id]] else Fetched(store, q, ids)
  {
    assert (ids + [id])[..|ids|] == ids;
  }

  lemma MatchingSnoc(s: seq<Member>, store: Store, q: Query, p: nat, e: nat)
    requires p < e <= |s|
    ensures Matching(s, store, q, p, e)
            == if Hit(store, q, s[e - 1]) then Matching(s, store, q, p, e - 1) + [store[s[e - 1].id]]
               else Matching(s, store, q, p, e - 1)
  {
  }

  lemma NoneInside(s: seq<Member>, store: Store, q: Query, p: nat, x: nat, e: nat)
    requires x <= e <= |s| && e <= Max(x, p)
    ensures Matching(s, store, q, p, e) == Matching(s, store, q, p, x)
  {
  }

  /** The IDs at the window's lowest score are those from that score's start on. */
  lemma TiesAtEnd(s: seq<Member>, a: nat, e: nat, i: nat)
    requires Index(s) && a <= i < e <= |s| && (a == 0 || s[a - 1].score > s[a].score)
    ensures Start(s, s[e - 1].score) <= e - 1 && a <= Start(s, s[e - 1].score)
    ensures s[i].score == s[e - 1].score <==> Start(s, s[e - 1].score) <= i
  {
    hide Index;
    var b := Start(s, s[e - 1].score);
    ScoresDescend(s, i, e - 1);
    ScoresDescend(s, a, e - 1);
    if b <= i { ScoresDescend(s, b, i); }
    if a > 0 && b < a { ScoresDescend(s, b, a - 1); }
  }

  /** The IDs to skip in the next round. */
  method NextSeen(ghost s: seq<Member>, ghost a: nat, ghost e: nat, zs: seq<Member>, minScore: int) returns (seen: set<string>)
    requires Index(s) && a < e <= |s| && zs == s[a..e] && minScore == s[e - 1].score
    requires a == 0 || s[a - 1].score > s[a].score
    ensures WindowStart(s, Some(minScore)) == Start(s, minScore) <= e && seen == IdsAt(s, Start(s, minScore), e)
  {
    hide *;
    ghost var b := Start(s, minScore);
    TiesAtEnd(s, a, e, e - 1);
    SomeStart(s, minScore);
    seen := {};
    NoIdsAt(s, b, a);
    for i := 0 to |zs|
      invariant seen == if a + i <= b then {} else IdsAt(s, b, a + i)
    {
      TiesAtEnd(s, a, e, a + i);
      MoreIdsAt(s, b, a + i);
      if zs[i].score == minScore {
        seen := seen + {zs[i].id};
      }
    }
  }

  lemma SomeStart(s: seq<Member>, score: int)
    ensures WindowStart(s, Some(score)) == Start(s, score)
  {
  }

  lemma NoIdsAt(s: seq<Member>, b: nat, a: nat)
    requires b <= |s|
    ensures IdsAt(s, b, b) == {}
  {
  }

  lemma MoreIdsAt(s: seq<Member>, b: nat, i: nat)
    requires i < |s|
    ensures b <= i ==> IdsAt(s, b, i + 1) == IdsAt(s, b, i) + {s[i].id}
  {
  }

  /** What the scan of `s` from one window on comes to, by how the window ends. */
  lemma ScanStep(s: seq<Member>, store: Store, q: Query, p: nat, a: nat, x: nat, round: nat)
    requires Index(s) && a <= x <= |s| && round < MAX_ROUNDS
    ensures var e := Min(a + q.Batch(), |s|);
            Scan(s, store, q, p, a, x, round) ==
              if e == a then (x, true)
              else if e - a < q.Batch() then (e, true)
              else if e <= x then (x, true)
              else if round + 1 == MAX_ROUNDS || |Matching(s, store, q, p, e)| > q.ClampLimit() then (e, false)
              else Scan(s, store, q, p, Min(Start(s, s[e - 1].score), e), e, round + 1)
  {
    hide Index, Start, Matching, Pos, Query.ClampLimit, Query.Batch, Min;
    MinIs(a + q.Batch(), |s|);
  }

  /** The next window begins with the last score's first tie, and its predecessors score higher. */
  lemma NextStart(s: seq<Member>, a: nat, e: nat)
    requires a < e <= |s|
    ensures var b := Start(s, s[e - 1].score);
            Min(b, e) == b && b < e && (b == 0 || s[b - 1].score > s[b].score)
  {
  }

  lemma FirstStart(s: seq<Member>, cursor: Option<Cursor>)
    ensures var a := PageStart(s, cursor).1;
            && a <= |s| && (0 < a < |s| ==> s[a - 1].score > s[a].score)
            && a == WindowStart(s, if cursor.None? then None else Some(cursor.value.micro))
  {
  }

  lemma WindowIs(s: seq<Member>, max: Option<int>, count: nat)
    ensures var a := WindowStart(s, max);
            a <= Min(a + count, |s|) <= |s| && Window(s, max, count) == s[a..Min(a + count, |s|)]
  {
    hide WindowStart, Start;
  }

  /** What is found so far, cut after one more than a page. */
  lemma Collected(s: seq<Member>, store: Store, q: Query, p: nat, x: nat, e: nat)
    requires x <= |s| && e <= |s| && |Matching(s, store, q, p, x)| <= q.ClampLimit()
    ensures var n := Max(x, e);
            n <= |s| && Take(Matching(s, store, q, p, x) + Fetched(store, q, IdSeq(s, Max(x, p), e)), q.ClampLimit() + 1)
            == Take(Matching(s, store, q, p, n), q.ClampLimit() + 1)
  {
    hide Matching, Fetched, Query.ClampLimit;
    if x <= e {
      FetchedIsMatching(s, store, q, p, x, e);
    } else {
      NoIds(s, x, p, e);
      FetchedNone(store, q);
      assert Matching(s, store, q, p, x) + [] == Matching(s, store, q, p, x);
    }
  }

  lemma TakeIs<T>(s: seq<T>, n: nat)
    ensures |Take(s, n + 1)| <= n ==> Take(s, n + 1) == s
    ensures |Take(s, n + 1)| > n <==> |s| > n
  {
  }

  /** Where the loop stands: window start `a`, examined up to `x`, and what is left of the scan. */
  ghost predicate Scanning(s: seq<Member>, store: Store, q: Query, cursor: Option<Cursor>, a: nat, x: nat,
                           bound: Option<int>, seen: set<string>, collected: seq<Record>, last: Member, round: nat, exhausted: bool)
  {
    var (p, a0) := PageStart(s, cursor);
    && Index(s) && round <= MAX_ROUNDS && a0 <= a <= x <= |s|
    && a == WindowStart(s, bound) && (0 < a < |s| ==> s[a - 1].score > s[a].score)
    && (!exhausted ==> seen == IdsAt(s, a, x))
    && collected == Take(Matching(s, store, q, p, x), q.ClampLimit() + 1)
    && (x > a0 ==> last == s[x - 1]) && (!exhausted ==> round == 0 || x > a0)
    && Scan(s, store, q, p, a0, a0, 0)
       == if !exhausted && round < MAX_ROUNDS && |collected| <= q.ClampLimit() then Scan(s, store, q, p, a, x, round) else (x, exhausted)
  }

  lemma ScanningStarts(s: seq<Member>, store: Store, q: Query, cursor: Option<Cursor>, last: Member)
    requires Index(s)
    ensures var a := PageStart(s, cursor).1;
            Scanning(s, store, q, cursor, a, a, if cursor.None? then None else Some(cursor.value.micro), {}, [], last, 0, false)
  {
    hide Index, Scan, Matching, WindowStart, Pos, Start, IdsAt, Take;
    FirstStart(s, cursor);
    NoIdsAt(s, PageStart(s, cursor).1, 0);
    NothingBefore(s, store, q, cursor);
  }

  /** What a round needs, and how its window ends. */
  lemma ScanningRound(s: seq<Member>, store: Store, q: Query, cursor: Option<Cursor>, a: nat, x: nat,
                      bound: Option<int>, seen: set<string>, collected: seq<Record>, last: Member, round: nat)
    requires Scanning(s, store, q, cursor, a, x, bound, seen, collected, last, round, false)
    ensures Index(s) && PageStart(s, cursor).1 <= a <= x <= |s| && a == WindowStart(s, bound)
    ensures seen == IdsAt(s, a, x) && collected == Take(Matching(s, store, q, PageStart(s, cursor).0, x), q.ClampLimit() + 1)
    ensures 0 < a < |s| ==> s[a - 1].score > s[a].score
    ensures var e := Min(a + q.Batch(), |s|); a <= e <= |s| && (e < |s| ==> e - a == q.Batch()) && e - a <= q.Batch()
  {
    hide Index, Scan, Matching, WindowStart, Pos, Start, IdsAt, Take, Query.Batch, Query.ClampLimit;
  }

  /** A short or stale window ends the scan. */
  lemma ScanningEnds(s: seq<Member>, store: Store, q: Query, cursor: Option<Cursor>, a: nat, x: nat, bound: Option<int>,
                     seen: set<string>, collected: seq<Record>, collected2: seq<Record>, last: Member, last2: Member, round: nat)
    requires Scanning(s, store, q, cursor, a, x, bound, seen, collected, last, round, false)
    requires round < MAX_ROUNDS && |collected| <= q.ClampLimit()
    requires var e := Min(a + q.Batch(), |s|);
             && (e - a < q.Batch() || e <= x) && last2 == (if e > x then s[e - 1] else last)
             && collected2 == Take(Matching(s, store, q, PageStart(s, cursor).0, Max(x, e)), q.ClampLimit() + 1)
    ensures Scanning(s, store, q, cursor, a, Max(x, Min(a + q.Batch(), |s|)), bound, seen, collected2, last2, round, true)
  {
    hide Index, Scan, Matching, WindowStart, Pos, Start, IdsAt, Take, Query.Batch, Query.ClampLimit, PageStart;
    ScanStep(s, store, q, PageStart(s, cursor).0, a, x, round);
  }

  /** A full window with news leads on to the next one. */
  lemma ScanningGoesOn(s: seq<Member>, store: Store, q: Query, cursor: Option<Cursor>, a: nat, x: nat, bound: Option<int>,
                       seen: set<string>, seen2: set<string>, collected: seq<Record>, collected2: seq<Record>, last: Member, round: nat)
    requires Scanning(s, store, q, cursor, a, x, bound, seen, collected, last, round, false)
    requires round < MAX_ROUNDS && |collected| <= q.ClampLimit()
    requires var e := Min(a + q.Batch(), |s|);
             && e - a == q.Batch() && e > x && e > a
             && Start(s, s[e - 1].score) <= e && seen2 == IdsAt(s, Start(s, s[e - 1].score), e)
             && collected2 == Take(Matching(s, store, q, PageStart(s, cursor).0, e), q.ClampLimit() + 1)
    ensures var e := Min(a + q.Batch(), |s|);
            Scanning(s, store, q, cursor, Start(s, s[e - 1].score), e, Some(s[e - 1].score), seen2, collected2, s[e - 1], round + 1, false)
  {
    hide Index, Scan, Matching, WindowStart, Pos, Start, IdsAt, Take, Query.Batch, Query.ClampLimit, PageStart;
    var e := Min(a + q.Batch(), |s|);
    ScanStep(s, store, q, PageStart(s, cursor).0, a, x, round);
    NextStart(s, a, e);
    TiesAtEnd(s, a, e, e - 1);
    SomeStart(s, s[e - 1].score);
    TakeIs(Matching(s, store, q, PageStart(s, cursor).0, e), q.ClampLimit());
  }

  lemma ScanningDone(s: seq<Member>, store: Store, q: Query, cursor: Option<Cursor>, a: nat, x: nat, bound: Option<int>,
                     seen: set<string>, collected: seq<Record>, last: Member, round: nat, exhausted: bool)
    requires Scanning(s, store, q, cursor, a, x, bound, seen, collected, last, round, exhausted)
    requires exhausted || round == MAX_ROUNDS || |collected| > q.ClampLimit()
    ensures x <= |s|
    ensures var found, limit := Matching(s, store, q, PageStart(s, cursor).0, x), q.ClampLimit();
            && collected == Take(found, limit + 1)
            && PageOf(s, store, q, cursor) ==
               if |found| > limit then Page(found[..limit], Some(Cursor(found[limit - 1].micro, found[limit - 1].id)))
               else if !exhausted && last.id != "" then Page(found, Some(Cursor(last.score, last.id)))
               else Page(found, None)
  {
    hide Index, Scan, Matching, WindowStart, Pos, Start, IdsAt, Query.Batch, Query.ClampLimit, PageStart;
    Bounds();
    NothingBefore(s, store, q, cursor);
    PageIs(s, store, q, cursor, x, exhausted);
  }

  method ListAuditRecords(s: seq<Member>, store: Store, q: Query, cursor: Option<Cursor>) returns (page: Page)
    requires Index(s)
    ensures page == PageOf(s, store, q, cursor)
  {
    hide *;
    var limit, batch := q.ClampLimit(), q.Batch();
    var maxBound: Option<int> := if cursor.None? then None else Some(cursor.value.micro);
    var seen: set<string> := {};
    var collected: seq<Record> := [];
    var last := Member(0, "");
    var exhausted := false;
    ghost var p := PageStart(s, cursor).0;
    ghost var a, x := PageStart(s, cursor).1, PageStart(s, cursor).1;
    var round := 0;
    Bounds();
    ScanningStarts(s, store, q, cursor, last);
    while round < MAX_ROUNDS && |collected| <= limit && !exhausted
      invariant 0 <= round <= MAX_ROUNDS
      invariant Scanning(s, store, q, cursor, a, x, maxBound, seen, collected, last, round, exhausted)
      decreases MAX_ROUNDS - round, !exhausted
    {
      ScanningRound(s, store, q, cursor, a, x, maxBound, seen, collected, last, round);
      var zs := Window(s, maxBound, batch);
      WindowIs(s, maxBound, batch);
      ghost var e := Min(a + batch, |s|);
      MaxIs(x, e);
      if |zs| == 0 {
        ScanningEnds(s, store, q, cursor, a, x, maxBound, seen, collected, collected, last, last, round);
        exhausted := true;
      } else {
        ghost var collected1, last1 := collected, last;
        var progressed;
        collected, progressed, last := Round(s, store, q, cursor, a, x, e, zs, seen, collected, last);
        if |zs| < batch || !progressed {
          ScanningEnds(s, store, q, cursor, a, x, maxBound, seen, collected1, collected, last1, last, round);
          exhausted := true;
          x := Max(x, e);
        } else {
          var minScore := zs[|zs| - 1].score;
          var seen2 := NextSeen(s, a, e, zs, minScore);
          ScanningGoesOn(s, store, q, cursor, a, x, maxBound, seen, seen2, collected1, collected, last1, round);
          seen := seen2;
          maxBound := Some(minScore);
          x := e;
          a := Start(s, minScore);
          round := round + 1;
        }
      }
    }
    ScanningDone(s, store, q, cursor, a, x, maxBound, seen, collected, last, round, exhausted);
    page := BuildPage(Matching(s, store, q, p, x), collected, limit, exhausted, last);
  }

  /** Examines one window and fetches the records of its new members. */
  method Round(ghost s: seq<Member>, store: Store, q: Query, cursor: Option<Cursor>, ghost a: nat, ghost x: nat, ghost e: nat,
               zs: seq<Member>, seen: set<string>, sofar: seq<Record>, before: Member)
    returns (collected: seq<Record>, progressed: bool, last: Member)
    requires Index(s) && a <= x <= |s| && a < e <= |s| && zs == s[a..e] && seen == IdsAt(s, a, x)
    requires a >= PageStart(s, cursor).1 && |sofar| <= q.ClampLimit()
    requires sofar == Take(Matching(s, store, q, PageStart(s, cursor).0, x), q.ClampLimit() + 1)
    ensures Max(x, e) <= |s|
    ensures collected == Take(Matching(s, store, q, PageStart(s, cursor).0, Max(x, e)), q.ClampLimit() + 1)
    ensures progressed <==> e > x
    ensures last == if progressed then s[e - 1] else before
  {
    hide *;
    var ids, newest;
    ids, progressed, newest := Examine(s, a, x, e, zs, seen, cursor);
    ghost var p := PageStart(s, cursor).0;
    TakeIs(Matching(s, store, q, p, x), q.ClampLimit());
    Collected(s, store, q, p, x, e);
    last := if progressed then newest else before;
    collected := Collect(store, q, ids, sofar, q.ClampLimit());
  }

  method BuildPage(ghost found: seq<Record>, collected: seq<Record>, limit: nat, exhausted: bool, last: Member)
    returns (page: Page)
    requires limit > 0 && collected == Take(found, limit + 1)
    ensures page ==
              if |found| > limit then Page(found[..limit], Some(Cursor(found[limit - 1].micro, found[limit - 1].id)))
              else if !exhausted && last.id != "" then Page(found, Some(Cursor(last.score, last.id)))
              else Page(found, None)
  {
    TakeIs(found, limit);
    if |collected| > limit {
      PageCut(found, limit);
      var records := collected[..limit];
      return Page(records, Some(Cursor(records[limit - 1].micro, records[limit - 1].id)));
    }
    if !exhausted && last.id != "" {
      return Page(collected, Some(Cursor(last.score, last.id)));
    }
    return Page(collected, None);
  }

  lemma Bounds()
    ensures MAX_ROUNDS == 10
    ensures forall q: Query :: 1 <= q.ClampLimit() < q.Batch()
  {
  }

  lemma MinIs(a: nat, b: nat)
    ensures Min(a, b) <= a && Min(a, b) <= b && (Min(a, b) == a || Min(a, b) == b)
  {
  }

  lemma MaxIs(a: nat, b: nat)
    ensures Max(a, b) == if a >= b then a else b
  {
  }

  lemma NothingBefore(s: seq<Member>, store: Store, q: Query, cursor: Option<Cursor>)
    requires Index(s)
    ensures var (p, a) := PageStart(s, cursor); Take(Matching(s, store, q, p, a), q.ClampLimit() + 1) == []
  {
    if cursor.Some? {
      var c := cursor.value;
      var p, a := Pos(s, c), Start(s, c.micro);
      assert p < |s| ==> s[p].score <= c.micro;
    }
  }

  lemma PageIs(s: seq<Member>, store: Store, q: Query, cursor: Option<Cursor>, x: nat, exhausted: bool)
    requires var (p, a) := PageStart(s, cursor); Scan(s, store, q, p, a, a, 0) == (x, exhausted)
    ensures x <= |s|
    ensures var found, limit := Matching(s, store, q, PageStart(s, cursor).0, x), q.ClampLimit();
            PageOf(s, store, q, cursor) ==
              if |found| > limit then Page(found[..limit], Some(Cursor(found[limit - 1].micro, found[limit - 1].id)))
              else if !exhausted && x > 0 && s[x - 1].id != "" then Page(found, Some(Cursor(s[x - 1].score, s[x - 1].id)))
              else Page(found, None)
  {
    hide Scan, Start, Matching, Pos, Query.ClampLimit, StrLe;
  }

  lemma PageCut<T>(found: seq<T>, limit: nat)
    requires |found| > limit
    ensures Take(found, limit + 1)[..limit] == found[..limit]
  {
  }
}
