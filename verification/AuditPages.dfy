/**
 Following the cursors of audit pages to the end: what a walk returns, when it is complete, and that
 the in-memory backend's walk is the same.
 */
module AuditPages {
  import opened Text
  import opened Ordering
  import opened AuditIndex

  /** Index and live records as writes leave them; request IDs are never empty. */
  ghost predicate Ready(s: seq<Member>, store: Store) {
    Index(s) && Consistent(s, store) && forall m :: m in s ==> m.id != ""
  }

  function CursorAt(m: Member): Cursor {
    Cursor(m.score, m.id)
  }

  /** The first page, or the page after some index member. */
  ghost predicate AtMember(s: seq<Member>, cursor: Option<Cursor>) {
    cursor.None? || exists m :: m in s && cursor.value == CursorAt(m)
  }

  // ---- what is listed ----

  /** A filter of the query keeps the record out. */
  predicate KeptOut(q: Query, r: Record) {
    || (q.model != "" && r.model != q.model)
    || (q.path != "" && r.path != q.path)
    || (q.ruleId != "" && q.ruleId !in r.ruleIds)
    || (q.dataType != 0 && q.dataType !in r.dataTypes)
    || (q.since.Some? && r.micro < q.since.value)
    || (q.until.Some? && r.micro >= q.until.value)
  }

  /** The matches are exactly the live records of the index that no filter keeps out. */
  lemma {:induction false} MatchesExactly(s: seq<Member>, store: Store, q: Query, n: nat, r: Record)
    requires n <= |s|
    ensures r in Matching(s, store, q, 0, n)
            <==> exists i :: 0 <= i < n && s[i].id in store && store[s[i].id] == r && !KeptOut(q, r)
  {
    if n > 0 {
      MatchesExactly(s, store, q, n - 1, r);
    }
  }

  /** Fifty records a page unless the query asks for another number, and never more than five hundred. */
  lemma PageSizes(s: seq<Member>, store: Store, q: Query, cursor: Option<Cursor>)
    requires Ready(s, store) && AtMember(s, cursor)
    ensures |PageOf(s, store, q, cursor).records| <= if q.limit <= 0 then 50 else Min(q.limit, 500)
  {
    hide PageOf, PageStart, Index, Matching, Scan, Start, Consistent, AtMember;
    var p := PageBegins(s, store, cursor);
    var k := PageSpan(s, store, q, cursor, p);
  }

  /** A window of the index is one member longer than a page, and a hundred at least. */
  lemma WindowSizes(limit: int)
    ensures limit < 100 ==> Everything(limit).Batch() == 100
    ensures 100 <= limit <= 500 ==> Everything(limit).Batch() == limit + 1
    ensures limit > 500 ==> Everything(limit).Batch() == 501
  {
  }

  // ---- cursors are positions ----

  /** The page after a member starts at the next position, in the window of the member's score. */
  lemma CursorPosition(s: seq<Member>, k: nat)
    requires Index(s) && k < |s|
    ensures PageStart(s, Some(CursorAt(s[k]))) == (k + 1, Start(s, s[k].score))
    ensures Start(s, s[k].score) <= k
  {
    hide Index, Start;
    var c := CursorAt(s[k]);
    AfterPos(s, c, k);
    if k + 1 < |s| {
      AfterPos(s, c, k + 1);
      NextFollows(s, k);
    }
  }

  lemma NextFollows(s: seq<Member>, k: nat)
    requires Index(s) && k + 1 < |s|
    ensures Precedes(s[k], s[k + 1])
  {
  }

  /** All members from a score's start up to one with that score have it. */
  lemma SameScores(s: seq<Member>, k: nat, i: nat)
    requires Index(s) && k < |s| && Start(s, s[k].score) <= i <= k
    ensures s[i].score == s[k].score
  {
    ScoresDescend(s, i, k);
    ScoresDescend(s, Start(s, s[k].score), i);
  }

  // ---- every page moves on ----

  /** A scan that is not exhausted has examined something behind the page's start. */
  lemma {:induction false} ScanAdvances(s: seq<Member>, store: Store, q: Query, p: nat, a: nat, x: nat, round: nat)
    requires Index(s) && round < MAX_ROUNDS && a <= x <= |s| && p <= |s|
    requires round == 0 ==> x == a && a == (if p == 0 then 0 else Start(s, s[p - 1].score))
    requires round > 0 ==> x > 0 && a == Start(s, s[x - 1].score) && (x >= p || Min(a + q.Batch(), |s|) <= x)
    ensures var (x2, exhausted) := Scan(s, store, q, p, a, x, round);
            !exhausted ==> x2 > p
    decreases MAX_ROUNDS - round
  {
    hide Index, Scan, Matching, Start;
    var e := Min(a + q.Batch(), |s|);
    ScanStep(s, store, q, p, a, x, round);
    MinIs(a + q.Batch(), |s|);
    Bounds();
    NoMatchesBefore(s, store, q, p, e);
    if e > a && e - a == q.Batch() && e > x {
      NextStart(s, a, e);
      if round + 1 < MAX_ROUNDS && |Matching(s, store, q, p, e)| <= q.ClampLimit() {
        TieStart(s, a, e, p);
        ScanAdvances(s, store, q, p, Start(s, s[e - 1].score), e, round + 1);
      }
    }
  }

  /** A window that ends inside the tie it began with begins again at the same place. */
  lemma TieStart(s: seq<Member>, a: nat, e: nat, p: nat)
    requires Index(s) && a < e <= |s| && p <= |s|
    ensures 0 < p && e < p && a == Start(s, s[p - 1].score) ==> Start(s, s[e - 1].score) == a
  {
    hide Index, Start;
    if 0 < p && e < p && a == Start(s, s[p - 1].score) {
      SameScores(s, p - 1, e - 1);
      StartOfSame(s, p - 1, e - 1);
    }
  }

  lemma NoMatchesBefore(s: seq<Member>, store: Store, q: Query, p: nat, e: nat)
    requires e <= |s|
    ensures |Matching(s, store, q, p, e)| > 0 ==> e > p
  {
  }

  lemma StartOfSame(s: seq<Member>, j: nat, k: nat)
    requires j < |s| && k < |s| && s[j].score == s[k].score
    ensures Start(s, s[j].score) == Start(s, s[k].score)
  {
  }

  /** Cutting the matches of a range after `n` of them is the matches of a shorter range. */
  lemma {:induction false} CutMatching(s: seq<Member>, store: Store, q: Query, p: nat, x: nat, n: nat) returns (k: nat)
    requires x <= |s| && 0 < n <= |Matching(s, store, q, p, x)|
    ensures p <= k < x && Hit(store, q, s[k]) && Matching(s, store, q, p, k + 1) == Matching(s, store, q, p, x)[..n]
    ensures Matching(s, store, q, p, x)[n - 1] == store[s[k].id]
    decreases x
  {
    hide Query.Matches;
    var found := Matching(s, store, q, p, x);
    if n == |found| && Hit(store, q, s[x - 1]) {
      k := x - 1;
      assert found[..n] == found;
    } else {
      k := CutMatching(s, store, q, p, x - 1, n);
      assert found[..n] == Matching(s, store, q, p, x - 1)[..n];
    }
  }

  /** A page is the matches up to some position, and its cursor names that position's member. */
  lemma PageSpan(s: seq<Member>, store: Store, q: Query, cursor: Option<Cursor>, p: nat) returns (k: nat)
    requires Ready(s, store) && p <= |s| && PageStart(s, cursor).0 == p
    requires PageStart(s, cursor).1 == if p == 0 then 0 else Start(s, s[p - 1].score)
    requires p > 0 ==> Start(s, s[p - 1].score) <= p
    ensures var page := PageOf(s, store, q, cursor);
            && k <= |s| && k <= Scan(s, store, q, p, PageStart(s, cursor).1, PageStart(s, cursor).1, 0).0
            && page.records == Matching(s, store, q, p, k) && |page.records| <= q.ClampLimit()
            && (page.next.Some? ==> p < k && page.next == Some(CursorAt(s[k - 1])))
            && (page.next.None? ==> Scan(s, store, q, p, PageStart(s, cursor).1, PageStart(s, cursor).1, 0) == (k, true))
  {
    hide Scan, Matching, Start, Pos, PageStart, Query.Matches, Query.ClampLimit, Index, PageOf;
    var a := PageStart(s, cursor).1;
    var (x, exhausted) := Scan(s, store, q, p, a, a, 0);
    Bounds();
    PageIs(s, store, q, cursor, x, exhausted);
    ScanAdvances(s, store, q, p, a, a, 0);
    var found, limit := Matching(s, store, q, p, x), q.ClampLimit();
    if |found| > limit {
      var i := CutMatching(s, store, q, p, x, limit);
      k := i + 1;
      assert s[i] in s && found[limit - 1] == store[s[i].id];
      assert found[..limit][limit - 1] == found[limit - 1];
    } else {
      k := x;
      if x > 0 { assert s[x - 1] in s; }
    }
  }

  // ---- walks ----

  lemma PageBegins(s: seq<Member>, store: Store, cursor: Option<Cursor>) returns (p: nat)
    requires Ready(s, store) && AtMember(s, cursor)
    ensures p <= |s| && PageStart(s, cursor).0 == p
    ensures PageStart(s, cursor).1 == if p == 0 then 0 else Start(s, s[p - 1].score)
    ensures p > 0 ==> Start(s, s[p - 1].score) <= p
  {
    if cursor.None? {
      p := 0;
    } else {
      var m :| m in s && cursor.value == CursorAt(m);
      var k :| 0 <= k < |s| && s[k] == m;
      CursorPosition(s, k);
      p := k + 1;
    }
  }

  /** The next page's cursor is a member's, and its position is further on. */
  lemma NextAdvances(s: seq<Member>, store: Store, q: Query, cursor: Option<Cursor>)
    requires Ready(s, store) && AtMember(s, cursor)
    ensures var page := PageOf(s, store, q, cursor);
            page.next.Some? ==> AtMember(s, page.next) && PageStart(s, cursor).0 < PageStart(s, page.next).0
  {
    hide PageOf, PageStart, Index, Matching, Scan, Start;
    var p := PageBegins(s, store, cursor);
    var k := PageSpan(s, store, q, cursor, p);
    if PageOf(s, store, q, cursor).next.Some? {
      assert s[k - 1] in s;
      CursorPosition(s, k - 1);
    }
  }

  /** All records of all pages, cursor after cursor. */
  ghost function Walk(s: seq<Member>, store: Store, q: Query, cursor: Option<Cursor>): seq<Record>
    requires Ready(s, store) && AtMember(s, cursor)
    decreases |s| - PageStart(s, cursor).0
  {
    var page := PageOf(s, store, q, cursor);
    NextAdvances(s, store, q, cursor);
    if page.next.None? then page.records else page.records + Walk(s, store, q, page.next)
  }

  lemma {:induction false} MatchingSplits(s: seq<Member>, store: Store, q: Query, p: nat, k: nat, e: nat)
    requires p <= k <= e <= |s|
    ensures Matching(s, store, q, p, e) == Matching(s, store, q, p, k) + Matching(s, store, q, k, e)
    decreases e
  {
    hide Query.Matches;
    if e == k {
      assert Matching(s, store, q, p, k) + [] == Matching(s, store, q, p, k);
    } else {
      MatchingSplits(s, store, q, p, k, e - 1);
      if Hit(store, q, s[e - 1]) {
        Reassociate(Matching(s, store, q, p, k), Matching(s, store, q, k, e - 1), [store[s[e - 1].id]]);
      }
    }
  }

  /** No `batch` members of one score are followed by another member. */
  ghost predicate TiesFit(s: seq<Member>, batch: nat) {
    batch > 0 && forall i :: 0 <= i && i + batch < |s| ==> s[i].score != s[i + batch - 1].score
  }

  /** No tie that fits reaches over a whole window, unless it ends the index. */
  lemma TieTooLong(s: seq<Member>, batch: nat, a: nat, x: nat)
    requires Index(s) && TiesFit(s, batch) && 0 < batch && a + batch <= x <= |s| && a == Start(s, s[x - 1].score)
    ensures x == |s| == a + batch
  {
    hide Index, Start;
    SameScores(s, x - 1, a);
    SameScores(s, x - 1, a + batch - 1);
  }

  /** A scan only takes the index to be exhausted when it is. */
  lemma {:induction false} ExhaustedIsEnd(s: seq<Member>, store: Store, q: Query, p: nat, a: nat, x: nat, round: nat)
    requires Index(s) && TiesFit(s, q.Batch()) && round < MAX_ROUNDS && a <= x <= |s|
    requires x > a ==> a == Start(s, s[x - 1].score)
    ensures var (x2, exhausted) := Scan(s, store, q, p, a, x, round); exhausted ==> x2 == |s|
    decreases MAX_ROUNDS - round
  {
    hide Index, Scan, Matching, Start, Query.Batch, Query.ClampLimit;
    var e := Min(a + q.Batch(), |s|);
    Bounds();
    ScanStep(s, store, q, p, a, x, round);
    MinIs(a + q.Batch(), |s|);
    if e > a && e - a == q.Batch() {
      if e <= x {
        TieTooLong(s, q.Batch(), a, x);
      } else if round + 1 < MAX_ROUNDS && |Matching(s, store, q, p, e)| <= q.ClampLimit() {
        NextStart(s, a, e);
        ExhaustedIsEnd(s, store, q, p, Start(s, s[e - 1].score), e, round + 1);
      }
    }
  }

  /** Every matching record behind the cursor comes exactly once, in order, if ties fit the window. */
  lemma {:induction false} WalkIsComplete(s: seq<Member>, store: Store, q: Query, cursor: Option<Cursor>)
    requires Ready(s, store) && AtMember(s, cursor) && TiesFit(s, q.Batch())
    ensures PageStart(s, cursor).0 <= |s|
    ensures Walk(s, store, q, cursor) == Matching(s, store, q, PageStart(s, cursor).0, |s|)
    decreases |s| - PageStart(s, cursor).0
  {
    hide PageOf, PageStart, Index, Matching, Scan, Start, TiesFit;
    var p := PageBegins(s, store, cursor);
    var k := PageSpan(s, store, q, cursor, p);
    var page := PageOf(s, store, q, cursor);
    NextAdvances(s, store, q, cursor);
    if page.next.Some? {
      WalkIsComplete(s, store, q, page.next);
      CursorPosition(s, k - 1);
      MatchingSplits(s, store, q, p, k, |s|);
    } else {
      var a := PageStart(s, cursor).1;
      ExhaustedIsEnd(s, store, q, p, a, a, 0);
    }
  }

  // ---- overfull ties ----

  /** A scan that starts at or before a tie of at least a batch never gets past the batch. */
  lemma {:induction false} ScanStops(s: seq<Member>, store: Store, q: Query, g: nat, p: nat, a: nat, x: nat, round: nat)
    requires Index(s) && round < MAX_ROUNDS && a <= x <= |s|
    requires g + q.Batch() <= |s| && g == Start(s, s[g + q.Batch() - 1].score)
    requires a <= g && x <= g + q.Batch()
    ensures Scan(s, store, q, p, a, x, round).0 <= g + q.Batch()
    decreases MAX_ROUNDS - round
  {
    hide Index, Scan, Matching, Start, Query.Batch, Query.ClampLimit;
    var e := Min(a + q.Batch(), |s|);
    Bounds();
    ScanStep(s, store, q, p, a, x, round);
    MinIs(a + q.Batch(), |s|);
    if e > a && e - a == q.Batch() && e > x && round + 1 < MAX_ROUNDS && |Matching(s, store, q, p, e)| <= q.ClampLimit() {
      NextStart(s, a, e);
      StartBefore(s, e - 1, g + q.Batch() - 1);
      ScanStops(s, store, q, g, p, Start(s, s[e - 1].score), e, round + 1);
    }
  }

  lemma StartBefore(s: seq<Member>, i: nat, k: nat)
    requires Index(s) && i <= k < |s|
    ensures Start(s, s[i].score) <= Start(s, s[k].score)
  {
    ScoresDescend(s, i, k);
  }

  /** The store in which only member `j` still has its record. */
  function OnlyRecord(m: Member): Store {
    map[m.id := Record(m.id, m.score, "", "", {}, {})]
  }

  function Everything(limit: int): Query {
    Query("", "", "", 0, None, None, limit)
  }

  lemma {:induction false} OnlyMatch(s: seq<Member>, q: Query, j: nat, p: nat, e: nat)
    requires Index(s) && j < |s| && e <= |s| && q == Everything(q.limit)
    ensures Matching(s, OnlyRecord(s[j]), q, p, e)
            == if p <= j < e then [Record(s[j].id, s[j].score, "", "", {}, {})] else []
    decreases e
  {
    if p < e {
      OnlyMatch(s, q, j, p, e - 1);
      assert e - 1 != j ==> s[e - 1].id != s[j].id;
    }
  }

  /** Behind an overfull tie nothing is ever listed. */
  lemma {:induction false} WalkStops(s: seq<Member>, q: Query, g: nat, j: nat, cursor: Option<Cursor>)
    requires g + q.Batch() <= j < |s| && Ready(s, OnlyRecord(s[j])) && AtMember(s, cursor) && q == Everything(q.limit)
    requires g == Start(s, s[g + q.Batch() - 1].score)
    requires PageStart(s, cursor).0 <= g + q.Batch() && PageStart(s, cursor).1 <= g
    ensures Walk(s, OnlyRecord(s[j]), q, cursor) == []
    decreases |s| - PageStart(s, cursor).0
  {
    hide PageOf, PageStart, Index, Matching, Scan, Start, Query.Batch, Query.ClampLimit, Consistent, AtMember;
    var store := OnlyRecord(s[j]);
    var page := PageOf(s, store, q, cursor);
    NextAdvances(s, store, q, cursor);
    PageStops(s, q, g, j, cursor);
    if page.next.Some? { WalkStops(s, q, g, j, page.next); }
  }

  /** A page that starts before the end of the tie is empty, and the next one starts there too. */
  lemma PageStops(s: seq<Member>, q: Query, g: nat, j: nat, cursor: Option<Cursor>)
    requires g + q.Batch() <= j < |s| && Ready(s, OnlyRecord(s[j])) && AtMember(s, cursor) && q == Everything(q.limit)
    requires g == Start(s, s[g + q.Batch() - 1].score)
    requires PageStart(s, cursor).0 <= g + q.Batch() && PageStart(s, cursor).1 <= g
    ensures var page := PageOf(s, OnlyRecord(s[j]), q, cursor);
            && page.records == []
            && (page.next.Some? ==> PageStart(s, page.next).0 <= g + q.Batch() && PageStart(s, page.next).1 <= g)
  {
    hide *;
    var store := OnlyRecord(s[j]);
    var p, k := PageEnds(s, store, q, g, cursor);
    NoMatchBefore(s, q, j, p, k);
    var next := PageOf(s, store, q, cursor).next;
    if next.Some? { NextWindow(s, store, k - 1, g + q.Batch(), g, next); }
  }

  lemma NoMatchBefore(s: seq<Member>, q: Query, j: nat, p: nat, e: nat)
    requires e <= j < |s| && Ready(s, OnlyRecord(s[j])) && q == Everything(q.limit)
    ensures Matching(s, OnlyRecord(s[j]), q, p, e) == []
  {
    hide Index, Consistent, Matching;
    OnlyMatch(s, q, j, p, e);
  }

  lemma PageEnds(s: seq<Member>, store: Store, q: Query, g: nat, cursor: Option<Cursor>) returns (p: nat, k: nat)
    requires g + q.Batch() <= |s| && Ready(s, store) && AtMember(s, cursor)
    requires g == Start(s, s[g + q.Batch() - 1].score)
    requires PageStart(s, cursor).0 <= g + q.Batch() && PageStart(s, cursor).1 <= g
    ensures k <= g + q.Batch()
    ensures var page := PageOf(s, store, q, cursor);
            && page.records == Matching(s, store, q, p, k)
            && (page.next.Some? ==> p < k && page.next == Some(CursorAt(s[k - 1])))
  {
    hide PageOf, PageStart, Index, Matching, Scan, Start, Query.Batch, Query.ClampLimit, AtMember, Consistent, CursorAt;
    var a := PageStart(s, cursor).1;
    p := PageBegins(s, store, cursor);
    k := PageSpan(s, store, q, cursor, p);
    ScanStops(s, store, q, g, p, a, a, 0);
  }

  lemma NextWindow(s: seq<Member>, store: Store, i: nat, e: nat, g: nat, cursor: Option<Cursor>)
    requires Ready(s, store) && i < e <= |s| && Start(s, s[e - 1].score) <= g && cursor == Some(CursorAt(s[i]))
    ensures PageStart(s, cursor).0 <= e && PageStart(s, cursor).1 <= g
  {
    hide PageStart, Index, Start, Consistent;
    CursorPosition(s, i);
    StartBefore(s, i, e - 1);
  }

  /**
   A walk without concurrent writes returns every matching record exactly once and in order, for all
   records and all filters of a page size, if and only if the index has no batch of equal scores
   with another member behind it.
   */
  lemma CompleteExactlyWhenTiesFit(s: seq<Member>, limit: int)
    requires Index(s) && forall m :: m in s ==> m.id != ""
    ensures (forall store: Store, q: Query :: Ready(s, store) && q.limit == limit ==>
               Walk(s, store, q, None) == Matching(s, store, q, 0, |s|))
            <==> TiesFit(s, Everything(limit).Batch())
  {
    hide Walk, Matching, Query.Matches, Index, Consistent, Start, TiesFit, Query.Batch;
    if TiesFit(s, Everything(limit).Batch()) {
      forall store: Store, q: Query | Ready(s, store) && q.limit == limit
        ensures Walk(s, store, q, None) == Matching(s, store, q, 0, |s|)
      {
        SameBatch(q, limit);
        StartsAtTop(s);
        WalkIsComplete(s, store, q, None);
      }
    } else {
      var j := OverfullLoses(s, limit);
      assert Ready(s, OnlyRecord(s[j])) && Everything(limit).limit == limit;
    }
  }

  lemma SameBatch(q: Query, limit: int)
    requires q.limit == limit
    ensures q.Batch() == Everything(limit).Batch()
  {
  }

  lemma OverfullTie(s: seq<Member>, batch: nat) returns (i: nat)
    requires !TiesFit(s, batch) && batch > 0
    ensures i + batch < |s| && s[i].score == s[i + batch - 1].score
  {
    i :| 0 <= i && i + batch < |s| && s[i].score == s[i + batch - 1].score;
  }

  lemma AtTop(s: seq<Member>, limit: int)
    ensures AtMember(s, None) && Everything(Everything(limit).limit) == Everything(limit)
  {
  }

  /** With an overfull tie, the record of the member behind it is never listed. */
  lemma OverfullLoses(s: seq<Member>, limit: int) returns (j: nat)
    requires Index(s) && (forall m :: m in s ==> m.id != "") && !TiesFit(s, Everything(limit).Batch())
    ensures j < |s| && Ready(s, OnlyRecord(s[j]))
    ensures Walk(s, OnlyRecord(s[j]), Everything(limit), None) != Matching(s, OnlyRecord(s[j]), Everything(limit), 0, |s|)
  {
    hide *;
    var q, batch := Everything(limit), Everything(limit).Batch();
    Bounds();
    var i := OverfullTie(s, batch);
    j := i + batch;
    OnlyRecordReady(s, j);
    var g := TieBegin(s, i, i + batch - 1, batch);
    StartsAtTop(s);
    AtTop(s, limit);
    WalkStops(s, q, g, j, None);
    OnlyMatch(s, q, j, 0, |s|);
  }

  lemma StartsAtTop(s: seq<Member>)
    ensures PageStart(s, None) == (0, 0)
  {
  }

  lemma OnlyRecordReady(s: seq<Member>, j: nat)
    requires Index(s) && (forall m :: m in s ==> m.id != "") && j < |s|
    ensures Ready(s, OnlyRecord(s[j]))
  {
    forall m | m in s && m.id == s[j].id
      ensures m == s[j]
    {
      var k :| 0 <= k < |s| && s[k] == m;
      assert k == j;
    }
  }

  lemma TieBegin(s: seq<Member>, i: nat, k: nat, batch: nat) returns (g: nat)
    requires Index(s) && i + batch - 1 == k < |s| && batch > 0 && s[i].score == s[k].score
    ensures g <= i && g == Start(s, s[g + batch - 1].score)
  {
    hide Index, Start;
    g := Start(s, s[k].score);
    StartOfSame(s, i, k);
    NextStart(s, 0, i + 1);
    assert g <= i;
    SameScores(s, k, g + batch - 1);
  }

  // ---- the in-memory backend ----

  function MemberOf(r: Record): Member {
    Member(r.micro, r.id)
  }

  function RecordKey(r: Record): Key {
    KeyOf(MemberOf(r))
  }

  function Reversed<T>(s: seq<T>): (r: seq<T>)
    ensures |r| == |s| && forall i :: 0 <= i < |s| ==> r[i] == s[|s| - 1 - i]
  {
    if s == [] then [] else Reversed(s[1..]) + [s[0]]
  }

  /** The records strictly after the cursor. */
  function After(all: seq<Record>, cursor: Option<Cursor>): seq<Record> {
    if all == [] then [] else
      var before, r := After(all[..|all| - 1], cursor), all[|all| - 1];
      if cursor.Some? && AtOrBefore(cursor.value, MemberOf(r)) then before else before + [r]
  }

  function MemoryPage(all: seq<Record>, q: Query, cursor: Option<Cursor>): Page {
    var rest, limit := After(all, cursor), q.ClampLimit();
    if |rest| > limit then Page(rest[..limit], Some(Cursor(rest[limit - 1].micro, rest[limit - 1].id))) else Page(rest, None)
  }

  /** Every live record has its index member. */
  ghost predicate Indexed(s: seq<Member>, store: Store) {
    Ready(s, store) && forall id :: id in store ==> exists m :: m in s && m.id == id
  }

  ghost predicate NoRepeats<T>(a: seq<T>) {
    forall i, j :: 0 <= i < j < |a| ==> a[i] != a[j]
  }

  lemma {:induction false} SameBag<T>(a: seq<T>, b: seq<T>)
    requires NoRepeats(a) && NoRepeats(b) && forall x :: x in a <==> x in b
    ensures multiset(a) == multiset(b)
  {
    forall x
      ensures multiset(a)[x] == multiset(b)[x]
    {
      CountOne(a, x);
      CountOne(b, x);
    }
  }

  lemma {:induction false} CountOne<T>(a: seq<T>, x: T)
    requires NoRepeats(a)
    ensures multiset(a)[x] == if x in a then 1 else 0
  {
    if a != [] {
      var init, last := a[..|a| - 1], a[|a| - 1];
      assert a == init + [last];
      CountOne(init, x);
    }
  }

  /** Record `x` is the match at position `k`. */
  ghost predicate MatchAt(s: seq<Member>, store: Store, q: Query, k: nat, x: Record) {
    k < |s| && Hit(store, q, s[k]) && store[s[k].id] == x
  }

  ghost predicate Listed(s: seq<Member>, store: Store, q: Query, e: nat, x: Record) {
    exists k: nat :: k < e && MatchAt(s, store, q, k, x)
  }

  /** The matches of the index are exactly the matching records. */
  lemma {:induction false} MatchingLists(s: seq<Member>, store: Store, q: Query, e: nat, x: Record)
    requires e <= |s|
    ensures x in Matching(s, store, q, 0, e) <==> Listed(s, store, q, e, x)
    decreases e
  {
    hide Query.Matches;
    if e > 0 {
      MatchingLists(s, store, q, e - 1, x);
      ListedSnoc(s, store, q, e, x);
    }
  }

  lemma ListedSnoc(s: seq<Member>, store: Store, q: Query, e: nat, x: Record)
    requires 0 < e <= |s|
    ensures Listed(s, store, q, e, x) <==> Listed(s, store, q, e - 1, x) || MatchAt(s, store, q, e - 1, x)
  {
    hide MatchAt;
    if Listed(s, store, q, e, x) {
      var k: nat :| k < e && MatchAt(s, store, q, k, x);
      assert k < e - 1 || k == e - 1;
    }
  }

  ghost predicate InOrder(r: seq<Record>) {
    forall i, j :: 0 <= i < j < |r| ==> Precedes(MemberOf(r[i]), MemberOf(r[j]))
  }

  /** They stand in strict listing order. */
  lemma {:induction false} MatchingInOrder(s: seq<Member>, store: Store, q: Query, e: nat)
    requires Ready(s, store) && e <= |s|
    ensures InOrder(Matching(s, store, q, 0, e))
    decreases e
  {
    hide Query.Matches, Precedes;
    if e > 0 {
      var before := Matching(s, store, q, 0, e - 1);
      MatchingInOrder(s, store, q, e - 1);
      if Hit(store, q, s[e - 1]) {
        var last := store[s[e - 1].id];
        assert s[e - 1] in s && MemberOf(last) == s[e - 1];
        assert Matching(s, store, q, 0, e) == before + [last];
        forall i | 0 <= i < |before|
          ensures Precedes(MemberOf(before[i]), MemberOf(last))
        {
          assert before[i] in before;
          MatchingLists(s, store, q, e - 1, before[i]);
          var k: nat :| k < e - 1 && MatchAt(s, store, q, k, before[i]);
          assert s[k] in s && MemberOf(before[i]) == s[k];
        }
      }
    }
  }

  /** All matching records in listing order: the index's matches, sorted from the other end. */
  lemma SortedIsListing(s: seq<Member>, store: Store, q: Query, matched: seq<Record>)
    requires Indexed(s, store) && NoRepeats(matched)
    requires forall x :: x in matched <==> x.id in store && store[x.id] == x && q.Matches(x)
    ensures Reversed(SortOn(RecordKey, matched)) == Matching(s, store, q, 0, |s|)
  {
    hide Query.Matches, SortOn, Matching, Precedes;
    var all := Matching(s, store, q, 0, |s|);
    MatchingInOrder(s, store, q, |s|);
    var back := Reversed(all);
    StrictOrder(all);
    forall x
      ensures x in back <==> x in matched
    {
      MatchingLists(s, store, q, |s|, x);
      InReversed(all, x);
      ListedIsLive(s, store, q, x);
    }
    SameBag(back, matched);
    KeyTells(back);
    SortIgnoresOrder(RecordKey, back, matched);
    SortedUnchanged(RecordKey, back);
    ReversedTwice(all);
  }

  lemma StrictOrder(all: seq<Record>)
    requires InOrder(all)
    ensures (forall i, j :: 0 <= i < j < |all| ==> MemberOf(Reversed(all)[i]) != MemberOf(Reversed(all)[j]))
    ensures NoRepeats(all) && NoRepeats(Reversed(all)) && SortedOn(RecordKey, Reversed(all))
  {
    hide StrLe;
    var back := Reversed(all);
    forall i, j | 0 <= i < j < |back|
      ensures back[i] != back[j] && MemberOf(back[i]) != MemberOf(back[j]) && KeyLe(RecordKey(back[i]), RecordKey(back[j]))
    {
      assert Precedes(MemberOf(all[|all| - 1 - j]), MemberOf(all[|all| - 1 - i]));
    }
  }

  lemma InReversed<T>(a: seq<T>, x: T)
    ensures x in Reversed(a) <==> x in a
  {
    if x in a {
      var i :| 0 <= i < |a| && a[i] == x;
      assert Reversed(a)[|a| - 1 - i] == x;
    }
  }

  lemma ReversedTwice<T>(a: seq<T>)
    ensures Reversed(Reversed(a)) == a
  {
  }

  lemma ListedIsLive(s: seq<Member>, store: Store, q: Query, x: Record)
    requires Indexed(s, store)
    ensures Listed(s, store, q, |s|, x) <==> x.id in store && store[x.id] == x && q.Matches(x)
  {
    hide Query.Matches;
    if Listed(s, store, q, |s|, x) {
      var k: nat :| k < |s| && MatchAt(s, store, q, k, x);
      assert s[k] in s;
    }
    if x.id in store && store[x.id] == x && q.Matches(x) {
      var m :| m in s && m.id == x.id;
      var k :| 0 <= k < |s| && s[k] == m;
      assert MatchAt(s, store, q, k, x);
    }
  }

  /** Records of a strict listing are told apart by their sort keys. */
  lemma KeyTells(back: seq<Record>)
    requires SortedOn(RecordKey, back) && NoRepeats(back)
    requires forall i, j :: 0 <= i < j < |back| ==> MemberOf(back[i]) != MemberOf(back[j])
    ensures KeyDetermines(RecordKey, multiset(back))
  {
    forall x, y | x in multiset(back) && y in multiset(back) && RecordKey(x) == RecordKey(y)
      ensures x == y
    {
      var i :| 0 <= i < |back| && back[i] == x;
      var j :| 0 <= j < |back| && back[j] == y;
    }
  }

  /** All matching live records, in the order a map happens to give them. */
  method CollectMatches(ghost s: seq<Member>, store: Store, q: Query) returns (matched: seq<Record>)
    requires Indexed(s, store)
    ensures NoRepeats(matched)
    ensures forall x :: x in matched <==> x.id in store && store[x.id] == x && q.Matches(x)
  {
    hide Query.Matches, Indexed;
    matched := [];
    var todo := store.Keys;
    while todo != {}
      invariant todo <= store.Keys
      invariant NoRepeats(matched)
      invariant forall x :: x in matched <==> x.id in store && x.id !in todo && store[x.id] == x && q.Matches(x)
      decreases |todo|
    {
      var id :| id in todo;
      SameId(s, store, id);
      if q.Matches(store[id]) {
        matched := matched + [store[id]];
      }
      todo := todo - {id};
    }
  }

  method CutPage(all: seq<Record>, q: Query, cursor: Option<Cursor>) returns (page: Page)
    ensures page == MemoryPage(all, q, cursor)
  {
    hide AtOrBefore, Query.ClampLimit;
    var rest: seq<Record> := [];
    assert all[..0] == [];
    for i := 0 to |all|
      invariant rest == After(all[..i], cursor)
    {
      assert all[..i + 1][..i] == all[..i];
      if !(cursor.Some? && AtOrBefore(cursor.value, MemberOf(all[i]))) {
        rest := rest + [all[i]];
      }
    }
    assert all[..|all|] == all;
    var limit := q.ClampLimit();
    if |rest| > limit {
      var records := rest[..limit];
      return Page(records, Some(Cursor(records[limit - 1].micro, records[limit - 1].id)));
    }
    return Page(rest, None);
  }

  /** The same sizes, and a page is only short when it is the last. */
  lemma MemoryPageSizes(all: seq<Record>, q: Query, cursor: Option<Cursor>)
    ensures var (size, page) := (if q.limit <= 0 then 50 else Min(q.limit, 500), MemoryPage(all, q, cursor));
            && |page.records| == Min(|After(all, cursor)|, size)
            && (page.next.Some? <==> |After(all, cursor)| > size)
  {
    hide After;
  }

  /** The in-memory backend: matches collected in some order, sorted, cut at the cursor and the limit. */
  method ListMemory(ghost s: seq<Member>, store: Store, q: Query, cursor: Option<Cursor>) returns (page: Page)
    requires Indexed(s, store)
    ensures page == MemoryPage(Matching(s, store, q, 0, |s|), q, cursor)
  {
    hide *;
    var matched := CollectMatches(s, store, q);
    SortedIsListing(s, store, q, matched);
    page := CutPage(Reversed(SortOn(RecordKey, matched)), q, cursor);
  }

  lemma SameId(s: seq<Member>, store: Store, id: string)
    requires Indexed(s, store) && id in store
    ensures store[id].id == id
  {
    var m :| m in s && m.id == id;
  }

  // ---- both backends list the same ----

  /** Cutting the listing at one of its records leaves what follows. */
  lemma {:induction false} AfterRecord(all: seq<Record>, n: nat, e: nat)
    requires InOrder(all) && 0 < n <= |all| && e <= |all|
    ensures After(all[..e], Some(CursorAt(MemberOf(all[n - 1])))) == if e <= n then [] else all[n..e]
    decreases e
  {
    hide InOrder, AtOrBefore, CursorAt, MemberOf;
    if e > 0 {
      AfterRecord(all, n, e - 1);
      assert all[..e][..e - 1] == all[..e - 1];
      BehindRecord(all, n, e - 1);
      assert all[..e][e - 1] == all[e - 1];
      if e > n { assert all[n..e] == all[n..e - 1] + [all[e - 1]]; }
    }
  }

  lemma BehindRecord(all: seq<Record>, n: nat, i: nat)
    requires InOrder(all) && 0 < n <= |all| && i < |all|
    ensures AtOrBefore(CursorAt(MemberOf(all[n - 1])), MemberOf(all[i])) <==> i < n
  {
    hide KeyLe, KeyOf;
    if i < n - 1 { assert Precedes(MemberOf(all[i]), MemberOf(all[n - 1])); }
    if i > n - 1 { assert Precedes(MemberOf(all[n - 1]), MemberOf(all[i])); }
    NotBoth(MemberOf(all[i]), MemberOf(all[n - 1]));
  }

  lemma NotBoth(a: Member, b: Member)
    ensures !(Precedes(a, b) && Precedes(b, a)) && !Precedes(a, a)
  {
    KeyLeTotal(KeyOf(a), KeyOf(b));
  }

  /** The records of all pages of the sorted listing from position `n` on. */
  ghost function MemoryWalk(all: seq<Record>, q: Query, n: nat): seq<Record>
    requires InOrder(all) && n <= |all|
    decreases |all| - n
  {
    var page := MemoryPage(all, q, if n == 0 then None else Some(CursorAt(MemberOf(all[n - 1]))));
    if page.next.None? || |page.records| == 0 || n + |page.records| > |all| then page.records
    else page.records + MemoryWalk(all, q, n + |page.records|)
  }

  lemma MemoryPageIs(all: seq<Record>, q: Query, n: nat)
    requires InOrder(all) && n <= |all|
    ensures var page, limit := MemoryPage(all, q, if n == 0 then None else Some(CursorAt(MemberOf(all[n - 1])))), q.ClampLimit();
            if |all| - n > limit then page == Page(all[n..n + limit], Some(CursorAt(MemberOf(all[n + limit - 1])))) else page == Page(all[n..], None)
  {
    hide InOrder, Query.ClampLimit;
    assert all[..|all|] == all;
    if n == 0 {
      AfterNone(all);
    } else {
      AfterRecord(all, n, |all|);
    }
    var limit := q.ClampLimit();
    Bounds();
    if |all| - n > limit { assert all[n..][..limit] == all[n..n + limit]; }
  }

  lemma {:induction false} AfterNone(all: seq<Record>)
    ensures After(all, None) == all
  {
    if all != [] {
      AfterNone(all[..|all| - 1]);
      assert all == all[..|all| - 1] + [all[|all| - 1]];
    }
  }

  lemma {:induction false} MemoryWalkIsAll(all: seq<Record>, q: Query, n: nat)
    requires InOrder(all) && n <= |all|
    ensures MemoryWalk(all, q, n) == all[n..]
    decreases |all| - n
  {
    hide MemoryPage, InOrder, Query.ClampLimit, CursorAt, MemberOf;
    MemoryPageIs(all, q, n);
    Bounds();
    var limit := q.ClampLimit();
    if |all| - n > limit {
      MemoryWalkIsAll(all, q, n + limit);
      PageThenRest(all, n, limit);
    }
  }

  lemma PageThenRest(all: seq<Record>, n: nat, limit: nat)
    requires n + limit <= |all|
    ensures all[n..] == all[n..n + limit] + all[n + limit..]
  {
  }

  /** With ties that fit a window, both backends' walks list the same records in the same order. */
  lemma BackendsAgree(s: seq<Member>, store: Store, q: Query)
    requires Indexed(s, store) && TiesFit(s, q.Batch())
    ensures InOrder(Matching(s, store, q, 0, |s|))
    ensures Walk(s, store, q, None) == MemoryWalk(Matching(s, store, q, 0, |s|), q, 0)
  {
    hide Walk, MemoryWalk, Matching, InOrder, Query.Matches;
    MatchingInOrder(s, store, q, |s|);
    StartsAtTop(s);
    WalkIsComplete(s, store, q, None);
    var all := Matching(s, store, q, 0, |s|);
    MemoryWalkIsAll(all, q, 0);
    assert all[0..] == all;
  }
}
