/** Exactly-once paging: a poller with fixed filters, interleaved with appends,
    ingests and sweeps. */
module EventPaging {
  import opened EventStore
  import opened EventRuns

  datatype Act = Write(op: Op) | Poll(limit: int)

  /** A poller that started at `from`. For the statements only: `ever` holds
      every row there has been since, and `lost` the ids of rows a sweep
      deleted before the cursor had reached them. */
  datatype System = System(db: Db, cursor: int, delivered: seq<Event>, ghost ever: seq<Event>, ghost lost: set<nat>)

  ghost function Ids(rows: seq<Event>): set<nat> {
    set e | e in rows :: e.id
  }

  ghost function Do(s: System, host: Host, f: Filter, a: Act): System {
    match a
    case Poll(limit) =>
      var page := Page(s.db, f, s.cursor, limit);
      s.(cursor := NextCursor(page, s.cursor), delivered := s.delivered + page)
    case Write(op) =>
      var db' := Step(s.db, host, op);
      if op.SweepOp? then
        s.(db := db', lost := s.lost + set i | i in Ids(s.db.rows) - Ids(db'.rows) && i > s.cursor)
      else s.(db := db', ever := s.ever + db'.rows[if |s.db.rows| <= |db'.rows| then |s.db.rows| else |db'.rows|..])
  }

  ghost function Run(s: System, host: Host, f: Filter, acts: seq<Act>): System
    decreases |acts|
  {
    if acts == [] then s else Run(Do(s, host, f, acts[0]), host, f, acts[1..])
  }

  // ---- facts about Select ----

  lemma {:induction false} SelectMembers(rows: seq<Event>, f: Filter, gone: set<nat>, lo: int, hi: int)
    ensures forall e ::
      e in Select(rows, f, gone, lo, hi) <==> e in rows && Matches(f, e) && e.id !in gone && lo < e.id <= hi
    decreases |rows|
  {
    if rows != [] {
      SelectMembers(rows[..|rows| - 1], f, gone, lo, hi);
      assert rows == rows[..|rows| - 1] + [rows[|rows| - 1]];
    }
  }

  lemma {:induction false} SelectSorted(rows: seq<Event>, f: Filter, gone: set<nat>, lo: int, hi: int)
    requires Sorted(rows)
    ensures Sorted(Select(rows, f, gone, lo, hi))
    decreases |rows|
  {
    if rows != [] {
      var init, last := rows[..|rows| - 1], rows[|rows| - 1];
      SelectSorted(init, f, gone, lo, hi);
      SelectMembers(init, f, gone, lo, hi);
      var sel := Select(init, f, gone, lo, hi);
      forall i | 0 <= i < |sel|
        ensures sel[i].id < last.id
      {
        assert sel[i] in sel;
        var k :| 0 <= k < |init| && init[k] == sel[i];
      }
    }
  }

  /** A larger bound beyond every id, and ids that do not occur, change nothing. */
  lemma {:induction false} SelectSame(rows: seq<Event>, f: Filter, g: set<nat>, h: set<nat>, lo: int, hi: int, hi': int)
    requires forall e :: e in rows && lo < e.id && (e.id <= hi || e.id <= hi') ==>
      ((e.id in g) == (e.id in h)) && ((e.id <= hi) == (e.id <= hi'))
    ensures Select(rows, f, g, lo, hi) == Select(rows, f, h, lo, hi')
    decreases |rows|
  {
    if rows != [] {
      assert rows == rows[..|rows| - 1] + [rows[|rows| - 1]];
      SelectSame(rows[..|rows| - 1], f, g, h, lo, hi, hi');
    }
  }

  lemma {:induction false} SelectNothing(rows: seq<Event>, f: Filter, gone: set<nat>, lo: int, hi: int)
    requires forall e :: e in rows ==> !(lo < e.id <= hi)
    ensures Select(rows, f, gone, lo, hi) == []
    decreases |rows|
  {
    if rows != [] {
      assert rows == rows[..|rows| - 1] + [rows[|rows| - 1]];
      SelectNothing(rows[..|rows| - 1], f, gone, lo, hi);
    }
  }

  /** Splitting an interval splits the selection of a sorted table. */
  lemma {:induction false} SelectSplit(rows: seq<Event>, f: Filter, gone: set<nat>, lo: int, mid: int, hi: int)
    requires Sorted(rows) && lo <= mid <= hi
    ensures Select(rows, f, gone, lo, hi) == Select(rows, f, gone, lo, mid) + Select(rows, f, gone, mid, hi)
    decreases |rows|
  {
    if rows != [] {
      var init, last := rows[..|rows| - 1], rows[|rows| - 1];
      SelectSplit(init, f, gone, lo, mid, hi);
      if last.id <= mid {
        forall e | e in init
          ensures e.id < last.id
        {
          var k :| 0 <= k < |init| && init[k] == e;
        }
        SelectNothing(init, f, gone, mid, hi);
      }
    }
  }

  lemma LastLargest(a: seq<Event>)
    requires Sorted(a) && a != []
    ensures forall e :: e in a[..|a| - 1] <==> e in a && e != a[|a| - 1]
    ensures forall e :: e in a ==> e.id <= a[|a| - 1].id && (e.id == a[|a| - 1].id ==> e == a[|a| - 1])
  {
    var init, last := a[..|a| - 1], a[|a| - 1];
    assert a == init + [last];
    forall e | e in init
      ensures e.id < last.id
    {
      var k :| 0 <= k < |init| && init[k] == e;
    }
  }

  lemma SameLast(a: seq<Event>, b: seq<Event>)
    requires Sorted(a) && Sorted(b) && a != [] && b != [] && forall e :: e in a <==> e in b
    ensures a[|a| - 1] == b[|b| - 1]
  {
    assert a[|a| - 1] in b && b[|b| - 1] in a;
    LastLargest(a);
    LastLargest(b);
  }

  lemma SameInit(a: seq<Event>, b: seq<Event>, e: Event)
    requires Sorted(a) && Sorted(b) && a != [] && b != [] && forall e :: e in a <==> e in b
    ensures e in a[..|a| - 1] <==> e in b[..|b| - 1]
  {
    SameLast(a, b);
    LastLargest(a);
    LastLargest(b);
    assert e in a[..|a| - 1] ==> e in a;
    assert e in b[..|b| - 1] ==> e in b;
    assert e in a <==> e in b;
  }

  /** Sorted sequences with the same members are equal. */
  lemma {:induction false} SortedExtensional(a: seq<Event>, b: seq<Event>)
    requires Sorted(a) && Sorted(b) && forall e :: e in a <==> e in b
    ensures a == b
    decreases |a|
  {
    if b != [] {
      assert b[0] in b;
    }
    if a != [] {
      assert a[0] in b;
      SameLast(a, b);
      var a', b' := a[..|a| - 1], b[..|b| - 1];
      forall e ensures e in a' <==> e in b' {
        SameInit(a, b, e);
      }
      SortedExtensional(a', b');
      assert a == a' + [a[|a| - 1]] && b == b' + [b[|b| - 1]];
    }
  }

  lemma SortedPrefix(s: seq<Event>, n: nat)
    requires Sorted(s) && 0 < n <= |s|
    ensures forall e :: e in s[..n] <==> e in s && e.id <= s[n - 1].id
    ensures Sorted(s[..n])
  {
    forall e
      ensures e in s[..n] <==> e in s && e.id <= s[n - 1].id
    {
      if e in s {
        var k :| 0 <= k < |s| && s[k] == e;
        assert k < n ==> s[..n][k] == e;
      }
    }
  }

  /** The first n selected rows are those up to the n-th one's id. */
  lemma PrefixOfSelect(rows: seq<Event>, f: Filter, gone: set<nat>, lo: int, hi: int, n: nat)
    requires Sorted(rows) && 0 < n <= |Select(rows, f, gone, lo, hi)|
    ensures var s := Select(rows, f, gone, lo, hi);
      lo < s[n - 1].id <= hi && Select(rows, f, gone, lo, s[n - 1].id) == s[..n]
  {
    var s := Select(rows, f, gone, lo, hi);
    var x := s[n - 1].id;
    SelectMembers(rows, f, gone, lo, hi);
    assert s[n - 1] in s;
    SelectMembers(rows, f, gone, lo, x);
    SelectSorted(rows, f, gone, lo, hi);
    SelectSorted(rows, f, gone, lo, x);
    SortedPrefix(s, n);
    SortedExtensional(Select(rows, f, gone, lo, x), s[..n]);
  }

  // ---- the invariant ----

  /** The table is what is left of `ever`; beyond the cursor, exactly the lost
      rows are missing; and the poller has delivered, in order, exactly the
      matching rows up to its cursor that were not lost. */
  ghost predicate Consistent(s: System, f: Filter, from: int) {
    && ValidDb(s.db) && Sorted(s.ever)
    && (forall e :: e in s.ever ==> e.id < s.db.nextId)
    && (forall e :: e in s.db.rows ==> e in s.ever)
    && (forall e :: e in s.ever && e !in s.db.rows && e.id > s.cursor ==> e.id in s.lost)
    && (forall e :: e in s.db.rows ==> e.id !in s.lost)
    && (forall i :: i in s.lost ==> i < s.db.nextId)
    && from <= s.cursor && (s.cursor == from || s.cursor < s.db.nextId)
    && s.delivered == Select(s.ever, f, s.lost, from, s.cursor)
  }

  lemma SweepConsistent(s: System, host: Host, f: Filter, from: int, t: int, x: int)
    requires Consistent(s, f, from)
    ensures Consistent(Do(s, host, f, Write(SweepOp(t, x))), f, from)
  {
    var s' := Do(s, host, f, Write(SweepOp(t, x)));
    SweepValid(s.db, t, x);
    SweepOnlyDeletes(s.db, t, x);
    forall e | e in s.ever && e !in s'.db.rows && e.id > s.cursor ensures e.id in s'.lost {
      SweptIsLost(s, host, f, from, t, x, e);
    }
    SelectSame(s.ever, f, s.lost, s'.lost, from, s.cursor, s.cursor);
  }

  lemma SweptIsLost(s: System, host: Host, f: Filter, from: int, t: int, x: int, e: Event)
    requires Consistent(s, f, from) && e in s.ever && e !in Swept(s.db, t, x).rows && e.id > s.cursor
    ensures e.id in Do(s, host, f, Write(SweepOp(t, x))).lost
  {
    if e in s.db.rows {
      assert e.id in Ids(s.db.rows);
      SweptIdGone(s.db, t, x, e);
    }
  }

  lemma SweepOnlyDeletes(db: Db, t: int, x: int)
    ensures forall e :: e in Swept(db, t, x).rows ==> e in db.rows
  {
    RetainedMembers(db.rows, t, x);
  }

  lemma SweptIdGone(db: Db, t: int, x: int, e: Event)
    requires ValidDb(db) && e in db.rows && e !in Swept(db, t, x).rows
    ensures e.id !in Ids(Swept(db, t, x).rows)
  {
    SweepOnlyDeletes(db, t, x);
    if e.id in Ids(Swept(db, t, x).rows) {
      var d :| d in Swept(db, t, x).rows && d.id == e.id;
      SameIdSameRow(db, d, e);
    }
  }

  lemma InsertConsistent(s: System, host: Host, f: Filter, from: int, op: Op)
    requires Consistent(s, f, from) && !op.SweepOp?
    ensures Consistent(Do(s, host, f, Write(op)), f, from)
  {
    var s' := Do(s, host, f, Write(op));
    StepValid(s.db, host, op);
    var n := |s.db.rows|;
    if s'.db == s.db {
      assert s'.ever == s.ever;
    } else {
      var e := s'.db.rows[n];
      assert s'.db == Db(s.db.rows + [e], s.db.nextId + 1) && e.id == s.db.nextId;
      assert s'.db.rows[n..] == [e];
      GrownConsistent(s, s', f, from, e);
    }
  }

  lemma GrownConsistent(s: System, s': System, f: Filter, from: int, e: Event)
    requires Consistent(s, f, from) && e.id == s.db.nextId
    requires s' == s.(db := Db(s.db.rows + [e], s.db.nextId + 1), ever := s.ever + [e]) && ValidDb(s'.db)
    ensures Consistent(s', f, from)
  {
    SortedGrows(s.ever, e);
    SelectGrows(s.ever, e, f, s.lost, from, s.cursor);
    forall x | x in s'.ever ensures x in s.ever || x == e {}
  }

  lemma SortedGrows(rows: seq<Event>, e: Event)
    requires Sorted(rows) && forall x :: x in rows ==> x.id < e.id
    ensures Sorted(rows + [e])
  {
    assert forall i :: 0 <= i < |rows| ==> rows[i] in rows;
  }

  lemma SelectGrows(rows: seq<Event>, e: Event, f: Filter, gone: set<nat>, lo: int, hi: int)
    requires hi < e.id || hi == lo
    ensures Select(rows + [e], f, gone, lo, hi) == Select(rows, f, gone, lo, hi)
  {
    assert (rows + [e])[..|rows|] == rows;
  }

  /** The page a poll returns, seen through every row there has been. */
  lemma PageFromEver(s: System, f: Filter, from: int)
    requires Consistent(s, f, from)
    ensures Select(s.db.rows, f, {}, s.cursor, s.db.nextId) == Select(s.ever, f, s.lost, s.cursor, s.db.nextId)
  {
    SelectMembers(s.db.rows, f, {}, s.cursor, s.db.nextId);
    SelectMembers(s.ever, f, s.lost, s.cursor, s.db.nextId);
    SelectSorted(s.db.rows, f, {}, s.cursor, s.db.nextId);
    SelectSorted(s.ever, f, s.lost, s.cursor, s.db.nextId);
    SortedExtensional(Select(s.db.rows, f, {}, s.cursor, s.db.nextId), Select(s.ever, f, s.lost, s.cursor, s.db.nextId));
  }

  lemma PageIsPrefix(s: System, f: Filter, from: int, limit: int)
    requires Consistent(s, f, from)
    ensures var page := Page(s.db, f, s.cursor, limit);
      var all := Select(s.ever, f, s.lost, s.cursor, s.db.nextId);
      |page| <= |all| && page == all[..|page|]
  {
    PageFromEver(s, f, from);
  }

  lemma PollConsistent(s: System, host: Host, f: Filter, from: int, limit: int)
    requires Consistent(s, f, from)
    ensures Consistent(Do(s, host, f, Poll(limit)), f, from)
  {
    var page := Page(s.db, f, s.cursor, limit);
    PageIsPrefix(s, f, from, limit);
    if page != [] {
      PageMovesCursor(s, f, from, page);
    }
  }

  /** A page of the first rows after the cursor continues what was delivered. */
  lemma PageMovesCursor(s: System, f: Filter, from: int, page: seq<Event>)
    requires Consistent(s, f, from) && page != []
    requires page <= Select(s.ever, f, s.lost, s.cursor, s.db.nextId)
    ensures var next := page[|page| - 1].id;
      s.cursor < next < s.db.nextId && s.delivered + page == Select(s.ever, f, s.lost, from, next)
  {
    var all := Select(s.ever, f, s.lost, s.cursor, s.db.nextId);
    var next := page[|page| - 1].id;
    PrefixOfSelect(s.ever, f, s.lost, s.cursor, s.db.nextId, |page|);
    SelectMembers(s.ever, f, s.lost, s.cursor, s.db.nextId);
    assert all[|page| - 1] in all;
    SelectSplit(s.ever, f, s.lost, from, s.cursor, next);
  }

  lemma {:induction false} RunConsistent(s: System, host: Host, f: Filter, from: int, acts: seq<Act>)
    requires Consistent(s, f, from)
    ensures Consistent(Run(s, host, f, acts), f, from)
    decreases |acts|
  {
    if acts != [] {
      match acts[0] {
        case Write(op) =>
          if op.SweepOp? {
            SweepConsistent(s, host, f, from, op.toolCutoff, op.terminalCutoff);
          } else {
            InsertConsistent(s, host, f, from, op);
          }
        case Poll(limit) => PollConsistent(s, host, f, from, limit);
      }
      RunConsistent(Do(s, host, f, acts[0]), host, f, from, acts[1..]);
    }
  }

  ghost function Start(db: Db, from: int): System {
    System(db, from, [], db.rows, {})
  }

  /** Exactly-once paging. For every run of polls with any limits, appends,
      ingests and sweeps, from any cursor: the poller has received, in event_id
      order and once each, exactly the matching rows up to its cursor, except
      those a sweep deleted before the cursor reached them. A row still in the
      table is never missed. */
  lemma PagingExactlyOnce(db: Db, host: Host, f: Filter, from: int, acts: seq<Act>)
    requires ValidDb(db)
    ensures var s := Run(Start(db, from), host, f, acts);
      && s.delivered == Select(s.ever, f, s.lost, from, s.cursor)
      && Sorted(s.delivered)
      && (forall e :: e in s.db.rows && Matches(f, e) && from < e.id <= s.cursor ==> e in s.delivered)
      && (forall e :: e in s.db.rows ==> e.id !in s.lost)
  {
    SelectNothing(db.rows, f, {}, from, from);
    RunConsistent(Start(db, from), host, f, from, acts);
    var s := Run(Start(db, from), host, f, acts);
    SelectSorted(s.ever, f, s.lost, from, s.cursor);
    SelectMembers(s.ever, f, s.lost, from, s.cursor);
  }

  /** Without sweeps nothing is lost, and `ever` is the table itself. */
  lemma {:induction false} NothingLostWithoutSweeps(s: System, host: Host, f: Filter, acts: seq<Act>)
    requires s.ever == s.db.rows && s.lost == {}
    requires forall i :: 0 <= i < |acts| && acts[i].Write? ==> !acts[i].op.SweepOp?
    ensures Run(s, host, f, acts).ever == Run(s, host, f, acts).db.rows && Run(s, host, f, acts).lost == {}
    decreases |acts|
  {
    if acts != [] {
      var s' := Do(s, host, f, acts[0]);
      if acts[0].Write? {
        assert s'.db.rows == s.db.rows + s'.db.rows[|s.db.rows|..];
      }
      NothingLostWithoutSweeps(s', host, f, acts[1..]);
    }
  }

  // ---- what a page holds, and how far polls get ----

  /** A row a poller with these filters wants: of a kind asked for, or any if
      none was; of the session and of the runtime asked for, if any. */
  predicate Wanted(f: Filter, e: Event) {
    && (f.kinds != {} ==> e.kind in f.kinds)
    && (f.session.Some? ==> e.session == f.session)
    && (f.runtime.Some? ==> e.source.runtime == f.runtime.value)
  }

  /** Whatever a run of polls has delivered are the wanted rows there have been
      in (from, cursor], but for those swept away before their turn. */
  lemma DeliveredExactly(db: Db, host: Host, f: Filter, from: int, acts: seq<Act>, e: Event)
    requires ValidDb(db)
    ensures var s := Run(Start(db, from), host, f, acts);
      e in s.delivered <==> e in s.ever && Wanted(f, e) && from < e.id <= s.cursor && e.id !in s.lost
  {
    PagingExactlyOnce(db, host, f, from, acts);
    var s := Run(Start(db, from), host, f, acts);
    SelectMembers(s.ever, f, s.lost, from, s.cursor);
  }

  /** The rows a poll has still to fetch. */
  function Waiting(db: Db, f: Filter, cursor: int): seq<Event> {
    Select(db.rows, f, {}, cursor, db.nextId)
  }

  /** A poll fetches as many of the waiting rows as its limit allows, at least
      one and at most a thousand: the oldest ones; and leaves the others waiting. */
  lemma PollFetches(db: Db, f: Filter, cursor: int, limit: int)
    requires ValidDb(db)
    ensures forall e :: e in Waiting(db, f, cursor) <==> e in db.rows && Wanted(f, e) && e.id > cursor
    ensures var page, waiting := Page(db, f, cursor, limit), Waiting(db, f, cursor);
      var most := if limit < 1 then 1 else if limit > 1000 then 1000 else limit;
      && |page| == (if |waiting| < most then |waiting| else most)
      && page == waiting[..|page|]
      && Waiting(db, f, NextCursor(page, cursor)) == waiting[|page|..]
  {
    SelectMembers(db.rows, f, {}, cursor, db.nextId);
    var page, waiting := Page(db, f, cursor, limit), Waiting(db, f, cursor);
    assert page == waiting[..|page|];
    if page == [] {
      assert waiting[0..] == waiting;
    } else {
      PrefixOfSelect(db.rows, f, {}, cursor, db.nextId, |page|);
      SelectSplit(db.rows, f, {}, cursor, page[|page| - 1].id, db.nextId);
      assert waiting == page + Waiting(db, f, page[|page| - 1].id);
    }
  }

  /** The rows that a number of polls of a table at rest fetch, and the cursor
      after them. */
  function Fetched(db: Db, f: Filter, cursor: int, limits: seq<int>): seq<Event>
    decreases |limits|
  {
    if limits == [] then []
    else
      var page := Page(db, f, cursor, limits[0]);
      page + Fetched(db, f, NextCursor(page, cursor), limits[1..])
  }

  function CursorAfter(db: Db, f: Filter, cursor: int, limits: seq<int>): int
    decreases |limits|
  {
    if limits == [] then cursor
    else CursorAfter(db, f, NextCursor(Page(db, f, cursor, limits[0]), cursor), limits[1..])
  }

  /** Polls get on: of a table at rest, as many polls as rows are waiting, with
      whatever limits, fetch them all, in order. */
  lemma {:induction false} PollsDrain(db: Db, f: Filter, cursor: int, limits: seq<int>)
    requires ValidDb(db) && |limits| >= |Waiting(db, f, cursor)|
    ensures Fetched(db, f, cursor, limits) == Waiting(db, f, cursor)
    ensures Waiting(db, f, CursorAfter(db, f, cursor, limits)) == []
    decreases |limits|
  {
    if limits != [] {
      var waiting, page := Waiting(db, f, cursor), Page(db, f, cursor, limits[0]);
      PollShortens(db, f, cursor, limits[0]);
      PollsDrain(db, f, NextCursor(page, cursor), limits[1..]);
    }
  }

  lemma PollShortens(db: Db, f: Filter, cursor: int, limit: int)
    requires ValidDb(db)
    ensures var waiting, page := Waiting(db, f, cursor), Page(db, f, cursor, limit);
      var left := Waiting(db, f, NextCursor(page, cursor));
      waiting == page + left && (waiting != [] ==> |left| < |waiting|)
  {
    PollFetches(db, f, cursor, limit);
    var waiting, page := Waiting(db, f, cursor), Page(db, f, cursor, limit);
    assert waiting == page + waiting[|page|..];
  }
}
