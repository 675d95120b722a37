/** What the event library guarantees over whole runs: unique and gapless
    sequence numbers, and idempotent ingest. */
module EventRuns {
  import opened Basics
  import opened EventStore

  /** One transaction on the table. */
  datatype Op = Append(d: Draft) | IngestOp(r: Remote) | SweepOp(toolCutoff: int, terminalCutoff: int)

  function Step(db: Db, host: Host, op: Op): Db {
    match op
    case Append(d) => Appended(db, host, d)
    case IngestOp(r) => Ingested(db, r).1
    case SweepOp(t, x) => Swept(db, t, x)
  }

  function After(db: Db, host: Host, ops: seq<Op>): Db
    decreases |ops|
  {
    if ops == [] then db else After(Step(db, host, ops[0]), host, ops[1..])
  }

  // ==== The 4-tuple stays unique ====

  lemma {:induction false} RetainedMembers(rows: seq<Event>, t: int, x: int)
    ensures forall e :: e in Retained(rows, t, x) <==> e in rows && !Outdated(e, t, x)
    decreases |rows|
  {
    if rows != [] {
      RetainedMembers(rows[..|rows| - 1], t, x);
      assert rows == rows[..|rows| - 1] + [rows[|rows| - 1]];
    }
  }

  lemma {:induction false} RetainedSorted(rows: seq<Event>, t: int, x: int)
    requires Sorted(rows)
    ensures Sorted(Retained(rows, t, x))
    decreases |rows|
  {
    if rows != [] {
      var init, last := rows[..|rows| - 1], rows[|rows| - 1];
      RetainedSorted(init, t, x);
      RetainedMembers(init, t, x);
      var kept := Retained(init, t, x);
      forall i | 0 <= i < |kept|
        ensures kept[i].id < last.id
      {
        assert kept[i] in kept;
        var k :| 0 <= k < |init| && init[k] == kept[i];
      }
    }
  }

  lemma {:induction false} RetainedUnique(rows: seq<Event>, t: int, x: int)
    requires UniqueSources(rows)
    ensures UniqueSources(Retained(rows, t, x))
    decreases |rows|
  {
    if rows != [] {
      var init, last := rows[..|rows| - 1], rows[|rows| - 1];
      RetainedUnique(init, t, x);
      RetainedMembers(init, t, x);
      var kept := Retained(init, t, x);
      forall i | 0 <= i < |kept|
        ensures !(kept[i].source == last.source && kept[i].seqNo == last.seqNo)
      {
        assert kept[i] in kept;
        var k :| 0 <= k < |init| && init[k] == kept[i];
      }
    }
  }

  lemma SuffixKeeps(rows: seq<Event>, k: nat)
    requires k <= |rows|
    ensures Sorted(rows) ==> Sorted(rows[k..])
    ensures UniqueSources(rows) ==> UniqueSources(rows[k..])
    ensures forall e :: e in rows[k..] ==> e in rows
  {
  }

  lemma SweepValid(db: Db, t: int, x: int)
    requires ValidDb(db)
    ensures ValidDb(Swept(db, t, x))
  {
    var kept := Retained(db.rows, t, x);
    assert Sorted(kept) && UniqueSources(kept) && forall e :: e in kept ==> e in db.rows by {
      RetainedMembers(db.rows, t, x);
      RetainedSorted(db.rows, t, x);
      RetainedUnique(db.rows, t, x);
    }
    if |kept| > MAX_TOTAL_EVENTS {
      SuffixKeeps(kept, |kept| - MAX_TOTAL_EVENTS);
    }
  }

  lemma IngestValid(db: Db, r: Remote)
    requires ValidDb(db)
    ensures ValidDb(Ingested(db, r).1)
  {
    if Acceptable(r) && Listed(r.draft.kind) && Find(db.rows, SourceOf(r), r.seqNo).None? {
      InsertValid(db, SourceOf(r), r.seqNo, r.draft);
    }
  }

  lemma InsertValid(db: Db, s: Source, seqNo: int, d: Draft)
    requires ValidDb(db) && seqNo >= 1
    requires forall e :: e in db.rows ==> !(e.source == s && e.seqNo == seqNo)
    ensures ValidDb(Insert(db, s, seqNo, d))
  {
    assert forall i :: 0 <= i < |db.rows| ==> db.rows[i] in db.rows;
  }

  lemma StepValid(db: Db, host: Host, op: Op)
    requires ValidDb(db)
    ensures ValidDb(Step(db, host, op))
    ensures Step(db, host, op).nextId >= db.nextId
  {
    match op
    case Append(d) =>
      if d.runtime.Some? && d.session.Some? && Listed(d.kind) {
        var s := Source(host, d.runtime.value, d.generation);
        InsertValid(db, s, MaxSeq(db.rows, s) + 1, d);
      }
    case IngestOp(r) => IngestValid(db, r);
    case SweepOp(t, x) => SweepValid(db, t, x);
  }

  /** Over every run, sweeps included, each (host, runtime, generation,
      sequence) names at most one row, and event ids only grow. */
  lemma {:induction false} SourcesStayUnique(db: Db, host: Host, ops: seq<Op>)
    requires ValidDb(db)
    ensures ValidDb(After(db, host, ops))
    decreases |ops|
  {
    if ops != [] {
      StepValid(db, host, ops[0]);
      SourcesStayUnique(Step(db, host, ops[0]), host, ops[1..]);
    }
  }

  // ==== Local sequence numbers are 1..n ====

  /** The sequence numbers of one source, in event_id order. */
  function SeqNos(rows: seq<Event>, s: Source): seq<int> {
    if rows == [] then []
    else
      var last := rows[|rows| - 1];
      SeqNos(rows[..|rows| - 1], s) + (if last.source == s then [last.seqNo] else [])
  }

  ghost predicate Gapless(rows: seq<Event>, s: Source) {
    forall i :: 0 <= i < |SeqNos(rows, s)| ==> SeqNos(rows, s)[i] == i + 1
  }

  lemma {:induction false} GaplessMax(rows: seq<Event>, s: Source)
    requires Gapless(rows, s)
    ensures MaxSeq(rows, s) == |SeqNos(rows, s)|
    decreases |rows|
  {
    if rows != [] {
      var init := rows[..|rows| - 1];
      assert forall i :: 0 <= i < |SeqNos(init, s)| ==> SeqNos(init, s)[i] == SeqNos(rows, s)[i];
      GaplessMax(init, s);
      if rows[|rows| - 1].source == s {
        assert SeqNos(rows, s)[|SeqNos(init, s)|] == rows[|rows| - 1].seqNo;
      }
    }
  }

  predicate SweepFree(ops: seq<Op>) {
    forall i :: 0 <= i < |ops| ==> !ops[i].SweepOp?
  }

  predicate RemoteElsewhere(ops: seq<Op>, host: Host) {
    forall i :: 0 <= i < |ops| && ops[i].IngestOp? ==> ops[i].r.host != Some(host)
  }

  /** In runs without sweeps, and with remote hosts other than the local one,
      the numbers of every local source are exactly 1..n in event_id order. */
  lemma {:induction false} LocalNumbersGapless(db: Db, host: Host, ops: seq<Op>, s: Source)
    requires s.host == host && SweepFree(ops) && RemoteElsewhere(ops, host) && Gapless(db.rows, s)
    ensures Gapless(After(db, host, ops).rows, s)
    decreases |ops|
  {
    if ops != [] {
      var db' := Step(db, host, ops[0]);
      GaplessMax(db.rows, s);
      if db' != db {
        assert db'.rows[..|db'.rows| - 1] == db.rows;
      }
      assert Gapless(db'.rows, s);
      LocalNumbersGapless(db', host, ops[1..], s);
    }
  }

  lemma SweptMembers(db: Db, t: int, x: int, e: Event)
    requires e in Swept(db, t, x).rows
    ensures e in db.rows
  {
    RetainedMembers(db.rows, t, x);
  }

  /** Exactly when a sweep makes a source number backwards: the next number is
      at most one already given to a row of the table if and only if the sweep
      deleted every row with the highest number. */
  lemma SweepFreesNumber(db: Db, t: int, x: int, s: Source)
    requires ValidDb(db)
    ensures var next := MaxSeq(Swept(db, t, x).rows, s) + 1;
      (exists e :: e in db.rows && e.source == s && e.seqNo >= next)
      <==> MaxSeq(db.rows, s) > 0
           && forall e :: e in Swept(db, t, x).rows && e.source == s ==> e.seqNo < MaxSeq(db.rows, s)
  {
    forall e | e in Swept(db, t, x).rows ensures e in db.rows {
      SweptMembers(db, t, x, e);
    }
  }

  lemma {:induction false} SeqNosMembers(rows: seq<Event>, s: Source, n: int)
    ensures n in SeqNos(rows, s) <==> exists e :: e in rows && e.source == s && e.seqNo == n
    decreases |rows|
  {
    if rows != [] {
      SeqNosMembers(rows[..|rows| - 1], s, n);
      assert rows == rows[..|rows| - 1] + [rows[|rows| - 1]];
    }
  }

  /** For a source numbered 1..n the next number is then one that was given out
      before, and an append after the sweep gives it to another event. */
  lemma SweptNumberReused(db: Db, host: Host, t: int, x: int, d: Draft)
    requires ValidDb(db) && d.runtime.Some? && d.session.Some? && Listed(d.kind)
    requires Gapless(db.rows, Source(host, d.runtime.value, d.generation))
    ensures var s := Source(host, d.runtime.value, d.generation);
      var db' := Appended(Swept(db, t, x), host, d);
      var added := db'.rows[|db'.rows| - 1];
      && added.source == s && added !in db.rows
      && ((exists e :: e in db.rows && e.source == s && e.seqNo == added.seqNo)
          <==> MaxSeq(db.rows, s) > 0
               && forall e :: e in Swept(db, t, x).rows && e.source == s ==> e.seqNo < MaxSeq(db.rows, s))
  {
    var s := Source(host, d.runtime.value, d.generation);
    var next := MaxSeq(Swept(db, t, x).rows, s) + 1;
    SweepFreesNumber(db, t, x, s);
    GaplessMax(db.rows, s);
    if e :| e in db.rows && e.source == s && e.seqNo >= next {
      assert SeqNos(db.rows, s)[next - 1] == next;
      SeqNosMembers(db.rows, s, next);
    }
  }

  // ==== Ingest is idempotent ====

  function IngestAll(db: Db, rs: seq<Remote>): (seq<Ingest>, Db)
    decreases |rs|
  {
    if rs == [] then ([], db)
    else
      var (out, db1) := Ingested(db, rs[0]);
      var (outs, db2) := IngestAll(db1, rs[1..]);
      ([out] + outs, db2)
  }

  predicate SameTuple(e: Event, r: Remote) {
    Acceptable(r) && e.source == SourceOf(r) && e.seqNo == r.seqNo
  }

  predicate SameRemote(a: Remote, b: Remote) {
    Acceptable(a) && Acceptable(b) && SourceOf(a) == SourceOf(b) && a.seqNo == b.seqNo
  }

  lemma {:induction false} IngestKeeps(db: Db, rs: seq<Remote>)
    ensures |IngestAll(db, rs).0| == |rs| && db.rows <= IngestAll(db, rs).1.rows
    ensures ValidDb(db) ==> ValidDb(IngestAll(db, rs).1)
    decreases |rs|
  {
    if rs != [] {
      IngestKeeps(Ingested(db, rs[0]).1, rs[1..]);
      if ValidDb(db) {
        IngestValid(db, rs[0]);
      }
    }
  }

  lemma SameIdSameRow(db: Db, a: Event, b: Event)
    requires ValidDb(db) && a in db.rows && b in db.rows && a.id == b.id
    ensures a == b
  {
    var i :| 0 <= i < |db.rows| && db.rows[i] == a;
    var j :| 0 <= j < |db.rows| && db.rows[j] == b;
  }

  /** One ingest leaves exactly one row for the 4-tuple, and answers its id. */
  lemma IngestStores(db: Db, r: Remote) returns (e: Event)
    requires ValidDb(db) && Acceptable(r) && Listed(r.draft.kind)
    ensures e in Ingested(db, r).1.rows && SameTuple(e, r) && Ingested(db, r).0 == Stored(e.id)
    ensures (forall x :: x in db.rows ==> !SameTuple(x, r)) ==> e.payload == r.draft.payload
  {
    var found := Find(db.rows, SourceOf(r), r.seqNo);
    if found.Some? {
      e :| e in db.rows && e.source == SourceOf(r) && e.seqNo == r.seqNo && e.id == found.value;
    } else {
      e := Event(db.nextId, SourceOf(r), r.seqNo, r.draft.session, r.draft.kind, r.draft.created, r.draft.payload);
    }
  }

  /** The table holds exactly one row for r, out names it, and it carries r's
      payload if r was the first of its 4-tuple. */
  ghost predicate StoredOnce(db': Db, out: Ingest, r: Remote, first: bool) {
    exists e :: e in db'.rows && SameTuple(e, r) && out == Stored(e.id)
      && (forall x :: x in db'.rows && SameTuple(x, r) ==> x == e)
      && (first ==> e.payload == r.draft.payload)
  }

  /** r's 4-tuple is not in the table, nor earlier in the list. */
  ghost predicate IsFirst(db: Db, rs: seq<Remote>, i: nat)
    requires i < |rs|
  {
    && (forall x :: x in db.rows ==> !SameTuple(x, rs[i]))
    && forall j :: 0 <= j < i ==> !SameRemote(rs[j], rs[i])
  }

  /** Ingesting any list, with any duplication, leaves for each valid remote
      event exactly one row, with the payload of the first event of that
      4-tuple, and answers that row's id every time. */
  lemma {:induction false} IngestIdempotent(db: Db, rs: seq<Remote>, i: nat)
    requires ValidDb(db) && i < |rs| && Acceptable(rs[i]) && Listed(rs[i].draft.kind)
    ensures |IngestAll(db, rs).0| == |rs|
    ensures StoredOnce(IngestAll(db, rs).1, IngestAll(db, rs).0[i], rs[i], IsFirst(db, rs, i))
    decreases |rs|
  {
    var db1 := Ingested(db, rs[0]).1;
    IngestValid(db, rs[0]);
    IngestKeeps(db, rs);
    if i == 0 {
      var e := IngestStores(db, rs[0]);
      IngestKeeps(db1, rs[1..]);
      OneRowPerTuple(IngestAll(db, rs).1, e, rs[0]);
    } else {
      IngestIdempotent(db1, rs[1..], i - 1);
      if IsFirst(db, rs, i) {
        FirstCarriesOver(db, rs, i);
      }
    }
  }

  lemma FirstCarriesOver(db: Db, rs: seq<Remote>, i: nat)
    requires 0 < i < |rs| && IsFirst(db, rs, i)
    ensures IsFirst(Ingested(db, rs[0]).1, rs[1..], i - 1)
  {
    forall x | x in Ingested(db, rs[0]).1.rows && x !in db.rows
      ensures SameTuple(x, rs[0])
    {
    }
    assert !SameRemote(rs[0], rs[i]);
    assert forall j :: 0 <= j < i - 1 ==> rs[1..][j] == rs[j + 1];
  }

  lemma OneRowPerTuple(db: Db, e: Event, r: Remote)
    requires ValidDb(db) && e in db.rows && SameTuple(e, r)
    ensures forall x :: x in db.rows && SameTuple(x, r) ==> x == e
  {
    forall x | x in db.rows && SameTuple(x, r)
      ensures x == e
    {
      var i :| 0 <= i < |db.rows| && db.rows[i] == x;
      var j :| 0 <= j < |db.rows| && db.rows[j] == e;
    }
  }

  // ==== What one transaction leaves ====

  /** An append is accepted exactly when it names a runtime and a session and
      its kind is one of the twelve; it then adds one row with the draft's
      fields, the local host, a new id, and the number after the highest of its
      source. */
  lemma AppendLeaves(db: Db, host: Host, d: Draft)
    requires ValidDb(db)
    ensures var db' := Appended(db, host, d);
      if d.runtime.None? || d.session.None? || d.kind.Unlisted? then db' == db
      else
        && |db'.rows| == |db.rows| + 1 && db'.rows[..|db.rows|] == db.rows && db'.nextId == db.nextId + 1
        && var e := db'.rows[|db.rows|];
        && e.id == db.nextId && e.source == Source(host, d.runtime.value, d.generation)
        && e.session == d.session && e.kind == d.kind && e.created == d.created && e.payload == d.payload
        && e.seqNo >= 1 && (forall x :: x in db.rows && x.source == e.source ==> x.seqNo < e.seqNo)
        && (e.seqNo == 1 || exists x :: x in db.rows && x.source == e.source && x.seqNo == e.seqNo - 1)
  {
  }

  /** An ingest is invalid exactly when the event lacks its host, its runtime or
      a positive number, and skipped exactly when it is valid but of no listed
      kind. Otherwise a 4-tuple the table has is answered with the id of its row
      and changes nothing, and a new one is added with the event's fields. */
  lemma IngestLeaves(db: Db, r: Remote)
    requires ValidDb(db)
    ensures var (out, db') := Ingested(db, r);
      && (out == Invalid <==> r.host.None? || r.draft.runtime.None? || r.seqNo <= 0)
      && (out == Skipped <==> out != Invalid && r.draft.kind.Unlisted?)
      && (out == Invalid || out == Skipped ==> db' == db)
      && (out.Stored? ==>
            var s := Source(r.host.value, r.draft.runtime.value, r.draft.generation);
            if exists e :: e in db.rows && e.source == s && e.seqNo == r.seqNo
            then db' == db && exists e :: e in db.rows && e.source == s && e.seqNo == r.seqNo && e.id == out.id
            else db' == Db(db.rows + [Event(db.nextId, s, r.seqNo, r.draft.session, r.draft.kind, r.draft.created, r.draft.payload)],
                           db.nextId + 1)
                 && out.id == db.nextId)
  {
  }

  // ---- sweeps ----

  /** Too old to keep: details of tool updates by the first cutoff, task states,
      read receipts and errors by the second; no other kind has an age. */
  predicate Expired(e: Event, toolCutoff: int, terminalCutoff: int) {
    || (e.kind == TOOL_UPDATED && e.created < toolCutoff)
    || (e.kind in {TASK_STATE, MESSAGE_READ, ERROR} && e.created < terminalCutoff)
  }

  /** How many of the rows from e on are not expired. */
  function Younger(rows: seq<Event>, e: Event, t: int, x: int): nat {
    if rows == [] then 0
    else Younger(rows[1..], e, t, x) + (if rows[0].id >= e.id && !Expired(rows[0], t, x) then 1 else 0)
  }

  /** Where a row that is not expired ends up among the retained ones. */
  lemma {:induction false} PlaceOf(rows: seq<Event>, e: Event, t: int, x: int) returns (i: nat)
    requires Sorted(rows) && e in rows && !Expired(e, t, x)
    ensures i < |Retained(rows, t, x)| && Retained(rows, t, x)[i] == e
    ensures Younger(rows, e, t, x) == |Retained(rows, t, x)| - i
    decreases |rows|
  {
    var n := |rows| - 1;
    var init, last := rows[..n], rows[n];
    assert rows == init + [last];
    YoungerSnoc(init, last, e, t, x);
    if e == last {
      NoneYounger(init, e, t, x);
      i := |Retained(init, t, x)|;
    } else {
      LastIsNewest(rows, e);
      i := PlaceOf(init, e, t, x);
    }
  }

  lemma LastIsNewest(rows: seq<Event>, e: Event)
    requires Sorted(rows) && e in rows && e != rows[|rows| - 1]
    ensures e in rows[..|rows| - 1] && e.id < rows[|rows| - 1].id
  {
    var k :| 0 <= k < |rows| && rows[k] == e;
    assert rows[..|rows| - 1][k] == e;
  }

  lemma {:induction false} YoungerSnoc(rows: seq<Event>, last: Event, e: Event, t: int, x: int)
    ensures Younger(rows + [last], e, t, x)
         == Younger(rows, e, t, x) + (if last.id >= e.id && !Expired(last, t, x) then 1 else 0)
  {
    if rows == [] {
      assert ([] + [last])[1..] == [];
    } else {
      assert (rows + [last])[1..] == rows[1..] + [last];
      YoungerSnoc(rows[1..], last, e, t, x);
    }
  }

  lemma {:induction false} NoneYounger(rows: seq<Event>, e: Event, t: int, x: int)
    requires Sorted(rows + [e])
    ensures Younger(rows, e, t, x) == 0
  {
    if rows != [] {
      assert (rows + [e])[0].id < (rows + [e])[|rows|].id;
      assert (rows + [e])[1..] == rows[1..] + [e];
      NoneYounger(rows[1..], e, t, x);
    }
  }

  /** Which rows a sweep keeps: those not expired that are among the newest
      100000 of that kind; it adds nothing and keeps the order. */
  lemma SweepKeeps(db: Db, t: int, x: int, e: Event)
    requires ValidDb(db)
    ensures e in Swept(db, t, x).rows <==> e in db.rows && !Expired(e, t, x) && Younger(db.rows, e, t, x) <= 100000
    ensures Sorted(Swept(db, t, x).rows) && Swept(db, t, x).nextId == db.nextId
  {
    var kept := Retained(db.rows, t, x);
    SweepValid(db, t, x);
    RetainedMembers(db.rows, t, x);
    RetainedSorted(db.rows, t, x);
    if e in kept {
      var i := PlaceOf(db.rows, e, t, x);
      InSuffix(kept, i, if |kept| > 100000 then |kept| - 100000 else 0);
    }
  }

  lemma InSuffix(rows: seq<Event>, i: nat, k: nat)
    requires Sorted(rows) && i < |rows| && k <= |rows|
    ensures rows[i] in rows[k..] <==> i >= k
  {
    if i >= k {
      assert rows[k..][i - k] == rows[i];
    } else {
      forall e | e in rows[k..] ensures e.id > rows[i].id {
        var j :| 0 <= j < |rows[k..]| && rows[k..][j] == e;
        assert rows[k + j] == e;
      }
    }
  }
}
