/** The gateway's event library: local sequencing, idempotent remote ingest,
    cursor paging and retention. */
module EventStore {
  import opened Basics

  type Host(==, !new)
  type RuntimeId(==, !new)
  type SessionId(==, !new)
  type Payload(!new)

  /** The fixed kinds; `Unlisted` is any other text, such as TURN_TRIGGERED. */
  datatype Kind =
    | RUNTIME_STATE | MESSAGE_DELIVERED | MESSAGE_READ | TURN_STARTED | ASSISTANT_PROGRESS
    | TOOL_STARTED | TOOL_UPDATED | TOOL_FINISHED | USAGE | TASK_STATE | ERROR | AGENT_STATUS
    | Unlisted(name: string)

  /** UNIQUE(source_host, runtime_id, generation, source_sequence) */
  datatype Source = Source(host: Host, runtime: RuntimeId, generation: int)

  datatype Event = Event(id: nat, source: Source, seqNo: int, session: Option<SessionId>, kind: Kind, created: int, payload: Payload)

  /** A draft or a remote event; None stands for an empty field. */
  datatype Draft = Draft(runtime: Option<RuntimeId>, generation: int, session: Option<SessionId>, kind: Kind, created: int, payload: Payload)

  datatype Remote = Remote(host: Option<Host>, seqNo: int, draft: Draft)

  /** The table in event_id order, and the next AUTOINCREMENT id. */
  datatype Db = Db(rows: seq<Event>, nextId: nat)

  datatype Ingest = Stored(id: nat) | Skipped | Invalid

  /** A query's kinds (none given: all), session and runtime. */
  datatype Filter = Filter(kinds: set<Kind>, session: Option<SessionId>, runtime: Option<RuntimeId>)

  const MAX_TOTAL_EVENTS: nat := 100000

  predicate Listed(k: Kind) {
    !k.Unlisted?
  }

  // ---- the table ----

  ghost predicate Sorted(rows: seq<Event>) {
    forall i, j :: 0 <= i < j < |rows| ==> rows[i].id < rows[j].id
  }

  ghost predicate UniqueSources(rows: seq<Event>) {
    forall i, j :: 0 <= i < j < |rows| ==> !(rows[i].source == rows[j].source && rows[i].seqNo == rows[j].seqNo)
  }

  ghost predicate ValidDb(db: Db) {
    && Sorted(db.rows) && UniqueSources(db.rows)
    && forall e :: e in db.rows ==> e.id < db.nextId && e.seqNo >= 1
  }

  /** COALESCE(MAX(source_sequence), 0) */
  function MaxSeq(rows: seq<Event>, s: Source): (m: int)
    ensures m >= 0
    ensures forall e :: e in rows && e.source == s ==> e.seqNo <= m
    ensures m == 0 || exists e :: e in rows && e.source == s && e.seqNo == m
  {
    if rows == [] then 0
    else
      var last := rows[|rows| - 1];
      var m := MaxSeq(rows[..|rows| - 1], s);
      assert rows == rows[..|rows| - 1] + [last];
      if last.source == s && last.seqNo > m then last.seqNo else m
  }

  function Insert(db: Db, s: Source, seqNo: int, d: Draft): Db {
    Db(db.rows + [Event(db.nextId, s, seqNo, d.session, d.kind, d.created, d.payload)], db.nextId + 1)
  }

  function Appended(db: Db, host: Host, d: Draft): Db {
    if d.runtime.None? || d.session.None? || !Listed(d.kind) then db
    else
      var s := Source(host, d.runtime.value, d.generation);
      Insert(db, s, MaxSeq(db.rows, s) + 1, d)
  }

  function SourceOf(r: Remote): Source
    requires r.host.Some? && r.draft.runtime.Some?
  {
    Source(r.host.value, r.draft.runtime.value, r.draft.generation)
  }

  predicate Acceptable(r: Remote) {
    r.host.Some? && r.draft.runtime.Some? && r.seqNo > 0
  }

  /** The id of the row with this 4-tuple. */
  function Find(rows: seq<Event>, s: Source, seqNo: int): (id: Option<nat>)
    ensures id.None? <==> forall e :: e in rows ==> !(e.source == s && e.seqNo == seqNo)
    ensures id.Some? ==> exists e :: e in rows && e.source == s && e.seqNo == seqNo && e.id == id.value
  {
    if rows == [] then None
    else if rows[0].source == s && rows[0].seqNo == seqNo then Some(rows[0].id)
    else
      assert rows == [rows[0]] + rows[1..];
      Find(rows[1..], s, seqNo)
  }

  function Ingested(db: Db, r: Remote): (Ingest, Db) {
    if !Acceptable(r) then (Invalid, db)
    else if !Listed(r.draft.kind) then (Skipped, db)
    else
      var found := Find(db.rows, SourceOf(r), r.seqNo);
      if found.Some? then (Stored(found.value), db) else (Stored(db.nextId), Insert(db, SourceOf(r), r.seqNo, r.draft))
  }

  predicate Matches(f: Filter, e: Event) {
    && (f.kinds == {} || e.kind in f.kinds)
    && (f.session.None? || e.session == f.session)
    && (f.runtime.None? || e.source.runtime == f.runtime.value)
  }

  /** The matching rows with lo < event_id <= hi outside `gone`, in order. */
  function Select(rows: seq<Event>, f: Filter, gone: set<nat>, lo: int, hi: int): seq<Event> {
    if rows == [] then []
    else
      var last := rows[|rows| - 1];
      Select(rows[..|rows| - 1], f, gone, lo, hi)
      + (if Matches(f, last) && last.id !in gone && lo < last.id <= hi then [last] else [])
  }

  function Clamp(limit: int): nat {
    if limit < 1 then 1 else if limit > 1000 then 1000 else limit
  }

  function Page(db: Db, f: Filter, cursor: int, limit: int): seq<Event> {
    var all := Select(db.rows, f, {}, cursor, db.nextId);
    if |all| <= Clamp(limit) then all else all[..Clamp(limit)]
  }

  function NextCursor(page: seq<Event>, cursor: int): int {
    if page == [] then cursor else page[|page| - 1].id
  }

  predicate Outdated(e: Event, toolCutoff: int, terminalCutoff: int) {
    || (e.kind.TOOL_UPDATED? && e.created < toolCutoff)
    || ((e.kind.TASK_STATE? || e.kind.MESSAGE_READ? || e.kind.ERROR?) && e.created < terminalCutoff)
  }

  function Retained(rows: seq<Event>, toolCutoff: int, terminalCutoff: int): seq<Event> {
    if rows == [] then []
    else
      var last := rows[|rows| - 1];
      Retained(rows[..|rows| - 1], toolCutoff, terminalCutoff) + (if Outdated(last, toolCutoff, terminalCutoff) then [] else [last])
  }

  function Swept(db: Db, toolCutoff: int, terminalCutoff: int): Db {
    var kept := Retained(db.rows, toolCutoff, terminalCutoff);
    db.(rows := if |kept| > MAX_TOTAL_EVENTS then kept[|kept| - MAX_TOTAL_EVENTS..] else kept)
  }

  class EventStore {
    const sourceHost: Host
    var rows: seq<Event>
    var nextId: nat

    constructor (host: Host)
      ensures sourceHost == host && rows == [] && nextId == 1
    {
      sourceHost := host;
      rows, nextId := [], 1;
    }

    function Contents(): Db
      reads this
    {
      Db(rows, nextId)
    }

    /** append_local; None is a rejected draft. */
    method AppendLocal(d: Draft) returns (e: Option<Event>)
      modifies this
      ensures Contents() == Appended(old(Contents()), sourceHost, d)
      ensures e.Some? <==> d.runtime.Some? && d.session.Some? && Listed(d.kind)
      ensures e.Some? ==> rows == old(rows) + [e.value]
    {
      if d.runtime.None? || d.session.None? || !Listed(d.kind) {
        return None;
      }
      var s := Source(sourceHost, d.runtime.value, d.generation);
      var ev := Event(nextId, s, MaxSeq(rows, s) + 1, d.session, d.kind, d.created, d.payload);
      rows := rows + [ev];
      nextId := nextId + 1;
      return Some(ev);
    }

    method IngestRemote(r: Remote) returns (out: Ingest)
      modifies this
      ensures (out, Contents()) == Ingested(old(Contents()), r)
    {
      if !Acceptable(r) {
        return Invalid;
      }
      if !Listed(r.draft.kind) {
        return Skipped;
      }
      var existing := Find(rows, SourceOf(r), r.seqNo);
      if existing.Some? {
        return Stored(existing.value);
      }
      rows := rows + [Event(nextId, SourceOf(r), r.seqNo, r.draft.session, r.draft.kind, r.draft.created, r.draft.payload)];
      nextId := nextId + 1;
      return Stored(nextId - 1);
    }

    /** list_after; None is a query with an unlisted kind. */
    method ListAfter(cursor: int, f: Filter, limit: int) returns (r: Option<(seq<Event>, int)>)
      requires ValidDb(Contents())
      ensures r.None? <==> exists k :: k in f.kinds && !Listed(k)
      ensures r.Some? ==> r.value.0 == Page(Contents(), f, cursor, limit) && r.value.1 == NextCursor(r.value.0, cursor)
    {
      if exists k :: k in f.kinds && !Listed(k) {
        return None;
      }
      var events: seq<Event> := [];
      ghost var all: seq<Event> := [];
      for i := 0 to |rows|
        invariant all == Select(rows[..i], f, {}, cursor, nextId)
        invariant events == if |all| <= Clamp(limit) then all else all[..Clamp(limit)]
      {
        assert rows[..i + 1][..i] == rows[..i];
        assert rows[i] in rows;
        if Matches(f, rows[i]) && rows[i].id > cursor {
          if |events| < Clamp(limit) {
            events := events + [rows[i]];
          }
          all := all + [rows[i]];
        }
      }
      assert rows[..|rows|] == rows;
      return Some((events, NextCursor(events, cursor)));
    }

    method Sweep(toolCutoff: int, terminalCutoff: int) returns (removed: int)
      modifies this`rows
      ensures Contents() == Swept(old(Contents()), toolCutoff, terminalCutoff)
      ensures removed == |old(rows)| - |rows|
    {
      var kept: seq<Event> := [];
      for i := 0 to |rows|
        invariant kept == Retained(rows[..i], toolCutoff, terminalCutoff)
        invariant rows == old(rows)
      {
        assert rows[..i + 1][..i] == rows[..i];
        if !Outdated(rows[i], toolCutoff, terminalCutoff) {
          kept := kept + [rows[i]];
        }
      }
      assert rows[..|rows|] == rows;
      if |kept| > MAX_TOTAL_EVENTS {
        kept := kept[|kept| - MAX_TOTAL_EVENTS..];
      }
      removed := |rows| - |kept|;
      rows := kept;
    }
  }
}
