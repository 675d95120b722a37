/** RequestLedger: an append-only event log per request in which the first
    terminal event of each run wins. */
module Ledger {
  import opened Basics

  type RequestId(==, !new)   // a safe path component
  type RunId(==, !new)

  datatype Event =
    | DONE | BLOCKED | CANCELLED | EXPIRED | UNKNOWN_STALE
    | DISPATCHED | ACKED | RUNNING | NOTICE
    | PROTOCOL_CONFLICT
    | OtherEvent(name: string)

  /** Where an entry came from; a conflict names the event it froze and the winner. */
  datatype Meta = Plain | FromReport | FromArtifact(verified: bool) | Conflict(frozen: Event, existing: Event)

  datatype Entry = Entry(run: RunId, event: Event, ts: int, meta: Meta)

  /** A line that does not parse is skipped by every reader. */
  datatype Line = Good(entry: Entry) | Garbled

  datatype MsgKind = RECEIPT(read: bool) | TASK | INIT | PROGRESS | REPORT | NOTICE_MSG | OTHER_KIND

  /** None stands for an empty field. */
  datatype Msg = Msg(kind: MsgKind, request: Option<RequestId>, run: Option<RunId>)

  datatype Stale = Stale(request: RequestId, run: RunId, ackedTs: int)

  predicate IsTerminal(e: Event) {
    e.DONE? || e.BLOCKED? || e.CANCELLED? || e.EXPIRED? || e.UNKNOWN_STALE?
  }

  // ---- reading a log ----

  /** _read_entries: the entries of one run, in log order. */
  function Entries(log: seq<Line>, run: RunId): seq<Entry> {
    if log == [] then []
    else
      var last := log[|log| - 1];
      Entries(log[..|log| - 1], run) + (if last.Good? && last.entry.run == run then [last.entry] else [])
  }

  /** get_terminal: the first terminal event recorded for the run. */
  function FirstTerminal(es: seq<Entry>): Option<Event> {
    if es == [] then None
    else if IsTerminal(es[0].event) then Some(es[0].event)
    else FirstTerminal(es[1..])
  }

  function Terminal(log: seq<Line>, run: RunId): Option<Event> {
    FirstTerminal(Entries(log, run))
  }

  // ---- writing ----

  /** The line record_event appends, and whether the event was accepted. */
  function RecordedLine(log: seq<Line>, run: RunId, event: Event, meta: Meta, now: int): (Line, bool) {
    var existing := Terminal(log, run);
    if IsTerminal(event) && existing.Some?
    then (Good(Entry(run, PROTOCOL_CONFLICT, now, Conflict(event, existing.value))), false)
    else (Good(Entry(run, event, now, meta)), true)
  }

  class RequestLedger {
    // events/<request_id>/events.jsonl, in append order
    var logs: map<RequestId, seq<Line>>

    constructor ()
      ensures logs == map[]
    {
      logs := map[];
    }

    function Log(request: RequestId): seq<Line>
      reads this
    {
      if request in logs then logs[request] else []
    }

    method ReadEntries(request: RequestId, run: RunId) returns (es: seq<Entry>)
      ensures es == Entries(Log(request), run)
    {
      var log := Log(request);
      es := [];
      for i := 0 to |log|
        invariant es == Entries(log[..i], run)
      {
        assert log[..i + 1][..i] == log[..i];
        if log[i].Good? && log[i].entry.run == run {
          es := es + [log[i].entry];
        }
      }
      assert log[..|log|] == log;
    }

    method GetTerminal(request: RequestId, run: RunId) returns (t: Option<Event>)
      ensures t == Terminal(Log(request), run)
    {
      var es := ReadEntries(request, run);
      for i := 0 to |es|
        invariant FirstTerminal(es) == FirstTerminal(es[i..])
      {
        if IsTerminal(es[i].event) {
          return Some(es[i].event);
        }
        assert es[i..][1..] == es[i + 1..];
      }
      return None;
    }

    method Append(request: RequestId, line: Line)
      modifies this
      ensures logs == old(logs)[request := old(Log(request)) + [line]]
    {
      logs := logs[request := Log(request) + [line]];
    }

    /** record_event, the whole of which runs under the request's lock. */
    method RecordEvent(request: RequestId, run: RunId, event: Event, meta: Meta, now: int) returns (accepted: bool)
      modifies this
      ensures var (line, ok) := RecordedLine(old(Log(request)), run, event, meta, now);
        accepted == ok && logs == old(logs)[request := old(Log(request)) + [line]]
    {
      if IsTerminal(event) {
        var existing := GetTerminal(request, run);
        if existing.Some? {
          Append(request, Good(Entry(run, PROTOCOL_CONFLICT, now, Conflict(event, existing.value))));
          return false;
        }
      }
      Append(request, Good(Entry(run, event, now, meta)));
      return true;
    }

    /** apply_message: what a mailbox message does to the ledger. A report ends
        its run: afterwards the run has a terminal event. */
    method ApplyMessage(msg: Msg, now: int) returns (recorded: Option<Event>)
      modifies this
      ensures msg.request.None? || msg.run.None? ==> recorded == None
      ensures recorded == None ==> logs == old(logs)
      ensures recorded.Some? ==>
        logs == old(logs)[msg.request.value := old(Log(msg.request.value))
                            + [RecordedLine(old(Log(msg.request.value)), msg.run.value, recorded.value,
                                            if msg.kind.REPORT? then FromReport else Plain, now).0]]
      ensures msg.request.Some? && msg.run.Some? ==>
        recorded == match msg.kind
                    case RECEIPT(read) => if read then Some(ACKED) else None
                    case TASK => Some(DISPATCHED)
                    case INIT => Some(DISPATCHED)
                    case PROGRESS =>
                      if Terminal(old(Log(msg.request.value)), msg.run.value).None?
                         && forall e :: e in Entries(old(Log(msg.request.value)), msg.run.value) ==> e.event != RUNNING
                      then Some(RUNNING) else None
                    case REPORT => Some(DONE)
                    case NOTICE_MSG => Some(NOTICE)
                    case OTHER_KIND => None
      ensures msg.kind.REPORT? && msg.request.Some? && msg.run.Some? ==>
        Terminal(Log(msg.request.value), msg.run.value).Some?
    {
      if msg.request.None? || msg.run.None? {
        return None;
      }
      var request, run := msg.request.value, msg.run.value;
      match msg.kind {
        case RECEIPT(read) =>
          if !read {
            return None;
          }
          recorded := Some(ACKED);
        case TASK => recorded := Some(DISPATCHED);
        case INIT => recorded := Some(DISPATCHED);
        case PROGRESS =>
          var terminal := GetTerminal(request, run);
          if terminal.Some? {
            return None;
          }
          var es := ReadEntries(request, run);
          if exists e :: e in es && e.event == RUNNING {
            return None;
          }
          recorded := Some(RUNNING);
        case REPORT => recorded := Some(DONE);
        case NOTICE_MSG => recorded := Some(NOTICE);
        case OTHER_KIND => return None;
      }
      TerminalAfter(Log(request), run, run, recorded.value, MetaOf(msg), now);
      var _ := RecordEvent(request, run, recorded.value, MetaOf(msg), now);
    }

    /** record_artifact_verdict: the terminal now in force, and whether this call set it. */
    method RecordArtifactVerdict(request: RequestId, run: RunId, verified: bool, now: int) returns (terminal: Event, cas: bool)
      modifies this
      ensures Terminal(Log(request), run) == Some(terminal)
      ensures cas == Terminal(old(Log(request)), run).None?
      ensures terminal == if cas then (if verified then DONE else BLOCKED) else Terminal(old(Log(request)), run).value
    {
      var state := if verified then DONE else BLOCKED;
      TerminalAfter(Log(request), run, run, state, FromArtifact(verified), now);
      cas := RecordEvent(request, run, state, FromArtifact(verified), now);
      if cas {
        return state, true;
      }
      var existing := GetTerminal(request, run);
      return existing.value, false;
    }

    /** _read_entries_all_runs: the runs in order of first appearance, each
        with its entries. */
    method ReadEntriesAllRuns(request: RequestId) returns (runs: seq<RunId>, byRun: map<RunId, seq<Entry>>)
      ensures Distinct(runs) && (forall r :: r in runs <==> r in byRun)
      ensures forall r :: r in byRun <==> Entries(Log(request), r) != []
      ensures forall r :: r in byRun ==> byRun[r] == Entries(Log(request), r)
    {
      var log := Log(request);
      runs, byRun := [], map[];
      for i := 0 to |log|
        invariant Distinct(runs) && (forall r :: r in runs <==> r in byRun)
        invariant forall r :: r in byRun <==> Entries(log[..i], r) != []
        invariant forall r :: r in byRun ==> byRun[r] == Entries(log[..i], r)
      {
        EntriesNext(log, i);
        if log[i].Good? {
          var r := log[i].entry.run;
          if r !in byRun {
            assert forall k :: 0 <= k < |runs| ==> runs[k] in runs;
            runs := runs + [r];
          }
          byRun := byRun[r := (if r in byRun then byRun[r] else []) + [log[i].entry]];
        }
      }
      assert log[..|log|] == log;
    }

    /** find_stale over the listed request directories. */
    method FindStale(dirs: seq<RequestId>, sla: int, now: int) returns (results: seq<Stale>)
      requires Distinct(dirs) && forall q :: q in logs ==> q in dirs
      ensures forall s :: s in results <==> StaleIn(Log(s.request), s, sla, now)
      ensures forall i, j :: 0 <= i < j < |results| ==>
        !(results[i].request == results[j].request && results[i].run == results[j].run)
    {
      results := [];
      for i := 0 to |dirs|
        invariant forall s :: s in results <==> s.request in dirs[..i] && StaleIn(Log(s.request), s, sla, now)
        invariant PairsDistinct(results)
      {
        var runs, byRun := ReadEntriesAllRuns(dirs[i]);
        var found := FindStaleRuns(dirs[i], runs, byRun, sla, now);
        forall s | s in results
          ensures s.request != dirs[i]
        {
        }
        PairsDistinctAppend(results, found);
        assert dirs[..i + 1] == dirs[..i] + [dirs[i]];
        results := results + found;
      }
      forall s: Stale
        ensures s in results <==> StaleIn(Log(s.request), s, sla, now)
      {
        assert dirs[..|dirs|] == dirs;
        assert Entries([], s.run) == [];
      }
      assert forall i :: 0 <= i < |results| ==> results[i] in results;
    }

    method FindStaleRuns(request: RequestId, runs: seq<RunId>, byRun: map<RunId, seq<Entry>>, sla: int, now: int)
      returns (found: seq<Stale>)
      requires Distinct(runs) && (forall r :: r in runs <==> r in byRun)
      requires forall r :: r in byRun <==> Entries(Log(request), r) != []
      requires forall r :: r in byRun ==> byRun[r] == Entries(Log(request), r)
      ensures forall s :: s in found <==> s.request == request && StaleIn(Log(request), s, sla, now)
      ensures PairsDistinct(found)
    {
      found := [];
      for i := 0 to |runs|
        invariant forall s :: s in found <==> s.request == request && s.run in runs[..i] && StaleIn(Log(request), s, sla, now)
        invariant PairsDistinct(found)
      {
        assert runs[..i + 1] == runs[..i] + [runs[i]];
        assert runs[i] in runs;
        var acked := OverdueAck(byRun[runs[i]], sla, now);
        if acked.Some? {
          var s := Stale(request, runs[i], acked.value);
          assert forall f :: f in found ==> f.run != runs[i];
          PairsDistinctAppend(found, [s]);
          found := found + [s];
        }
      }
      assert runs[..|runs|] == runs;
    }

    /** The timestamp find_stale reports for one run, if it is stale. */
    method OverdueAck(es: seq<Entry>, sla: int, now: int) returns (ts: Option<int>)
      ensures ts.Some? <==> exists t :: OverdueAt(es, t, sla, now)
      ensures ts.Some? ==> OverdueAt(es, ts.value, sla, now)
    {
      if exists e :: e in es && IsTerminal(e.event) {
        assert forall t :: !OverdueAt(es, t, sla, now);
        return None;
      }
      for i := 0 to |es|
        invariant forall j :: 0 <= j < i ==> !Overdue(es[j], sla, now)
      {
        if Overdue(es[i], sla, now) {
          assert OverdueAt(es, es[i].ts, sla, now);
          return Some(es[i].ts);
        }
      }
      return None;
    }
  }

  lemma EntriesNext(log: seq<Line>, i: nat)
    requires i < |log|
    ensures forall r ::
      Entries(log[..i + 1], r) == Entries(log[..i], r) + (if log[i].Good? && log[i].entry.run == r then [log[i].entry] else [])
  {
    assert log[..i + 1][..i] == log[..i];
  }

  predicate PairsDistinct(s: seq<Stale>) {
    forall i, j :: 0 <= i < j < |s| ==> !(s[i].request == s[j].request && s[i].run == s[j].run)
  }

  lemma PairsDistinctAppend(a: seq<Stale>, b: seq<Stale>)
    requires PairsDistinct(a) && PairsDistinct(b)
    requires forall s, t :: s in a && t in b ==> !(s.request == t.request && s.run == t.run)
    ensures PairsDistinct(a + b)
  {
    var c := a + b;
    forall i, j | 0 <= i < j < |c|
      ensures !(c[i].request == c[j].request && c[i].run == c[j].run)
    {
      if i < |a| <= j {
        assert c[i] in a && c[j] in b;
      }
    }
  }

  predicate Overdue(e: Entry, sla: int, now: int) {
    e.event == ACKED && now - e.ts > sla
  }

  /** The run has no terminal event and its first overdue ACKED is from t. */
  ghost predicate OverdueAt(es: seq<Entry>, t: int, sla: int, now: int) {
    && (forall e :: e in es ==> !IsTerminal(e.event))
    && exists i :: 0 <= i < |es| && Overdue(es[i], sla, now) && es[i].ts == t
                   && forall j :: 0 <= j < i ==> !Overdue(es[j], sla, now)
  }

  /** What find_stale reports about one request. */
  ghost predicate StaleIn(log: seq<Line>, s: Stale, sla: int, now: int) {
    OverdueAt(Entries(log, s.run), s.ackedTs, sla, now)
  }

  function MetaOf(msg: Msg): Meta {
    if msg.kind.REPORT? then FromReport else Plain
  }

  // ---- terminals never change ----

  lemma {:induction false} FirstTerminalSnoc(es: seq<Entry>, e: Entry)
    ensures FirstTerminal(es + [e])
         == if FirstTerminal(es).Some? then FirstTerminal(es) else if IsTerminal(e.event) then Some(e.event) else None
  {
    if es == [] {
      assert (es + [e])[1..] == [];
    } else {
      assert (es + [e])[1..] == es[1..] + [e];
      FirstTerminalSnoc(es[1..], e);
    }
  }

  /** One record_event: the terminal of its own run is set if it was free and
      the event is terminal, and kept otherwise; other runs keep theirs. */
  lemma TerminalAfter(log: seq<Line>, run: RunId, other: RunId, event: Event, meta: Meta, now: int)
    ensures Terminal(log + [RecordedLine(log, run, event, meta, now).0], other)
         == if other == run && IsTerminal(event) && Terminal(log, run).None? then Some(event) else Terminal(log, other)
  {
    var line := RecordedLine(log, run, event, meta, now).0;
    assert (log + [line])[..|log|] == log;
    FirstTerminalSnoc(Entries(log, other), line.entry);
    assert Entries(log, other) + [] == Entries(log, other);
  }

  /** A run with a terminal event, such as any run whose report was applied,
      is never reported stale. */
  lemma TerminalNeverStale(log: seq<Line>, s: Stale, sla: int, now: int)
    ensures Terminal(log, s.run).Some? ==> !StaleIn(log, s, sla, now)
  {
    TerminalIsEntry(Entries(log, s.run));
  }

  lemma {:induction false} TerminalIsEntry(es: seq<Entry>)
    ensures FirstTerminal(es).Some? <==> exists e :: e in es && IsTerminal(e.event)
  {
    if es != [] {
      TerminalIsEntry(es[1..]);
      assert es == [es[0]] + es[1..];
    }
  }

  // ==== Every interleaving of record_event calls ====

  /** One record_event call; calls on any requests and runs, by any process,
      take effect in the order of their locked sections. */
  datatype Call = Call(request: RequestId, run: RunId, event: Event, meta: Meta, now: int)

  /** The log of a request after the calls, starting with no log. */
  function LogAfter(calls: seq<Call>, request: RequestId): seq<Line> {
    if calls == [] then []
    else
      var before := LogAfter(calls[..|calls| - 1], request);
      var c := calls[|calls| - 1];
      if c.request == request then before + [RecordedLine(before, c.run, c.event, c.meta, c.now).0] else before
  }

  function Accepted(calls: seq<Call>, i: nat): bool
    requires i < |calls|
  {
    var c := calls[i];
    RecordedLine(LogAfter(calls[..i], c.request), c.run, c.event, c.meta, c.now).1
  }

  predicate Ends(c: Call, request: RequestId, run: RunId) {
    c.request == request && c.run == run && IsTerminal(c.event)
  }

  function TerminalCount(es: seq<Entry>): nat {
    if es == [] then 0
    else TerminalCount(es[..|es| - 1]) + (if IsTerminal(es[|es| - 1].event) then 1 else 0)
  }

  /** i is the first call that ends the run. */
  ghost predicate IsWinner(calls: seq<Call>, i: nat, request: RequestId, run: RunId) {
    i < |calls| && Ends(calls[i], request, run) && forall j :: 0 <= j < i ==> !Ends(calls[j], request, run)
  }

  /** The terminal of a run is the event of the first call that ends it, for
      ever, and the log holds exactly one terminal event for it, or none if no
      call ends it. */
  lemma {:induction false} FirstTerminalWins(calls: seq<Call>, request: RequestId, run: RunId)
    ensures var log := LogAfter(calls, request);
      && (forall i: nat :: IsWinner(calls, i, request, run) ==> Terminal(log, run) == Some(calls[i].event))
      && (Terminal(log, run).Some? <==> exists i: nat :: IsWinner(calls, i, request, run))
      && TerminalCount(Entries(log, run)) == if Terminal(log, run).Some? then 1 else 0
    decreases |calls|
  {
    if calls != [] {
      var n := |calls| - 1;
      var init := calls[..n];
      var c := calls[n];
      FirstTerminalWins(init, request, run);
      forall i: nat | i < n
        ensures IsWinner(calls, i, request, run) <==> IsWinner(init, i, request, run)
      {
      }
      LastCall(calls, request, run);
      WinnerExtends(calls, request, run);
      forall i: nat | IsWinner(calls, i, request, run)
        ensures Terminal(LogAfter(calls, request), run) == Some(calls[i].event)
      {
        if i < n {
          assert IsWinner(init, i, request, run);
        }
      }
    }
  }

  lemma CountAfter(log: seq<Line>, line: Line, run: RunId)
    requires line.Good?
    ensures TerminalCount(Entries(log + [line], run)) == TerminalCount(Entries(log, run))
      + (if line.entry.run == run && IsTerminal(line.entry.event) then 1 else 0)
  {
    assert (log + [line])[..|log|] == log;
    if line.entry.run == run {
      var es := Entries(log, run) + [line.entry];
      assert es[..|es| - 1] == Entries(log, run);
    } else {
      assert Entries(log, run) + [] == Entries(log, run);
    }
  }

  /** What the last call adds to what is known of a run. */
  lemma LastCall(calls: seq<Call>, request: RequestId, run: RunId)
    requires calls != []
    ensures var before := LogAfter(calls[..|calls| - 1], request);
      var after := LogAfter(calls, request);
      var sets := Ends(calls[|calls| - 1], request, run) && Terminal(before, run).None?;
      && Terminal(after, run) == (if sets then Some(calls[|calls| - 1].event) else Terminal(before, run))
      && TerminalCount(Entries(after, run)) == TerminalCount(Entries(before, run)) + (if sets then 1 else 0)
  {
    var c := calls[|calls| - 1];
    var before := LogAfter(calls[..|calls| - 1], request);
    if c.request == request {
      TerminalAfter(before, c.run, run, c.event, c.meta, c.now);
      CountAfter(before, RecordedLine(before, c.run, c.event, c.meta, c.now).0, run);
    }
  }

  lemma WinnerExtends(calls: seq<Call>, request: RequestId, run: RunId)
    requires calls != []
    ensures var init := calls[..|calls| - 1];
      (exists i: nat :: IsWinner(calls, i, request, run))
      <==> (exists i: nat :: IsWinner(init, i, request, run)) || Ends(calls[|calls| - 1], request, run)
    ensures var init := calls[..|calls| - 1];
      IsWinner(calls, |calls| - 1, request, run)
      <==> Ends(calls[|calls| - 1], request, run) && !exists i: nat :: IsWinner(init, i, request, run)
  {
    var n := |calls| - 1;
    var init := calls[..n];
    FirstExists(init, request, run);
    if exists i: nat :: IsWinner(init, i, request, run) {
      var i: nat :| IsWinner(init, i, request, run);
      assert IsWinner(calls, i, request, run);
    }
    if exists i: nat :: IsWinner(calls, i, request, run) {
      var i: nat :| IsWinner(calls, i, request, run);
      assert i == n || IsWinner(init, i, request, run);
    }
    if Ends(calls[n], request, run) && !exists i: nat :: IsWinner(init, i, request, run) {
      assert IsWinner(calls, n, request, run);
    }
  }

  lemma {:induction false} FirstExists(calls: seq<Call>, request: RequestId, run: RunId)
    ensures (exists j :: 0 <= j < |calls| && Ends(calls[j], request, run)) ==> exists i: nat :: IsWinner(calls, i, request, run)
    decreases |calls|
  {
    if calls != [] {
      var init := calls[..|calls| - 1];
      FirstExists(init, request, run);
      if exists j :: 0 <= j < |init| && Ends(init[j], request, run) {
        var i: nat :| IsWinner(init, i, request, run);
        assert IsWinner(calls, i, request, run);
      } else if Ends(calls[|init|], request, run) {
        assert forall j :: 0 <= j < |init| ==> calls[j] == init[j];
        assert IsWinner(calls, |init|, request, run);
      }
    }
  }

  /** A call is accepted unless it is terminal and the run already has a
      winner; a rejected call leaves one conflict naming itself and the winner. */
  lemma RejectedNamesWinner(calls: seq<Call>, i: nat)
    requires i < |calls|
    ensures var c := calls[i];
      && (!Accepted(calls, i) <==> IsTerminal(c.event) && exists w: nat :: w < i && IsWinner(calls, w, c.request, c.run))
      && forall w: nat :: w < i && IsWinner(calls, w, c.request, c.run) && IsTerminal(c.event) ==>
           LogAfter(calls[..i + 1], c.request)
           == LogAfter(calls[..i], c.request) + [Good(Entry(c.run, PROTOCOL_CONFLICT, c.now, Conflict(c.event, calls[w].event)))]
  {
    var c := calls[i];
    var init := calls[..i];
    FirstTerminalWins(init, c.request, c.run);
    assert calls[..i + 1][..i] == init;
    forall w: nat | w < i
      ensures IsWinner(calls, w, c.request, c.run) <==> IsWinner(init, w, c.request, c.run)
    {
    }
  }

  // ==== What an event leaves behind ====

  lemma EntriesAfter(log: seq<Line>, line: Line, run: RunId)
    ensures Entries(log + [line], run) ==
      Entries(log, run) + (if line.Good? && line.entry.run == run then [line.entry] else [])
  {
    assert (log + [line])[..|log|] == log;
  }

  /** An event of a run that has not ended, or one that ends nothing, is added
      to its run as it was given; an event that would end an ended run leaves a
      conflict instead. Other runs gain nothing either way. */
  lemma EventLeaves(log: seq<Line>, run: RunId, other: RunId, event: Event, meta: Meta, now: int)
    ensures var (line, accepted) := RecordedLine(log, run, event, meta, now);
      var refused := event in {DONE, BLOCKED, CANCELLED, EXPIRED, UNKNOWN_STALE} && Terminal(log, run).Some?;
      && accepted == !refused
      && Entries(log + [line], other) ==
           if other != run then Entries(log, other)
           else if refused then Entries(log, run) + [Entry(run, PROTOCOL_CONFLICT, now, Conflict(event, Terminal(log, run).value))]
           else Entries(log, run) + [Entry(run, event, now, meta)]
  {
    EntriesAfter(log, RecordedLine(log, run, event, meta, now).0, other);
  }

  /** Exactly five events end a run. */
  lemma WhatEndsARun(log: seq<Line>, run: RunId, event: Event, meta: Meta, now: int)
    requires Terminal(log, run).None?
    ensures Terminal(log + [RecordedLine(log, run, event, meta, now).0], run).Some?
       <==> event in {DONE, BLOCKED, CANCELLED, EXPIRED, UNKNOWN_STALE}
  {
    TerminalAfter(log, run, run, event, meta, now);
  }

  /** The first READ receipt of a run that has not ended makes it stale exactly
      when it gets older than the limit, and it is then reported with the time
      of the receipt. */
  lemma AckedBecomesStale(log: seq<Line>, request: RequestId, run: RunId, now: int, sla: int, later: int)
    requires Terminal(log, run).None? && forall e :: e in Entries(log, run) ==> e.event != ACKED
    ensures var log' := log + [RecordedLine(log, run, ACKED, Plain, now).0];
      forall t :: StaleIn(log', Stale(request, run, t), sla, later) <==> t == now && later - now > sla
  {
    var es := Entries(log, run);
    EventLeaves(log, run, run, ACKED, Plain, now);
    TerminalIsEntry(es);
    var e := Entry(run, ACKED, now, Plain);
    forall t ensures OverdueAt(es + [e], t, sla, later) <==> t == now && later - now > sla {
      FirstAtAfter(es, e, t, sla, later);
      NoneOverdueYet(es, t, sla, later);
      assert forall x :: x in es + [e] ==> x in es || x == e;
    }
  }

  lemma NoneOverdueYet(es: seq<Entry>, t: int, sla: int, now: int)
    requires forall e :: e in es ==> e.event != ACKED
    ensures !FirstAt(es, t, sla, now)
  {
    assert forall i :: 0 <= i < |es| ==> es[i] in es;
  }

  /** Only the first PROGRESS counts: once RUNNING is recorded, the run's log
      shows it. */
  lemma RunningIsSeen(log: seq<Line>, run: RunId, now: int)
    ensures exists e :: e in Entries(log + [RecordedLine(log, run, RUNNING, Plain, now).0], run) && e.event == RUNNING
  {
    EventLeaves(log, run, run, RUNNING, Plain, now);
    var e := Entry(run, RUNNING, now, Plain);
    assert (Entries(log, run) + [e])[|Entries(log, run)|] == e;
  }

  // ==== The stale query in terms of the calls ====

  /** The entries of a run that no call has ended, read off the calls. */
  function Called(calls: seq<Call>, request: RequestId, run: RunId): seq<Entry> {
    if calls == [] then []
    else
      var c := calls[|calls| - 1];
      Called(calls[..|calls| - 1], request, run)
      + (if c.request == request && c.run == run then [Entry(run, c.event, c.now, c.meta)] else [])
  }

  lemma {:induction false} EntriesAreCalls(calls: seq<Call>, request: RequestId, run: RunId)
    requires forall i :: 0 <= i < |calls| ==> !Ends(calls[i], request, run)
    ensures Entries(LogAfter(calls, request), run) == Called(calls, request, run)
    ensures forall e :: e in Called(calls, request, run) ==> !IsTerminal(e.event)
    decreases |calls|
  {
    if calls != [] {
      var init, c := calls[..|calls| - 1], calls[|calls| - 1];
      EntriesAreCalls(init, request, run);
      var es := Called(init, request, run);
      assert es + [] == es;
      if c.request == request {
        EventLeaves(LogAfter(init, request), c.run, run, c.event, c.meta, c.now);
      }
    }
  }

  /** Call i acknowledged the run and is overdue; no earlier such call is. */
  ghost predicate FirstOverdue(calls: seq<Call>, i: nat, request: RequestId, run: RunId, sla: int, now: int) {
    && i < |calls| && OverdueCall(calls[i], request, run, sla, now)
    && forall j :: 0 <= j < i ==> !OverdueCall(calls[j], request, run, sla, now)
  }

  predicate OverdueCall(c: Call, request: RequestId, run: RunId, sla: int, now: int) {
    c.request == request && c.run == run && c.event == ACKED && now - c.now > sla
  }

  ghost predicate ReportedAt(calls: seq<Call>, request: RequestId, run: RunId, t: int, sla: int, now: int) {
    exists i: nat :: FirstOverdue(calls, i, request, run, sla, now) && calls[i].now == t
  }

  ghost predicate FirstAt(es: seq<Entry>, t: int, sla: int, now: int) {
    exists i :: 0 <= i < |es| && Overdue(es[i], sla, now) && es[i].ts == t
                && forall j :: 0 <= j < i ==> !Overdue(es[j], sla, now)
  }

  lemma FirstAtAfter(es: seq<Entry>, e: Entry, t: int, sla: int, now: int)
    ensures FirstAt(es + [e], t, sla, now) <==>
      FirstAt(es, t, sla, now) || ((forall x :: x in es ==> !Overdue(x, sla, now)) && Overdue(e, sla, now) && e.ts == t)
  {
    var l := es + [e];
    assert forall i :: 0 <= i < |es| ==> l[i] == es[i] && es[i] in es;
    if FirstAt(es, t, sla, now) {
      var i :| 0 <= i < |es| && Overdue(es[i], sla, now) && es[i].ts == t && forall j :: 0 <= j < i ==> !Overdue(es[j], sla, now);
      assert l[i] == es[i];
    }
    if (forall x :: x in es ==> !Overdue(x, sla, now)) && Overdue(e, sla, now) && e.ts == t {
      assert l[|es|] == e;
    }
    if FirstAt(l, t, sla, now) {
      var i :| 0 <= i < |l| && Overdue(l[i], sla, now) && l[i].ts == t && forall j :: 0 <= j < i ==> !Overdue(l[j], sla, now);
      if i < |es| {
        assert forall j :: 0 <= j < i ==> l[j] == es[j];
      } else {
        forall x | x in es ensures !Overdue(x, sla, now) {
          var j :| 0 <= j < |es| && es[j] == x;
          assert l[j] == x;
        }
      }
    }
  }

  lemma FirstOverdueAfter(calls: seq<Call>, request: RequestId, run: RunId, t: int, sla: int, now: int)
    requires calls != []
    ensures var init, c := calls[..|calls| - 1], calls[|calls| - 1];
      ReportedAt(calls, request, run, t, sla, now) <==>
      (|| ReportedAt(init, request, run, t, sla, now)
       || (NoneOverdue(init, request, run, sla, now)
           && OverdueCall(c, request, run, sla, now) && c.now == t))
  {
    var n := |calls| - 1;
    var init := calls[..n];
    if i: nat :| FirstOverdue(init, i, request, run, sla, now) && init[i].now == t {
      assert FirstOverdue(calls, i, request, run, sla, now);
    }
    if i: nat :| FirstOverdue(calls, i, request, run, sla, now) && calls[i].now == t {
      assert i < n ==> FirstOverdue(init, i, request, run, sla, now);
      assert forall j :: 0 <= j < i ==> init[j] == calls[j];
    }
    if NoneOverdue(init, request, run, sla, now) && OverdueCall(calls[n], request, run, sla, now) && calls[n].now == t {
      assert forall j :: 0 <= j < n ==> calls[j] == init[j];
      assert FirstOverdue(calls, n, request, run, sla, now);
    }
  }

  ghost predicate NoneOverdue(calls: seq<Call>, request: RequestId, run: RunId, sla: int, now: int) {
    forall j :: 0 <= j < |calls| ==> !OverdueCall(calls[j], request, run, sla, now)
  }

  lemma NoneInAppend(es: seq<Entry>, e: Entry, sla: int, now: int)
    ensures (forall x :: x in es + [e] ==> !Overdue(x, sla, now))
       <==> (forall x :: x in es ==> !Overdue(x, sla, now)) && !Overdue(e, sla, now)
  {
    assert e in es + [e];
    assert forall x :: x in es ==> x in es + [e];
  }

  lemma {:induction false} NoneCalledOverdue(calls: seq<Call>, request: RequestId, run: RunId, sla: int, now: int)
    ensures (forall x :: x in Called(calls, request, run) ==> !Overdue(x, sla, now))
       <==> NoneOverdue(calls, request, run, sla, now)
    decreases |calls|
  {
    if calls != [] {
      var n := |calls| - 1;
      NoneCalledOverdue(calls[..n], request, run, sla, now);
      assert NoneOverdue(calls, request, run, sla, now) <==>
        NoneOverdue(calls[..n], request, run, sla, now) && !OverdueCall(calls[n], request, run, sla, now) by {
        assert forall j :: 0 <= j < n ==> calls[j] == calls[..n][j];
      }
      var es := Called(calls[..n], request, run);
      if calls[n].request == request && calls[n].run == run {
        var e := Entry(run, calls[n].event, calls[n].now, calls[n].meta);
        NoneInAppend(es, e, sla, now);
      } else {
        assert Called(calls, request, run) == es + [] == es;
      }
    }
  }

  lemma {:induction false} CalledOverdue(calls: seq<Call>, request: RequestId, run: RunId, t: int, sla: int, now: int)
    ensures FirstAt(Called(calls, request, run), t, sla, now) <==> ReportedAt(calls, request, run, t, sla, now)
    decreases |calls|
  {
    if calls != [] {
      var n := |calls| - 1;
      CalledOverdue(calls[..n], request, run, t, sla, now);
      NoneCalledOverdue(calls[..n], request, run, sla, now);
      FirstOverdueAfter(calls, request, run, t, sla, now);
      CalledAfter(calls, request, run, t, sla, now);
    }
  }

  lemma CalledAfter(calls: seq<Call>, request: RequestId, run: RunId, t: int, sla: int, now: int)
    requires calls != []
    ensures var init, c := calls[..|calls| - 1], calls[|calls| - 1];
      FirstAt(Called(calls, request, run), t, sla, now) <==>
        FirstAt(Called(init, request, run), t, sla, now)
        || ((forall x :: x in Called(init, request, run) ==> !Overdue(x, sla, now))
            && OverdueCall(c, request, run, sla, now) && c.now == t)
  {
    var c := calls[|calls| - 1];
    var es := Called(calls[..|calls| - 1], request, run);
    if c.request == request && c.run == run {
      FirstAtAfter(es, Entry(run, c.event, c.now, c.meta), t, sla, now);
    } else {
      assert Called(calls, request, run) == es + [] == es;
    }
  }

  /** find_stale over whole runs of calls: a pair is reported, with time t, if
      and only if no call has ended it and t is the time of the first of its
      acknowledgements that is older than the limit. */
  lemma StaleExactly(calls: seq<Call>, s: Stale, sla: int, now: int)
    ensures StaleIn(LogAfter(calls, s.request), s, sla, now) <==>
      && (forall i :: 0 <= i < |calls| ==> !Ends(calls[i], s.request, s.run))
      && ReportedAt(calls, s.request, s.run, s.ackedTs, sla, now)
  {
    var log := LogAfter(calls, s.request);
    if forall i :: 0 <= i < |calls| ==> !Ends(calls[i], s.request, s.run) {
      EntriesAreCalls(calls, s.request, s.run);
      CalledOverdue(calls, s.request, s.run, s.ackedTs, sla, now);
    } else {
      FirstExists(calls, s.request, s.run);
      FirstTerminalWins(calls, s.request, s.run);
      TerminalNeverStale(log, s, sla, now);
    }
  }
}
