/** Trimming a running OpenCode session: `_strip_running_session` deletes the
    event rows of completed turns and keeps the most recent ones. */
module Trim {

  type SessionId(==, !new)

  // session.next.agent.switched.1, session.next.model.switched.1, anything else
  datatype Kind = AgentSwitched | ModelSwitched | Other(name: string)

  datatype EventRow = EventRow(seqNo: int, kind: Kind)

  datatype StripResult = Stripped(trimmed: nat, kept: nat) | NoDatabase | NoSession

  const TURN_MARKER_DEDUP_GAP: int := 3

  predicate IsMarker(e: EventRow) {
    e.kind == AgentSwitched || e.kind == ModelSwitched
  }

  predicate Increasing(ev: seq<EventRow>) {
    forall i, j :: 0 <= i < j < |ev| ==> ev[i].seqNo < ev[j].seqNo
  }

  // ---- turns ----

  /** Sequence number of the last marker before index i; the first row counts as one. */
  function LastMarker(ev: seq<EventRow>, i: nat): int
    requires 1 <= i <= |ev|
  {
    if i == 1 then ev[0].seqNo
    else if IsMarker(ev[i - 1]) then ev[i - 1].seqNo
    else LastMarker(ev, i - 1)
  }

  /** A turn starts at the first row, and at each marker more than three
      sequence numbers after the previous marker. */
  predicate StartsTurn(ev: seq<EventRow>, i: nat)
    requires i < |ev|
  {
    i == 0 || (IsMarker(ev[i]) && ev[i].seqNo - LastMarker(ev, i) > TURN_MARKER_DEDUP_GAP)
  }

  /** Number of turns that start in [i, j). */
  function Turns(ev: seq<EventRow>, i: nat, j: nat): nat
    requires i <= j <= |ev|
    decreases j
  {
    if i == j then 0 else Turns(ev, i, j - 1) + (if StartsTurn(ev, j - 1) then 1 else 0)
  }

  /** Where to cut so that the last `keep` turns remain. */
  ghost predicate IsCut(ev: seq<EventRow>, keep: nat, c: nat)
    requires c < |ev|
  {
    StartsTurn(ev, c) && (Turns(ev, c, |ev|) == keep || (c == 0 && Turns(ev, 0, |ev|) <= keep))
  }

  /** `after` is what remains of `ev`: the suffix with its last `keep` turns. */
  ghost predicate KeepsLast(ev: seq<EventRow>, keep: nat, after: seq<EventRow>) {
    if ev == [] then after == [] else exists c: nat :: c < |ev| && IsCut(ev, keep, c) && after == ev[c..]
  }

  /** A later marker exists, so the turn that holds row i has ended. */
  predicate IsTurnCompleted(ev: seq<EventRow>, i: int) {
    0 <= i < |ev| && exists j :: i < j < |ev| && IsMarker(ev[j])
  }

  // ---- facts about turns ----

  lemma {:induction false} TurnsSplit(ev: seq<EventRow>, i: nat, j: nat, k: nat)
    requires i <= j <= k <= |ev|
    ensures Turns(ev, i, k) == Turns(ev, i, j) + Turns(ev, j, k)
    decreases k
  {
    if j < k {
      TurnsSplit(ev, i, j, k - 1);
    }
  }

  /** Cutting at a later start keeps fewer turns. */
  lemma EarlierStartHasMore(ev: seq<EventRow>, c: nat, d: nat)
    requires c < d <= |ev| && StartsTurn(ev, c)
    ensures Turns(ev, c, |ev|) >= 1 + Turns(ev, d, |ev|)
  {
    assert Turns(ev, c, c + 1) == 1;
    TurnsSplit(ev, c, c + 1, d);
    TurnsSplit(ev, c, d, |ev|);
  }

  lemma CutUnique(ev: seq<EventRow>, keep: nat, c: nat, d: nat)
    requires keep >= 1 && c <= d < |ev| && StartsTurn(ev, c) && IsCut(ev, keep, d)
    requires Turns(ev, c, |ev|) <= keep
    ensures c == d
  {
    if c < d {
      EarlierStartHasMore(ev, c, d);
    }
  }

  /** Adding later rows changes no earlier turn. */
  lemma {:induction false} PrefixTurns(ev: seq<EventRow>, more: seq<EventRow>, i: nat)
    requires 1 <= i <= |ev|
    ensures LastMarker(ev + more, i) == LastMarker(ev, i)
    ensures i < |ev| ==> StartsTurn(ev + more, i) == StartsTurn(ev, i)
  {
    if i > 1 {
      PrefixTurns(ev, more, i - 1);
    }
  }

  lemma {:induction false} PrefixCount(ev: seq<EventRow>, more: seq<EventRow>, i: nat, j: nat)
    requires i <= j <= |ev|
    ensures Turns(ev + more, i, j) == Turns(ev, i, j)
    decreases j
  {
    if i < j {
      PrefixCount(ev, more, i, j - 1);
      if j > 1 {
        PrefixTurns(ev, more, j - 1);
      }
    }
  }

  /** A suffix cut at the start of a turn has the same later turns. */
  lemma {:induction false} SuffixTurns(ev: seq<EventRow>, c: nat, i: nat)
    requires c < |ev| && StartsTurn(ev, c) && 1 <= i <= |ev| - c
    ensures LastMarker(ev[c..], i) == LastMarker(ev, c + i)
    ensures i < |ev| - c ==> StartsTurn(ev[c..], i) == StartsTurn(ev, c + i)
  {
    if i > 1 {
      SuffixTurns(ev, c, i - 1);
    }
  }

  lemma {:induction false} SuffixCount(ev: seq<EventRow>, c: nat, i: nat, j: nat)
    requires c < |ev| && StartsTurn(ev, c) && i <= j <= |ev| - c
    ensures Turns(ev[c..], i, j) == Turns(ev, c + i, c + j)
    decreases j
  {
    if i < j {
      SuffixCount(ev, c, i, j - 1);
      if j > 1 {
        SuffixTurns(ev, c, j - 1);
      }
    }
  }

  // ---- confluence ----

  /** What remains is determined. */
  lemma KeepsLastUnique(ev: seq<EventRow>, keep: nat, a: seq<EventRow>, b: seq<EventRow>)
    requires keep >= 1 && KeepsLast(ev, keep, a) && KeepsLast(ev, keep, b)
    ensures a == b
  {
    if ev != [] {
      var c: nat :| c < |ev| && IsCut(ev, keep, c) && a == ev[c..];
      var d: nat :| d < |ev| && IsCut(ev, keep, d) && b == ev[d..];
      if c <= d {
        CutUnique(ev, keep, c, d);
      } else {
        CutUnique(ev, keep, d, c);
      }
    }
  }

  /** More rows only move the cut to the right. */
  lemma CutMovesRight(ev: seq<EventRow>, more: seq<EventRow>, keep: nat, c: nat, d: nat)
    requires keep >= 1 && c < |ev| && IsCut(ev, keep, c) && d < |ev + more| && IsCut(ev + more, keep, d)
    ensures c <= d && StartsTurn(ev + more, c)
  {
    var all := ev + more;
    if c > 0 {
      PrefixTurns(ev, more, c);
      PrefixCount(ev, more, c, |ev|);
      TurnsSplit(all, c, |ev|, |all|);
      if d < c {
        EarlierStartHasMore(all, d, c);
      }
    }
  }

  lemma CutOfSuffix(all: seq<EventRow>, keep: nat, c: nat, d: nat)
    requires c <= d < |all| && StartsTurn(all, c) && IsCut(all, keep, d)
    ensures IsCut(all[c..], keep, d - c)
  {
    SuffixCount(all, c, d - c, |all| - c);
    if d > c {
      SuffixTurns(all, c, d - c);
    }
  }

  /** Stripping early and again later leaves the same rows as stripping once. */
  lemma TrimConfluent(ev: seq<EventRow>, more: seq<EventRow>, keep: nat, early: seq<EventRow>, late: seq<EventRow>)
    requires keep >= 1 && KeepsLast(ev, keep, early) && KeepsLast(ev + more, keep, late)
    ensures KeepsLast(early + more, keep, late)
  {
    if ev == [] {
      assert ev + more == early + more;
    } else {
      var all := ev + more;
      var c: nat :| c < |ev| && IsCut(ev, keep, c) && early == ev[c..];
      var d: nat :| d < |all| && IsCut(all, keep, d) && late == all[d..];
      CutMovesRight(ev, more, keep, c, d);
      CutOfSuffix(all, keep, c, d);
      assert early + more == all[c..];
      assert all[c..][d - c..] == all[d..];
    }
  }

  /** Stripping twice changes nothing more. */
  lemma TrimIdempotent(ev: seq<EventRow>, keep: nat, once: seq<EventRow>)
    requires keep >= 1 && KeepsLast(ev, keep, once)
    ensures KeepsLast(once, keep, once)
  {
    assert ev + [] == ev && once + [] == once;
    TrimConfluent(ev, [], keep, once, once);
  }

  /** What strip leaves: a suffix with as many turns as asked for, or all of
      them; the last turn, which may be in flight, is whole. */
  lemma TrimKeepsRecentTurns(ev: seq<EventRow>, keep: nat, after: seq<EventRow>)
    requires keep >= 1 && ev != [] && KeepsLast(ev, keep, after)
    ensures after != [] && after == ev[|ev| - |after|..]
    ensures Turns(after, 0, |after|) == if Turns(ev, 0, |ev|) <= keep then Turns(ev, 0, |ev|) else keep
    ensures forall i: nat :: i < |ev| && StartsTurn(ev, i) && Turns(ev, i, |ev|) <= keep ==> |ev| - |after| <= i
  {
    var c: nat :| c < |ev| && IsCut(ev, keep, c) && after == ev[c..];
    SuffixCount(ev, c, 0, |ev| - c);
    TurnsSplit(ev, 0, c, |ev|);
    forall i: nat | i < |ev| && StartsTurn(ev, i) && Turns(ev, i, |ev|) <= keep
      ensures c <= i
    {
      if i < c {
        CutUnique(ev, keep, i, c);
      }
    }
  }

  // ---- the code ----

  function DeleteBelow(ev: seq<EventRow>, cutoff: int): seq<EventRow> {
    if ev == [] then []
    else if ev[0].seqNo < cutoff then DeleteBelow(ev[1..], cutoff)
    else [ev[0]] + DeleteBelow(ev[1..], cutoff)
  }

  lemma {:induction false} DeleteBelowIsSuffix(ev: seq<EventRow>, c: nat)
    requires c < |ev| && Increasing(ev)
    ensures DeleteBelow(ev, ev[c].seqNo) == ev[c..]
  {
    if c > 0 {
      DeleteBelowIsSuffix(ev[1..], c - 1);
    } else {
      NothingBelow(ev, ev[0].seqNo);
    }
  }

  lemma {:induction false} NothingBelow(ev: seq<EventRow>, cutoff: int)
    requires forall i :: 0 <= i < |ev| ==> ev[i].seqNo >= cutoff
    ensures DeleteBelow(ev, cutoff) == ev
  {
    if ev != [] {
      NothingBelow(ev[1..], cutoff);
    }
  }

  class OpencodeDb {
    var present: bool
    // the event table: per aggregate_id, its rows in seq order
    var event: map<SessionId, seq<EventRow>>

    constructor ()
      ensures !present && event == map[]
    {
      present, event := false, map[];
    }

    function Rows(sid: SessionId): seq<EventRow>
      reads this
    {
      if sid in event then event[sid] else []
    }

    method TurnStarts(ev: seq<EventRow>) returns (starts: seq<nat>)
      requires ev != []
      ensures |starts| == Turns(ev, 0, |ev|)
      ensures forall k :: 0 <= k < |starts| ==>
        starts[k] < |ev| && StartsTurn(ev, starts[k]) && Turns(ev, starts[k], |ev|) == |starts| - k
    {
      starts := [0];
      var lastMarkerSeq := ev[0].seqNo;
      for i := 1 to |ev|
        invariant lastMarkerSeq == LastMarker(ev, i)
        invariant |starts| == Turns(ev, 0, i)
        invariant forall k :: 0 <= k < |starts| ==>
          starts[k] < i && StartsTurn(ev, starts[k]) && Turns(ev, starts[k], i) == |starts| - k
      {
        if IsMarker(ev[i]) {
          if ev[i].seqNo - lastMarkerSeq > TURN_MARKER_DEDUP_GAP {
            starts := starts + [i];
          }
          lastMarkerSeq := ev[i].seqNo;
        }
      }
    }

    /** `emptyId` says that backend_session_id is the empty string. */
    method StripRunningSession(sid: SessionId, emptyId: bool, keepRecent: int) returns (r: StripResult)
      requires Increasing(Rows(sid))
      modifies this`event
      ensures !present ==> r == NoDatabase && event == old(event)
      ensures present && emptyId ==> r == NoSession && event == old(event)
      ensures present && !emptyId ==>
        && KeepsLast(old(Rows(sid)), if keepRecent > 1 then keepRecent else 1, Rows(sid))
        && r == Stripped(|old(Rows(sid))| - |Rows(sid)|, |Rows(sid)|)
      ensures event.Keys == old(event).Keys && forall s :: s in event && s != sid ==> event[s] == old(event)[s]
    {
      var keep := if keepRecent > 1 then keepRecent else 1;
      if !present {
        return NoDatabase;
      }
      if emptyId {
        return NoSession;
      }
      var ev := Rows(sid);
      if ev == [] {
        return Stripped(0, 0);
      }
      var after := KeptRows(ev, keep);
      assert |after| <= |ev|;
      event := event[sid := after];
      return Stripped(|ev| - |after|, |after|);
    }

    /** The rows that the deletion leaves. */
    method KeptRows(ev: seq<EventRow>, keep: nat) returns (after: seq<EventRow>)
      requires ev != [] && keep > 0 && Increasing(ev)
      ensures KeepsLast(ev, keep, after) && |after| <= |ev|
    {
      var starts := TurnStarts(ev);
      if |starts| <= keep {
        assert IsCut(ev, keep, 0) && ev[0..] == ev;
        return ev;
      }
      var keepFrom := starts[|starts| - keep];
      var toTrim := starts[..|starts| - keep];
      AllCompleted(ev, starts, toTrim);
      // the safety gate: it never refuses
      if exists k :: 0 <= k < |toTrim| && !IsTurnCompleted(ev, toTrim[k]) {
        assert false;
      }
      DeleteBelowIsSuffix(ev, keepFrom);
      assert IsCut(ev, keep, keepFrom);
      after := DeleteBelow(ev, ev[keepFrom].seqNo);
    }
  }

  lemma AllCompleted(ev: seq<EventRow>, starts: seq<nat>, toTrim: seq<nat>)
    requires toTrim <= starts && |toTrim| < |starts|
    requires forall k :: 0 <= k < |starts| ==>
      starts[k] < |ev| && StartsTurn(ev, starts[k]) && Turns(ev, starts[k], |ev|) == |starts| - k
    ensures forall k :: 0 <= k < |toTrim| ==> IsTurnCompleted(ev, toTrim[k])
  {
    forall k | 0 <= k < |toTrim| ensures IsTurnCompleted(ev, toTrim[k]) {
      assert toTrim[k] == starts[k];
      EarlierTurnCompleted(ev, starts[k]);
    }
  }

  /** A turn that is not the last one has ended: the safety gate of the code
      holds for everything before the kept turns. */
  lemma EarlierTurnCompleted(ev: seq<EventRow>, i: nat)
    requires i < |ev| && StartsTurn(ev, i) && Turns(ev, i, |ev|) > 1
    ensures IsTurnCompleted(ev, i)
  {
    TurnsSplit(ev, i, i + 1, |ev|);
    LaterTurnHasMarker(ev, i + 1, |ev|);
  }

  lemma {:induction false} LaterTurnHasMarker(ev: seq<EventRow>, i: nat, j: nat)
    requires 1 <= i <= j <= |ev| && Turns(ev, i, j) > 0
    ensures exists m :: i <= m < j && IsMarker(ev[m])
    decreases j
  {
    if StartsTurn(ev, j - 1) {
      assert IsMarker(ev[j - 1]);
    } else {
      LaterTurnHasMarker(ev, i, j - 1);
    }
  }

  // ---- turns without recursion ----

  /** p is the last row before i that is a marker, or the first row if none is. */
  predicate IsLastMarker(ev: seq<EventRow>, i: nat, p: nat)
    requires i <= |ev|
  {
    && p < i && (p == 0 || ev[p].kind in {AgentSwitched, ModelSwitched})
    && forall q :: p < q < i ==> ev[q].kind !in {AgentSwitched, ModelSwitched}
  }

  lemma {:induction false} LastMarkerIs(ev: seq<EventRow>, i: nat, p: nat)
    requires 1 <= i <= |ev| && IsLastMarker(ev, i, p)
    ensures LastMarker(ev, i) == ev[p].seqNo
    decreases i
  {
    if p < i - 1 {
      LastMarkerIs(ev, i - 1, p);
    }
  }

  lemma {:induction false} LastMarkerExists(ev: seq<EventRow>, i: nat) returns (p: nat)
    requires 1 <= i <= |ev|
    ensures IsLastMarker(ev, i, p)
    decreases i
  {
    p := i - 1;
    if i > 1 && !IsMarker(ev[i - 1]) {
      p := LastMarkerExists(ev, i - 1);
    }
  }

  /** A row starts a turn if and only if it is the first one, or it switches
      agent or model more than three sequence numbers after the switch before it
      (after the first row, if there is none). */
  lemma TurnStartsWhere(ev: seq<EventRow>, i: nat)
    requires i < |ev|
    ensures StartsTurn(ev, i) <==>
      i == 0 || (ev[i].kind in {AgentSwitched, ModelSwitched}
                 && exists p: nat :: IsLastMarker(ev, i, p) && ev[i].seqNo - ev[p].seqNo > 3)
  {
    if i > 0 {
      var p := LastMarkerExists(ev, i);
      LastMarkerIs(ev, i, p);
      forall q: nat | IsLastMarker(ev, i, q) ensures ev[q].seqNo == LastMarker(ev, i) {
        LastMarkerIs(ev, i, q);
      }
    }
  }

  /** The rows of [i, j) that start a turn. */
  function Starts(ev: seq<EventRow>, i: nat, j: nat): set<nat>
    requires i <= j <= |ev|
  {
    set k: nat | i <= k < j && StartsTurn(ev, k)
  }

  /** Turns counts them. */
  lemma {:induction false} TurnsCountStarts(ev: seq<EventRow>, i: nat, j: nat)
    requires i <= j <= |ev|
    ensures Turns(ev, i, j) == |Starts(ev, i, j)|
    decreases j
  {
    if i == j {
      assert Starts(ev, i, j) == {};
    } else {
      TurnsCountStarts(ev, i, j - 1);
      assert Starts(ev, i, j) == Starts(ev, i, j - 1) + (if StartsTurn(ev, j - 1) then {j - 1} else {});
    }
  }

  /** What strip keeps, in these words: all rows if there are at most `keep`
      turns, and otherwise everything from the start of a turn on after which
      exactly keep - 1 more start. */
  lemma StripKeeps(ev: seq<EventRow>, keep: nat, after: seq<EventRow>)
    requires ev != [] && keep > 0 && KeepsLast(ev, keep, after)
    ensures |Starts(ev, 0, |ev|)| <= keep ==> after == ev
    ensures |Starts(ev, 0, |ev|)| > keep ==>
      exists c: nat :: 0 < c < |ev| && after == ev[c..] && c in Starts(ev, 0, |ev|) && |Starts(ev, c, |ev|)| == keep
  {
    var c: nat :| c < |ev| && IsCut(ev, keep, c) && after == ev[c..];
    TurnsCountStarts(ev, 0, |ev|);
    TurnsCountStarts(ev, c, |ev|);
    TurnsSplit(ev, 0, c, |ev|);
    if c > 0 {
      FirstStarts(ev, c);
    }
  }

  lemma {:induction false} FirstStarts(ev: seq<EventRow>, c: nat)
    requires 0 < c <= |ev|
    ensures Turns(ev, 0, c) > 0
    decreases c
  {
    if c > 1 {
      FirstStarts(ev, c - 1);
    }
  }
}
