/** Persistent runtime commands: the command table, the ack chain, and what
    plugin acknowledgements do to a command. */
module Commands {
  import opened Basics

  type RequestId(==, !new)
  type RuntimeId(==, !new)
  type CommandId(==, !new)
  type MailId(==, !new)
  type TurnId(==, !new)
  type Hash(==, !new)

  datatype CmdState =
    | QUEUED | CLAIMED | REVIVING | TRIGGERING | TURN_TRIGGERED
    | FAILED_SAFE | AMBIGUOUS | TRIGGER_UNKNOWN

  datatype Detail =
    | NoDetail
    | Acked(ack: CmdState)
    | Advanced(ack: CmdState, from: CmdState, through: seq<CmdState>)
    | OtherDetail

  datatype Row = Row(
    command: CommandId, mail: Option<MailId>, turn: Option<TurnId>, runtime: RuntimeId, generation: int,
    hash: Hash, state: CmdState, detail: Detail)

  type Table = map<RequestId, Row>

  // ---- the transition table ----

  function Transitions(s: CmdState): set<CmdState> {
    match s
    case QUEUED => {CLAIMED, FAILED_SAFE, AMBIGUOUS}
    case CLAIMED => {REVIVING, TRIGGERING, FAILED_SAFE, AMBIGUOUS}
    case REVIVING => {TRIGGERING, FAILED_SAFE, AMBIGUOUS}
    case TRIGGERING => {TURN_TRIGGERED, AMBIGUOUS, TRIGGER_UNKNOWN}
    case TURN_TRIGGERED => {}
    case FAILED_SAFE => {}
    case AMBIGUOUS => {}
    case TRIGGER_UNKNOWN => {}
  }

  const ACK_CHAIN: seq<CmdState> := [QUEUED, CLAIMED, REVIVING, TRIGGERING, TURN_TRIGGERED]

  /** Position on the chain, -1 off it. */
  function ChainIndex(s: CmdState): (i: int)
    ensures -1 <= i < |ACK_CHAIN|
    ensures i >= 0 ==> ACK_CHAIN[i] == s
    ensures i == -1 ==> s !in ACK_CHAIN
  {
    match s
    case QUEUED => 0
    case CLAIMED => 1
    case REVIVING => 2
    case TRIGGERING => 3
    case TURN_TRIGGERED => 4
    case _ => -1
  }

  /** Every hop from s along the path is in the transition table. */
  predicate IsPath(s: CmdState, path: seq<CmdState>)
    decreases |path|
  {
    path == [] || (path[0] in Transitions(s) && IsPath(path[0], path[1..]))
  }

  /** Who may be skipped to whom, and through which states. */
  function Between(current: CmdState, target: CmdState): Option<seq<CmdState>> {
    var i, j := ChainIndex(current), ChainIndex(target);
    if 0 <= i < j then Some(ACK_CHAIN[i + 1..j]) else None
  }

  lemma SliceSnoc<T>(xs: seq<T>, i: nat, j: nat)
    requires i <= j < |xs|
    ensures xs[i..j] + [xs[j]] == xs[i..j + 1]
  {
  }

  /** Filling in skipped states is always a path of the transition table. */
  lemma BetweenIsPath(current: CmdState, target: CmdState)
    requires Between(current, target).Some?
    ensures IsPath(current, Between(current, target).value + [target])
  {
    var i, j := ChainIndex(current), ChainIndex(target);
    SliceSnoc(ACK_CHAIN, i + 1, j);
    ChainIsPath(i, j);
  }

  lemma SliceTail<T>(xs: seq<T>, i: nat, j: nat)
    requires i < j <= |xs|
    ensures xs[i..j][0] == xs[i] && xs[i..j][1..] == xs[i + 1..j]
  {
  }

  lemma {:induction false} ChainIsPath(i: nat, j: nat)
    requires i <= j < |ACK_CHAIN|
    ensures IsPath(ACK_CHAIN[i], ACK_CHAIN[i + 1..j + 1])
    decreases j - i
  {
    if i < j {
      SliceTail(ACK_CHAIN, i + 1, j + 1);
      ChainIsPath(i + 1, j);
    }
  }

  lemma ChainPosition(h: nat)
    requires h < |ACK_CHAIN|
    ensures ChainIndex(ACK_CHAIN[h]) == h
  {
    if h == 0 {
      assert ACK_CHAIN[0] == QUEUED;
    } else if h == 1 {
      assert ACK_CHAIN[1] == CLAIMED;
    } else if h == 2 {
      assert ACK_CHAIN[2] == REVIVING;
    } else if h == 3 {
      assert ACK_CHAIN[3] == TRIGGERING;
    } else {
      assert ACK_CHAIN[4] == TURN_TRIGGERED;
    }
  }

  lemma ChainOnce(h: nat, j: nat)
    requires h < |ACK_CHAIN| && j < |ACK_CHAIN|
    ensures ACK_CHAIN[h] == ACK_CHAIN[j] <==> h == j
  {
    ChainPosition(h);
    ChainPosition(j);
  }

  lemma ChainHop(h: nat)
    requires h + 1 < |ACK_CHAIN|
    ensures ACK_CHAIN[h + 1] in Transitions(ACK_CHAIN[h])
  {}

  /** _advance_ack_chain. */
  method AdvanceAckChain(current: CmdState, target: CmdState) returns (r: Option<seq<CmdState>>)
    ensures r == Between(current, target)
  {
    if current !in ACK_CHAIN || target !in ACK_CHAIN {
      return None;
    }
    var i, j := ChainIndex(current), ChainIndex(target);
    if j <= i {
      return None;
    }
    var intermediates: seq<CmdState> := [];
    var src := current;
    for h := i + 1 to j + 1
      invariant src == ACK_CHAIN[h - 1]
      invariant intermediates == ACK_CHAIN[i + 1..if h <= j then h else j]
    {
      ChainHop(h - 1);
      ChainOnce(h, j);
      var hop := ACK_CHAIN[h];
      if hop !in Transitions(src) {
        return None;
      }
      if hop != target {
        SliceSnoc(ACK_CHAIN, i + 1, h);
        intermediates := intermediates + [hop];
      }
      src := hop;
    }
    return Some(intermediates);
  }

  // ---- acknowledgements ----

  datatype Reply =
    | Updated(row: Row)
    | Malformed
    | NotFound
    | NotAuthorized
    | GenerationStale
    | Conflict

  /** A command acknowledgement; None stands for an empty or unknown value. */
  datatype Ack = Ack(request: Option<RequestId>, state: Option<CmdState>, runtime: Option<RuntimeId>,
                     turn: Option<TurnId>, generation: Option<int>)

  function OrElse<T>(a: Option<T>, b: Option<T>): Option<T> {
    if a.Some? then a else b
  }

  class CommandTable {
    var commands: Table

    constructor ()
      ensures commands == map[]
    {
      commands := map[];
    }

    /** enqueue_command: INSERT OR IGNORE on the request id. */
    method EnqueueCommand(request: RequestId, row: Row) returns (created: bool)
      modifies this
      ensures created == (request !in old(commands))
      ensures commands == if created then old(commands)[request := row] else old(commands)
    {
      if request in commands {
        return false;
      }
      commands := commands[request := row];
      return true;
    }

    /** update_command: None leaves a field as it is; a missing row stays missing. */
    method UpdateCommand(request: RequestId, state: Option<CmdState>, mail: Option<MailId>, turn: Option<TurnId>,
                         detail: Option<Detail>) returns (row: Option<Row>)
      modifies this
      ensures commands == UpdateRow(old(commands), request, state, mail, turn, detail)
      ensures row == if request in commands then Some(commands[request]) else None
    {
      if request !in commands {
        return None;
      }
      var r := commands[request];
      if state.Some? {
        r := r.(state := state.value);
      }
      if mail.Some? {
        r := r.(mail := mail);
      }
      if turn.Some? {
        r := r.(turn := turn);
      }
      if detail.Some? {
        r := r.(detail := detail.value);
      }
      commands := commands[request := r];
      return Some(r);
    }

    /** runtime_command_ack. */
    method CommandAck(ack: Ack) returns (reply: Reply)
      modifies this
      ensures (reply, commands) == AckEffect(old(commands), ack)
    {
      if ack.request.None? || ack.state.None? {
        return Malformed;
      }
      var request, state := ack.request.value, ack.state.value;
      if request !in commands {
        return NotFound;
      }
      var row := commands[request];
      if ack.runtime.Some? && ack.runtime.value != row.runtime {
        return NotAuthorized;
      }
      if ack.generation.Some? && ack.generation.value < row.generation {
        return GenerationStale;
      }
      var detail := Acked(state);
      if state !in Transitions(row.state) {
        var advanced := AdvanceAckChain(row.state, state);
        if advanced.None? {
          return Conflict;
        }
        detail := Advanced(state, row.state, advanced.value);
      }
      var updated := UpdateCommand(request, Some(state), None, OrElse(ack.turn, row.turn), Some(detail));
      return Updated(updated.value);
    }

    /** The command branch of runtime_event, which a TURN_TRIGGERED event takes. */
    method ConsumeEvent(turnTriggered: bool, key: Option<RequestId>, turn: Option<TurnId>)
      modifies this
      ensures commands == if turnTriggered then EventEffect(old(commands), key, turn) else old(commands)
    {
      if !turnTriggered || key.None? || key.value !in commands || commands[key.value].state == TURN_TRIGGERED {
        return;
      }
      var row := commands[key.value];
      var advanced := AdvanceAckChain(row.state, TURN_TRIGGERED);
      if advanced.None? {
        return;
      }
      var _ := UpdateCommand(key.value, Some(TURN_TRIGGERED), None, OrElse(turn, row.turn),
                             Some(Advanced(TURN_TRIGGERED, row.state, advanced.value)));
    }
  }

  function UpdateRow(t: Table, request: RequestId, state: Option<CmdState>, mail: Option<MailId>, turn: Option<TurnId>,
                     detail: Option<Detail>): Table
  {
    if request !in t then t
    else
      var r := t[request];
      t[request := r.(state := if state.Some? then state.value else r.state, mail := OrElse(mail, r.mail),
                      turn := OrElse(turn, r.turn), detail := if detail.Some? then detail.value else r.detail)]
  }

  /** How a command in state s answers the target state: the detail to record. */
  function Answer(s: CmdState, target: CmdState): Option<Detail> {
    if target in Transitions(s) then Some(Acked(target))
    else if Between(s, target).Some? then Some(Advanced(target, s, Between(s, target).value))
    else None
  }

  function AckEffect(t: Table, ack: Ack): (Reply, Table) {
    if ack.request.None? || ack.state.None? then (Malformed, t)
    else if ack.request.value !in t then (NotFound, t)
    else
      var row := t[ack.request.value];
      if ack.runtime.Some? && ack.runtime.value != row.runtime then (NotAuthorized, t)
      else if ack.generation.Some? && ack.generation.value < row.generation then (GenerationStale, t)
      else
        var a := Answer(row.state, ack.state.value);
        if a.None? then (Conflict, t)
        else
          var row' := row.(state := ack.state.value, turn := OrElse(ack.turn, row.turn), detail := a.value);
          (Updated(row'), t[ack.request.value := row'])
  }

  function EventEffect(t: Table, key: Option<RequestId>, turn: Option<TurnId>): Table {
    if key.None? || key.value !in t || Between(t[key.value].state, TURN_TRIGGERED).None? then t
    else
      var row := t[key.value];
      t[key.value := row.(state := TURN_TRIGGERED, turn := OrElse(turn, row.turn),
                          detail := Advanced(TURN_TRIGGERED, row.state, Between(row.state, TURN_TRIGGERED).value))]
  }

  function Effect(t: Table, ack: Ack): Table {
    AckEffect(t, ack).1
  }

  // ---- what any sequence of acknowledgements does ----

  /** States between the old and the new one, as recorded in the new row. */
  function Through(d: Detail): seq<CmdState> {
    if d.Advanced? then d.through else []
  }

  predicate SameIdentity(a: Row, b: Row) {
    a.command == b.command && a.hash == b.hash && a.runtime == b.runtime && a.generation == b.generation
  }

  /** How many more changes a command can accept. */
  function Rank(s: CmdState): nat {
    match s
    case QUEUED => 4
    case CLAIMED => 3
    case REVIVING => 2
    case TRIGGERING => 1
    case _ => 0
  }

  /** An accepted change: only state, turn and detail move, and the detail
      records the acknowledged state with the states skipped on the chain, or
      no skipped states for a direct transition. */
  predicate Advances(row: Row, row': Row) {
    && row' == row.(state := row'.state, turn := row'.turn, detail := row'.detail)
    && (|| (row'.state in Transitions(row.state) && row'.detail == Acked(row'.state))
        || (Between(row.state, row'.state).Some?
            && row'.detail == Advanced(row'.state, row.state, Between(row.state, row'.state).value)))
  }

  /** Whatever is accepted follows a path of the transition table through
      exactly the recorded states, and leaves fewer changes to come. */
  lemma AdvanceIsPath(row: Row, row': Row)
    requires Advances(row, row')
    ensures IsPath(row.state, Through(row'.detail) + [row'.state])
    ensures Rank(row'.state) < Rank(row.state)
    ensures SameIdentity(row, row') && row'.mail == row.mail
  {
    if row'.detail.Acked? {
      assert [] + [row'.state] == [row'.state];
    } else {
      BetweenIsPath(row.state, row'.state);
    }
  }

  /** One acknowledgement: rows are kept, and a row that changes advances. */
  lemma AckAdvances(t: Table, ack: Ack, r: RequestId)
    ensures var t' := Effect(t, ack);
      (r in t' <==> r in t) && (r in t ==> t'[r] == t[r] || Advances(t[r], t'[r]))
  {
  }

  /** What an acknowledgement does to a row depends on that row alone. */
  lemma AckIsLocal(t: Table, u: Table, ack: Ack, r: RequestId)
    requires r in t && r in u && t[r] == u[r]
    ensures r in Effect(t, ack) && r in Effect(u, ack) && Effect(t, ack)[r] == Effect(u, ack)[r]
  {
  }

  function After(t: Table, acks: seq<Ack>): Table
    decreases |acks|
  {
    if acks == [] then t else After(Effect(t, acks[0]), acks[1..])
  }

  lemma {:induction false} AfterIsLocal(t: Table, u: Table, acks: seq<Ack>, r: RequestId)
    requires r in t && r in u && t[r] == u[r]
    ensures r in After(t, acks) && r in After(u, acks) && After(t, acks)[r] == After(u, acks)[r]
    decreases |acks|
  {
    if acks != [] {
      AckIsLocal(t, u, acks[0], r);
      AfterIsLocal(Effect(t, acks[0]), Effect(u, acks[0]), acks[1..], r);
    }
  }

  /** Number of acknowledgements that changed row r. */
  function Changes(t: Table, acks: seq<Ack>, r: RequestId): nat
    decreases |acks|
  {
    if acks == [] then 0
    else
      var t' := Effect(t, acks[0]);
      (if r in t && r in t' && t[r] != t'[r] then 1 else 0) + Changes(t', acks[1..], r)
  }

  /** Over any sequence of acknowledgements, a command accepts at most as many
      changes as its state has ranks left, so at most four. */
  lemma {:induction false} AtMostFourChanges(t: Table, acks: seq<Ack>, r: RequestId)
    requires r in t
    ensures r in After(t, acks) && SameIdentity(t[r], After(t, acks)[r])
    ensures Changes(t, acks, r) <= Rank(t[r].state) - Rank(After(t, acks)[r].state) <= 4
    decreases |acks|
  {
    if acks != [] {
      AckAdvances(t, acks[0], r);
      if Effect(t, acks[0])[r] != t[r] {
        AdvanceIsPath(t[r], Effect(t, acks[0])[r]);
      }
      AtMostFourChanges(Effect(t, acks[0]), acks[1..], r);
    }
  }

  /** A terminal state is never left, over any sequence of acknowledgements. */
  lemma {:induction false} TerminalNeverLeft(t: Table, acks: seq<Ack>, r: RequestId)
    requires r in t && Transitions(t[r].state) == {}
    ensures r in After(t, acks) && After(t, acks)[r] == t[r]
    decreases |acks|
  {
    if acks != [] {
      AckAdvances(t, acks[0], r);
      if Effect(t, acks[0])[r] != t[r] {
        AdvanceIsPath(t[r], Effect(t, acks[0])[r]);
      }
      TerminalNeverLeft(Effect(t, acks[0]), acks[1..], r);
    }
  }

  /** A TURN_TRIGGERED acknowledgement is accepted exactly when its command
      exists, neither its runtime nor its generation speaks against it, and the
      command is in an earlier state of the chain. */
  lemma TurnTriggeredReachable(t: Table, ack: Ack)
    requires ack.state == Some(TURN_TRIGGERED)
    ensures AckEffect(t, ack).0.Updated? <==>
      && ack.request.Some? && ack.request.value in t
      && var row := t[ack.request.value];
      && (ack.runtime.None? || ack.runtime.value == row.runtime)
      && (ack.generation.None? || ack.generation.value >= row.generation)
      && exists h: nat :: h < |ACK_CHAIN| - 1 && row.state == ACK_CHAIN[h]
    ensures AckEffect(t, ack).0.Updated? ==> Effect(t, ack)[ack.request.value].state == TURN_TRIGGERED
    ensures !AckEffect(t, ack).0.Updated? ==> Effect(t, ack) == t
  {
    if ack.request.Some? && ack.request.value in t {
      var s := t[ack.request.value].state;
      var i := ChainIndex(s);
      if 0 <= i < |ACK_CHAIN| - 1 {
        assert s == ACK_CHAIN[i];
      }
      forall h: nat | h < |ACK_CHAIN| - 1 && s == ACK_CHAIN[h] ensures ChainIndex(s) == h {
        ChainPosition(h);
      }
    }
  }

  // ---- which acknowledgements a state accepts, and what they record ----

  /** A state accepts: any later state of the chain; until triggering begins, a
      safe failure; until the end, an ambiguous one; and an unknown trigger only
      while triggering. An ended command accepts nothing. */
  predicate Welcome(s: CmdState, target: CmdState) {
    match target
    case QUEUED => false
    case CLAIMED => s.QUEUED?
    case REVIVING => s.QUEUED? || s.CLAIMED?
    case TRIGGERING => s.QUEUED? || s.CLAIMED? || s.REVIVING?
    case TURN_TRIGGERED => s.QUEUED? || s.CLAIMED? || s.REVIVING? || s.TRIGGERING?
    case FAILED_SAFE => s.QUEUED? || s.CLAIMED? || s.REVIVING?
    case AMBIGUOUS => s.QUEUED? || s.CLAIMED? || s.REVIVING? || s.TRIGGERING?
    case TRIGGER_UNKNOWN => s.TRIGGERING?
  }

  lemma AcceptedWhen(s: CmdState, target: CmdState)
    ensures Answer(s, target).Some? <==> Welcome(s, target)
  {
    match s {
      case QUEUED =>
      case CLAIMED =>
      case REVIVING =>
      case TRIGGERING =>
      case _ =>
    }
  }

  /** The acknowledgement speaks for this row. */
  predicate SpeaksFor(ack: Ack, row: Row) {
    && (ack.runtime.Some? ==> ack.runtime.value == row.runtime)
    && (ack.generation.Some? ==> ack.generation.value >= row.generation)
  }

  /** An acknowledgement that is incomplete or names no known command is
      answered so, and no answer but an acceptance changes anything. */
  lemma UnknownAnswers(t: Table, ack: Ack)
    ensures AckEffect(t, ack).0 == Malformed <==> ack.request.None? || ack.state.None?
    ensures AckEffect(t, ack).0 == NotFound <==> ack.request.Some? && ack.state.Some? && ack.request.value !in t
    ensures !AckEffect(t, ack).0.Updated? ==> Effect(t, ack) == t
  {
  }

  /** An acknowledgement of a known command is refused for its runtime, then for
      its generation, then for its state, and else accepted. */
  lemma KnownRowAnswers(t: Table, ack: Ack)
    requires ack.request.Some? && ack.state.Some? && ack.request.value in t
    ensures var row := t[ack.request.value];
      var reply := AckEffect(t, ack).0;
      && (ack.runtime.Some? && ack.runtime.value != row.runtime ==> reply == NotAuthorized)
      && (!(ack.runtime.Some? && ack.runtime.value != row.runtime) && !SpeaksFor(ack, row) ==> reply == GenerationStale)
      && (SpeaksFor(ack, row) ==> if Answer(row.state, ack.state.value).Some? then reply.Updated? else reply == Conflict)
  {
  }

  /** What an accepted acknowledgement records: its state, the turn it names or
      else the one known, and nothing of the rest of the row but the detail; no
      other row changes. */
  lemma AckRecords(t: Table, ack: Ack)
    requires AckEffect(t, ack).0.Updated?
    ensures var r, t' := ack.request.value, Effect(t, ack);
      && r in t && r in t' && AckEffect(t, ack).0.row == t'[r]
      && t'[r].state == ack.state.value
      && t'[r].turn == (if ack.turn.Some? then ack.turn else t[r].turn)
      && t'[r].mail == t[r].mail && SameIdentity(t[r], t'[r])
      && forall q :: q != r ==> (q in t' <==> q in t) && (q in t ==> t'[q] == t[q])
  {
  }

  /** update_command sets the fields it is given and keeps the others. */
  lemma UpdateSetsGiven(t: Table, r: RequestId, state: Option<CmdState>, mail: Option<MailId>, turn: Option<TurnId>, detail: Option<Detail>)
    ensures var t' := UpdateRow(t, r, state, mail, turn, detail);
      && t'.Keys == t.Keys && (forall q :: q in t && q != r ==> t'[q] == t[q])
      && (r in t ==>
            && t'[r].state == (if state.Some? then state.value else t[r].state)
            && t'[r].mail == (if mail.Some? then mail else t[r].mail)
            && t'[r].turn == (if turn.Some? then turn else t[r].turn)
            && t'[r].detail == (if detail.Some? then detail.value else t[r].detail)
            && SameIdentity(t[r], t'[r]))
  {
  }

  lemma InSlice(i: nat, j: nat, x: CmdState)
    requires i <= j <= |ACK_CHAIN|
    ensures x in ACK_CHAIN[i..j] <==> i <= ChainIndex(x) < j
  {
    if k :| i <= k < j && ACK_CHAIN[k] == x {
      ChainPosition(k);
      assert ACK_CHAIN[i..j][k - i] == x;
    }
    if i <= ChainIndex(x) < j {
      assert ACK_CHAIN[ChainIndex(x)] == x;
    }
  }

  /** On the chain, a state welcomes exactly the later ones. */
  lemma ChainOrder(s: CmdState, x: CmdState)
    requires ChainIndex(s) >= 0 && ChainIndex(x) >= 0
    ensures Welcome(s, x) <==> ChainIndex(s) < ChainIndex(x)
  {
  }

  /** The states recorded as skipped are all those of the chain in between. */
  lemma SkippedAreAllBetween(s: CmdState, target: CmdState, x: CmdState)
    requires Between(s, target).Some?
    ensures x in Between(s, target).value <==>
      (x.CLAIMED? || x.REVIVING? || x.TRIGGERING?) && Welcome(s, x) && Welcome(x, target)
  {
    InSlice(ChainIndex(s) + 1, ChainIndex(target), x);
    if ChainIndex(x) >= 0 {
      ChainOrder(s, x);
      ChainOrder(x, target);
    }
  }
}
