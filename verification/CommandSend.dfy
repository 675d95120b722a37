/** Concurrent runtime_send calls: every interleaving of any number of them
    with each other, with acknowledgements and with crashes. */
module CommandSend {
  import opened Basics
  import opened Commands

  type Tid = nat

  datatype Call = Call(request: RequestId, hash: Hash, runtime: RuntimeId, generation: int, pluginBackend: bool)

  datatype Answer = Names(command: CommandId) | IdempotencyConflict | Unsupported

  /** A reply that was given to a call, and whether the command row was there
      when the call began. */
  datatype Reply = Reply(call: Call, answer: Answer, existed: bool)

  /** What a call does once a row write of its own is done. */
  datatype Then = Refuse | Gate | Revive | Answer

  /** Where a call stands: before the insert, after it as winner or loser,
      about to write its row, at the hot gate, waiting for a revival, or about
      to reply. */
  datatype Pc =
    | Idle
    | Checked(call: Call)
    | Won(call: Call)
    | Lost(call: Call)
    | Writing(call: Call, state: CmdState, mail: Option<MailId>, after: Then)
    | Gating(call: Call)
    | RevivePending(call: Call)
    | Replying(call: Call)

  /** A mailbox message that carries a command id (the request id). */
  datatype Mail = Mail(id: MailId, command: RequestId)

  /** `began` remembers, for each call under way, whether its row existed. */
  datatype State = State(rows: Table, mailbox: seq<Mail>, threads: map<Tid, Pc>, began: map<Tid, bool>, replies: seq<Reply>)

  datatype Gated = NotHot | Ended | Hot

  datatype Revived = Kept | Cold | Failed

  /** What a step gets from outside: a fresh command id, the mailbox id if the
      write succeeds, what the gate and the revival find, an acknowledgement. */
  datatype Step =
    | Begin(t: Tid, call: Call)
    | Insert(t: Tid, id: CommandId)
    | WriteMail(t: Tid, sent: Option<MailId>)
    | PassGate(t: Tid, gated: Gated)
    | EndRevive(t: Tid, revived: Revived)
    | Go(t: Tid)
    | Acknowledge(ack: Ack)
    | Crash(t: Tid)

  function PcOf(s: State, t: Tid): Pc {
    if t in s.threads then s.threads[t] else Idle
  }

  function Existed(s: State, t: Tid): bool {
    t in s.began && s.began[t]
  }

  function At(s: State, t: Tid, pc: Pc): State {
    s.(threads := s.threads[t := pc])
  }

  function Finish(s: State, t: Tid, call: Call, answer: Answer): State {
    At(s, t, Idle).(replies := s.replies + [Reply(call, answer, Existed(s, t))])
  }

  predicate Enabled(s: State, st: Step) {
    match st
    case Begin(t, _) => PcOf(s, t).Idle?
    case Insert(t, _) => PcOf(s, t).Checked?
    case WriteMail(t, _) => PcOf(s, t).Won? && PcOf(s, t).call.pluginBackend
    case PassGate(t, _) => PcOf(s, t).Gating?
    case EndRevive(t, _) => PcOf(s, t).RevivePending?
    case Go(t) =>
      var pc := PcOf(s, t);
      pc.Lost? || pc.Writing? || pc.Replying? || (pc.Won? && !pc.call.pluginBackend)
    case Acknowledge(_) => true
    case Crash(_) => true
  }

  function NewRow(call: Call, id: CommandId): Row {
    Row(id, None, None, call.runtime, call.generation, call.hash, QUEUED, NoDetail)
  }

  /** _command_result: the reply names the command of the row. */
  function Named(s: State, call: Call): Answer {
    if call.request in s.rows then Names(s.rows[call.request].command) else Unsupported
  }

  function Begun(s: State, t: Tid, call: Call): State {
    var s1 := s.(began := s.began[t := call.request in s.rows]);
    if call.request !in s.rows then At(s1, t, Checked(call))
    else if s.rows[call.request].hash != call.hash then Finish(s1, t, call, IdempotencyConflict)
    else Finish(s1, t, call, Named(s, call))
  }

  /** A write of the call's own to its row, and what comes next. */
  function Wrote(s: State, t: Tid, pc: Pc): State
    requires pc.Writing?
  {
    var s1 := s.(rows := UpdateRow(s.rows, pc.call.request, Some(pc.state), pc.mail, None, Some(OtherDetail)));
    match pc.after
    case Refuse => Finish(s1, t, pc.call, Unsupported)
    case Gate => At(s1, t, Gating(pc.call))
    case Revive => At(s1, t, RevivePending(pc.call))
    case Answer => At(s1, t, Replying(pc.call))
  }

  function Apply(s: State, st: Step): State
    requires Enabled(s, st)
  {
    match st
    case Begin(t, call) => Begun(s, t, call)
    case Insert(t, id) =>
      var call := PcOf(s, t).call;
      if call.request in s.rows then At(s, t, Lost(call))
      else At(s, t, Won(call)).(rows := s.rows[call.request := NewRow(call, id)])
    case WriteMail(t, sent) =>
      var call := PcOf(s, t).call;
      if sent.None? then At(s, t, Writing(call, FAILED_SAFE, None, Then.Answer))
      else At(s, t, Writing(call, QUEUED, sent, Gate)).(mailbox := s.mailbox + [Mail(sent.value, call.request)])
    case PassGate(t, gated) =>
      var call := PcOf(s, t).call;
      (match gated
       case NotHot => At(s, t, Writing(call, QUEUED, None, Then.Answer))
       case Ended => At(s, t, Writing(call, REVIVING, None, Revive))
       case Hot => At(s, t, Replying(call)))
    case EndRevive(t, revived) =>
      var state := match revived case Kept => REVIVING case Cold => QUEUED case Failed => FAILED_SAFE;
      At(s, t, Writing(PcOf(s, t).call, state, None, Then.Answer))
    case Go(t) =>
      (match PcOf(s, t)
       case Won(call) => At(s, t, Writing(call, FAILED_SAFE, None, Refuse))
       case Writing(_, _, _, _) => Wrote(s, t, PcOf(s, t))
       case Lost(call) => Finish(s, t, call, Named(s, call))
       case Replying(call) => Finish(s, t, call, Named(s, call))
       case _ => s)
    case Acknowledge(ack) => s.(rows := Effect(s.rows, ack))
    case Crash(t) => At(s, t, Idle)
  }

  ghost predicate Legal(s: State, run: seq<Step>)
    decreases |run|
  {
    run == [] || (Enabled(s, run[0]) && Legal(Apply(s, run[0]), run[1..]))
  }

  ghost function Exec(s: State, run: seq<Step>): State
    requires Legal(s, run)
    decreases |run|
  {
    if run == [] then s else Exec(Apply(s, run[0]), run[1..])
  }

  // ---- the invariant ----

  function MailsFor(box: seq<Mail>, r: RequestId): nat {
    if box == [] then 0 else MailsFor(box[..|box| - 1], r) + (if box[|box| - 1].command == r then 1 else 0)
  }

  /** The call inserted its row. */
  predicate Owns(pc: Pc) {
    pc.Won? || pc.Writing? || pc.Gating? || pc.RevivePending? || pc.Replying?
  }

  /** The states runtime_send writes itself. */
  const WRITTEN: set<CmdState> := {QUEUED, REVIVING, FAILED_SAFE}

  /** How many writes to its row a call may still make. */
  function WritesLeft(pc: Pc): nat {
    match pc
    case Won(call) => if call.pluginBackend then 3 else 1
    case Writing(_, _, _, after) => (match after case Gate => 3 case Revive => 2 case _ => 1)
    case Gating(_) => 2
    case RevivePending(_) => 1
    case _ => 0
  }

  predicate Writer(pc: Pc, r: RequestId) {
    WritesLeft(pc) > 0 && pc.call.request == r
  }

  predicate PcGood(s: State, pc: Pc, existed: bool) {
    && (pc.Won? ==> MailsFor(s.mailbox, pc.call.request) == 0)
    && (Owns(pc) || pc.Lost? ==> pc.call.request in s.rows)
    && (Owns(pc) ==> s.rows[pc.call.request].hash == pc.call.hash)
    && (pc.Writing? ==> pc.state in WRITTEN)
    && (!pc.Idle? ==> !existed)
  }

  predicate ReplyGood(s: State, p: Reply) {
    && p.call.request in s.rows
    && var row := s.rows[p.call.request];
    && (p.answer.Names? ==> row.command == p.answer.command)
    && (p.answer == IdempotencyConflict <==> p.existed && row.hash != p.call.hash)
    && (!p.existed && row.hash != p.call.hash ==> p.answer.Names?)
  }

  ghost predicate OneWriter(s: State) {
    forall t, u :: t != u && Owns(PcOf(s, t)) && Owns(PcOf(s, u)) ==> PcOf(s, t).call.request != PcOf(s, u).call.request
  }

  ghost predicate Good(s: State) {
    && (forall p :: p in s.replies ==> ReplyGood(s, p))
    && (forall t :: PcGood(s, PcOf(s, t), Existed(s, t)))
    && OneWriter(s)
    && (forall r :: MailsFor(s.mailbox, r) <= 1 && (MailsFor(s.mailbox, r) == 1 ==> r in s.rows))
  }

  /** No step removes a row or changes what identifies it. */
  lemma StepKeepsRows(s: State, st: Step)
    requires Enabled(s, st)
    ensures forall r :: r in s.rows ==> r in Apply(s, st).rows && SameIdentity(s.rows[r], Apply(s, st).rows[r])
  {
    if st.Acknowledge? {
      forall r | r in s.rows
        ensures r in Apply(s, st).rows && SameIdentity(s.rows[r], Apply(s, st).rows[r])
      {
        AckAdvances(s.rows, st.ack, r);
      }
    }
  }

  lemma StepMailbox(s: State, st: Step)
    requires Enabled(s, st)
    ensures Apply(s, st).mailbox == s.mailbox
      || (st.WriteMail? && st.sent.Some? && Apply(s, st).mailbox == s.mailbox + [Mail(st.sent.value, PcOf(s, st.t).call.request)])
  {
  }

  lemma MailsGrow(box: seq<Mail>, m: Mail, r: RequestId)
    ensures MailsFor(box + [m], r) == MailsFor(box, r) + (if m.command == r then 1 else 0)
  {
    assert (box + [m])[..|box|] == box;
  }

  /** A step moves at most one call; a call comes to own its row only by
      inserting it. */
  lemma StepThreads(s: State, st: Step, t: Tid)
    requires Enabled(s, st)
    ensures var pc, pc' := PcOf(s, t), PcOf(Apply(s, st), t);
      || pc' == pc || pc'.Idle?
      || (st.Begin? && st.t == t && pc' == Checked(st.call) && st.call.request !in s.rows)
      || (st.Insert? && st.t == t && pc' == Won(pc.call) && pc.call.request !in s.rows)
      || (st.Insert? && st.t == t && pc' == Lost(pc.call) && pc.call.request in s.rows)
      || (Owns(pc) && Owns(pc') && !pc'.Won? && pc'.call == pc.call)
    ensures var pc := PcOf(Apply(s, st), t);
      !pc.Idle? && !(st.Begin? && st.t == t) ==> Existed(Apply(s, st), t) == Existed(s, t)
  {
    match st
    case PassGate(_, gated) => match gated { case _ => }
    case Go(u) => match PcOf(s, u) {
      case Writing(_, _, _, after) => match after { case _ => }
      case _ =>
    }
    case _ =>
  }

  lemma StepWrites(s: State, st: Step, t: Tid)
    requires Enabled(s, st) && (PcOf(s, t).Writing? ==> PcOf(s, t).state in WRITTEN)
    ensures PcOf(Apply(s, st), t).Writing? ==> PcOf(Apply(s, st), t).state in WRITTEN
  {
    match st
    case PassGate(_, gated) => match gated { case _ => }
    case EndRevive(_, revived) => match revived { case _ => }
    case _ =>
  }

  lemma StepReplies(s: State, st: Step, p: Reply)
    requires Good(s) && Enabled(s, st) && p in Apply(s, st).replies
    ensures ReplyGood(Apply(s, st), p)
  {
    var s' := Apply(s, st);
    StepKeepsRows(s, st);
    if p in s.replies {
      assert ReplyGood(s, p);
    } else if st.Begin? || st.Go? {
      assert PcGood(s, PcOf(s, st.t), Existed(s, st.t));
    }
  }

  lemma StepPc(s: State, st: Step, t: Tid)
    requires Good(s) && Enabled(s, st)
    ensures PcGood(Apply(s, st), PcOf(Apply(s, st), t), Existed(Apply(s, st), t))
  {
    var s' := Apply(s, st);
    StepKeepsRows(s, st);
    StepMailbox(s, st);
    StepThreads(s, st, t);
    assert PcGood(s, PcOf(s, t), Existed(s, t));
    StepWrites(s, st, t);
    if PcOf(s', t).Won? {
      var r := PcOf(s', t).call.request;
      assert MailsFor(s.mailbox, r) <= 1 && (MailsFor(s.mailbox, r) == 1 ==> r in s.rows);
      if s'.mailbox != s.mailbox {
        assert Owns(PcOf(s, st.t)) && st.t != t;
        MailsGrow(s.mailbox, Mail(st.sent.value, PcOf(s, st.t).call.request), r);
      }
    }
  }

  lemma StepOneWriter(s: State, st: Step, t: Tid, u: Tid)
    requires Good(s) && Enabled(s, st) && t != u
    requires Owns(PcOf(Apply(s, st), t)) && Owns(PcOf(Apply(s, st), u))
    ensures PcOf(Apply(s, st), t).call.request != PcOf(Apply(s, st), u).call.request
  {
    StepThreads(s, st, t);
    StepThreads(s, st, u);
    assert PcGood(s, PcOf(s, t), Existed(s, t)) && PcGood(s, PcOf(s, u), Existed(s, u));
  }

  lemma StepMails(s: State, st: Step, r: RequestId)
    requires Good(s) && Enabled(s, st)
    ensures var s' := Apply(s, st);
      MailsFor(s'.mailbox, r) <= 1 && (MailsFor(s'.mailbox, r) == 1 ==> r in s'.rows)
  {
    StepKeepsRows(s, st);
    StepMailbox(s, st);
    assert MailsFor(s.mailbox, r) <= 1 && (MailsFor(s.mailbox, r) == 1 ==> r in s.rows);
    if Apply(s, st).mailbox != s.mailbox {
      assert PcGood(s, PcOf(s, st.t), Existed(s, st.t));
      MailsGrow(s.mailbox, Mail(st.sent.value, PcOf(s, st.t).call.request), r);
    }
  }

  lemma StepGood(s: State, st: Step)
    requires Good(s) && Enabled(s, st)
    ensures Good(Apply(s, st))
  {
    var s' := Apply(s, st);
    forall r
      ensures MailsFor(s'.mailbox, r) <= 1 && (MailsFor(s'.mailbox, r) == 1 ==> r in s'.rows)
    {
      StepMails(s, st, r);
    }
    forall p | p in s'.replies ensures ReplyGood(s', p) {
      StepReplies(s, st, p);
    }
    forall t ensures PcGood(s', PcOf(s', t), Existed(s', t)) {
      StepPc(s, st, t);
    }
    forall t, u | t != u && Owns(PcOf(s', t)) && Owns(PcOf(s', u))
      ensures PcOf(s', t).call.request != PcOf(s', u).call.request
    {
      StepOneWriter(s, st, t, u);
    }
  }

  lemma {:induction false} RunGood(s: State, run: seq<Step>)
    requires Good(s) && Legal(s, run)
    ensures Good(Exec(s, run))
    ensures forall r :: r in s.rows ==> r in Exec(s, run).rows && SameIdentity(s.rows[r], Exec(s, run).rows[r])
    decreases |run|
  {
    if run != [] {
      StepGood(s, run[0]);
      StepKeepsRows(s, run[0]);
      RunGood(Apply(s, run[0]), run[1..]);
    }
  }

  // ---- what every run guarantees ----

  predicate SameRequestNamed(p: Reply, q: Reply) {
    p.answer.Names? && q.answer.Names? && p.call.request == q.call.request
  }

  ghost predicate Quiet(s: State) {
    s.mailbox == [] && s.threads == map[] && s.replies == []
  }

  /** Over every run from a state with no mail and no call under way (any rows
      may exist already):
      - each request causes at most one mailbox write;
      - a mailbox message that carries a command id has its command row;
      - rows stay, with the same command, hash, runtime and generation;
      - every reply that names a command names the one in the row, so all
        replies for one request name the same command. */
  lemma SendOnce(s: State, run: seq<Step>)
    requires Quiet(s) && Legal(s, run)
    ensures var s' := Exec(s, run);
      && (forall r :: MailsFor(s'.mailbox, r) <= 1)
      && (forall m :: m in s'.mailbox ==> m.command in s'.rows)
      && (forall r :: r in s.rows ==> r in s'.rows && SameIdentity(s.rows[r], s'.rows[r]))
      && (forall p, q :: p in s'.replies && q in s'.replies && SameRequestNamed(p, q) ==> p.answer == q.answer)
  {
    assert Good(s);
    RunGood(s, run);
    var s' := Exec(s, run);
    forall m | m in s'.mailbox
      ensures m.command in s'.rows
    {
      MailCounts(s'.mailbox, m);
    }
    assert forall p :: p in s'.replies ==> ReplyGood(s', p);
  }

  lemma {:induction false} MailCounts(box: seq<Mail>, m: Mail)
    requires m in box
    ensures MailsFor(box, m.command) >= 1
    decreases |box|
  {
    if box[|box| - 1] != m {
      assert m in box[..|box| - 1];
      MailCounts(box[..|box| - 1], m);
    }
  }

  /** Once a row exists, then after any further run a call with another payload
      is refused at once, and one with the same payload is answered with the
      row's command; neither touches the table or the mailbox. */
  lemma LaterCallsReplayOrConflict(s: State, run: seq<Step>, t: Tid, call: Call)
    requires Good(s) && Legal(s, run) && call.request in s.rows
    requires Enabled(Exec(s, run), Begin(t, call))
    ensures var s' := Exec(s, run);
      var s'' := Apply(s', Begin(t, call));
      && s''.rows == s'.rows && s''.mailbox == s'.mailbox
      && s''.replies == s'.replies + [Reply(call, if s.rows[call.request].hash == call.hash
                                                   then Names(s.rows[call.request].command) else IdempotencyConflict, true)]
  {
    RunGood(s, run);
  }

  /** When a payload conflict is noticed: over every run, a call is refused for
      its payload exactly when the row existed as it began and holds another
      payload's hash. A call that began before the row and lost the insert is
      answered with the winner's command, whatever its payload. */
  lemma RaceLoserUnchecked(s: State, run: seq<Step>, p: Reply)
    requires Quiet(s) && Legal(s, run) && p in Exec(s, run).replies
    ensures var rows := Exec(s, run).rows;
      && p.call.request in rows
      && var row := rows[p.call.request];
      && (p.answer == IdempotencyConflict <==> p.existed && row.hash != p.call.hash)
      && (!p.existed && row.hash != p.call.hash ==> p.answer == Names(row.command))
  {
    assert Good(s);
    RunGood(s, run);
    assert ReplyGood(Exec(s, run), p);
  }

  lemma Prepend(s: State, st: Step, run: seq<Step>)
    requires Enabled(s, st) && Legal(Apply(s, st), run)
    ensures Legal(s, [st] + run) && Exec(s, [st] + run) == Exec(Apply(s, st), run)
  {
    assert ([st] + run)[1..] == run;
  }

  lemma Two(s: State, a: Step, b: Step)
    requires Enabled(s, a) && Enabled(Apply(s, a), b)
    ensures Legal(s, [a, b]) && Exec(s, [a, b]) == Apply(Apply(s, a), b)
  {
    assert [a, b] == [a] + ([b] + []);
    Prepend(Apply(s, a), b, []);
    Prepend(s, a, [b] + []);
  }

  /** Such losers exist: any two calls for a request without a row can race. */
  lemma LoserExists(s: State, t: Tid, u: Tid, first: Call, second: Call, id: CommandId, id2: CommandId)
    returns (run: seq<Step>)
    requires t != u && PcOf(s, t).Idle? && PcOf(s, u).Idle?
    requires first.request == second.request && first.request !in s.rows
    ensures Legal(s, run)
    ensures Exec(s, run).replies == s.replies + [Reply(second, Names(id), false)]
    ensures first.request in Exec(s, run).rows && Exec(s, run).rows[first.request].hash == first.hash
  {
    var s2 := Apply(Apply(s, Begin(t, first)), Begin(u, second));
    var s4 := Apply(Apply(s2, Insert(t, id)), Insert(u, id2));
    Two(s2, Insert(t, id), Insert(u, id2));
    Prepend(s4, Go(u), []);
    Prepend(Apply(s2, Insert(t, id)), Insert(u, id2), [Go(u)] + []);
    Prepend(s2, Insert(t, id), [Insert(u, id2)] + ([Go(u)] + []));
    run := [Insert(t, id)] + ([Insert(u, id2)] + ([Go(u)] + []));
    Prepend(Apply(s, Begin(t, first)), Begin(u, second), run);
    Prepend(s, Begin(t, first), [Begin(u, second)] + run);
    run := [Begin(t, first)] + ([Begin(u, second)] + run);
  }

  // ==== Acknowledgements among the writes of runtime_send ====

  /** Only an acknowledgement, or a call about to write, changes a row. */
  lemma WhoChangesARow(s: State, st: Step, r: RequestId)
    requires Enabled(s, st) && r in s.rows && Apply(s, st).rows[r] != s.rows[r]
    ensures st.Acknowledge? || (st.Go? && PcOf(s, st.t).Writing? && PcOf(s, st.t).call.request == r)
  {
  }

  /** ... and such a call does change every row that is not already in the
      state it writes, whatever acknowledgements put there. */
  lemma WriteOverwrites(s: State, t: Tid, r: RequestId)
    requires Good(s) && Enabled(s, Go(t)) && r in s.rows && s.rows[r].state !in WRITTEN
    ensures Apply(s, Go(t)).rows[r] != s.rows[r] <==> PcOf(s, t).Writing? && PcOf(s, t).call.request == r
    ensures PcOf(s, t).Writing? && PcOf(s, t).call.request == r ==> Apply(s, Go(t)).rows[r].state == PcOf(s, t).state
  {
    assert PcGood(s, PcOf(s, t), Existed(s, t));
  }

  /** No call will write row r any more. */
  ghost predicate NoWriter(s: State, r: RequestId) {
    forall t :: !Writer(PcOf(s, t), r)
  }

  lemma NoWriterStays(s: State, st: Step, r: RequestId)
    requires Enabled(s, st) && r in s.rows && NoWriter(s, r)
    ensures NoWriter(Apply(s, st), r)
  {
    forall t ensures !Writer(PcOf(Apply(s, st), t), r) {
      assert !Writer(PcOf(s, t), r);
      StepThreads(s, st, t);
    }
  }

  lemma NoWriterKeepsRow(s: State, st: Step, r: RequestId)
    requires Enabled(s, st) && r in s.rows && NoWriter(s, r) && !st.Acknowledge?
    ensures r in Apply(s, st).rows && Apply(s, st).rows[r] == s.rows[r]
  {
    StepKeepsRows(s, st);
    if Apply(s, st).rows[r] != s.rows[r] {
      WhoChangesARow(s, st, r);
      assert Writer(PcOf(s, st.t), r);
    }
  }

  function Acks(run: seq<Step>): seq<Ack> {
    if run == [] then [] else (if run[0].Acknowledge? then [run[0].ack] else []) + Acks(run[1..])
  }

  /** Once no call will write row r, then in every interleaving the row is what
      the acknowledgements alone make of it. */
  lemma {:induction false} AcksAloneDecide(s: State, run: seq<Step>, r: RequestId)
    requires Legal(s, run) && r in s.rows && NoWriter(s, r)
    ensures r in Exec(s, run).rows && r in After(s.rows, Acks(run))
    ensures Exec(s, run).rows[r] == After(s.rows, Acks(run))[r]
    decreases |run|
  {
    if run != [] {
      var s1, rest := Apply(s, run[0]), Acks(run[1..]);
      StepKeepsRows(s, run[0]);
      NoWriterStays(s, run[0], r);
      AcksAloneDecide(s1, run[1..], r);
      if run[0].Acknowledge? {
        assert Acks(run) == [run[0].ack] + rest && ([run[0].ack] + rest)[1..] == rest;
      } else {
        assert Acks(run) == [] + rest == rest;
        NoWriterKeepsRow(s, run[0], r);
        AfterIsLocal(s.rows, s1.rows, rest, r);
      }
    }
  }

  /** Steps of the run that change row r. */
  ghost function RowChanges(s: State, run: seq<Step>, r: RequestId): nat
    requires Legal(s, run)
    decreases |run|
  {
    if run == [] then 0
    else
      var s1 := Apply(s, run[0]);
      (if r in s.rows && r in s1.rows && s1.rows[r] != s.rows[r] then 1 else 0) + RowChanges(s1, run[1..], r)
  }

  /** Calls may still write row r at most n times. */
  ghost predicate AtMostWrites(s: State, r: RequestId, n: nat) {
    forall t :: Writer(PcOf(s, t), r) ==> WritesLeft(PcOf(s, t)) <= n
  }

  lemma WritesRunOut(s: State, st: Step, r: RequestId, n: nat)
    requires Good(s) && Enabled(s, st) && r in s.rows && AtMostWrites(s, r, n)
    ensures AtMostWrites(Apply(s, st), r, n)
    ensures st.Go? && PcOf(s, st.t).Writing? && PcOf(s, st.t).call.request == r ==> n > 0 && AtMostWrites(Apply(s, st), r, n - 1)
  {
    var s' := Apply(s, st);
    forall t | Writer(PcOf(s', t), r)
      ensures Writer(PcOf(s, t), r) && WritesLeft(PcOf(s', t)) <= WritesLeft(PcOf(s, t)) <= n
      ensures st.Go? && st.t == t && PcOf(s, t).Writing? ==> WritesLeft(PcOf(s', t)) < WritesLeft(PcOf(s, t))
    {
      StepThreads(s, st, t);
      WriterGoesOn(s, st, t);
    }
    if st.Go? && PcOf(s, st.t).Writing? && PcOf(s, st.t).call.request == r {
      assert Writer(PcOf(s, st.t), r);
      forall t | Writer(PcOf(s', t), r) ensures t == st.t {
        assert Owns(PcOf(s, t)) && Owns(PcOf(s, st.t));
      }
    }
  }

  lemma WriterGoesOn(s: State, st: Step, t: Tid)
    requires Enabled(s, st) && Owns(PcOf(s, t)) && Owns(PcOf(Apply(s, st), t))
    ensures WritesLeft(PcOf(Apply(s, st), t)) <= WritesLeft(PcOf(s, t))
    ensures st.Go? && st.t == t && PcOf(s, t).Writing? ==> WritesLeft(PcOf(Apply(s, st), t)) < WritesLeft(PcOf(s, t))
  {
    match st
    case Go(u) => match PcOf(s, u) {
      case Writing(_, _, _, after) => match after { case _ => }
      case _ =>
    }
    case _ =>
  }

  /** In every interleaving: a row changes at most five times for each write
      its call may still make, plus the ranks its state has left. Once the call
      is done writing that is at most four, and never when the row is terminal. */
  lemma {:induction false} RowChangesBounded(s: State, run: seq<Step>, r: RequestId, n: nat)
    requires Good(s) && Legal(s, run) && r in s.rows && AtMostWrites(s, r, n)
    ensures RowChanges(s, run, r) <= 5 * n + Rank(s.rows[r].state)
    ensures n == 0 ==> r in Exec(s, run).rows && RowChanges(s, run, r) <= Rank(s.rows[r].state) - Rank(Exec(s, run).rows[r].state)
    decreases |run|
  {
    if run != [] {
      var st := run[0];
      var s1 := Apply(s, st);
      StepGood(s, st);
      StepKeepsRows(s, st);
      WritesRunOut(s, st, r, n);
      if s1.rows[r] == s.rows[r] {
        RowChangesBounded(s1, run[1..], r, n);
      } else {
        WhoChangesARow(s, st, r);
        if st.Acknowledge? {
          AckAdvances(s.rows, st.ack, r);
          AdvanceIsPath(s.rows[r], s1.rows[r]);
          RowChangesBounded(s1, run[1..], r, n);
        } else {
          RowChangesBounded(s1, run[1..], r, n - 1);
        }
      }
    }
  }

  lemma EndIsTheEnd(s: State, run: seq<Step>, r: RequestId)
    requires r in s.rows && Transitions(s.rows[r].state) == {} && NoWriter(s, r)
    ensures !Changed(s, run, r)
  {
    if Legal(s, run) {
      AcksAloneDecide(s, run, r);
      TerminalNeverLeft(s.rows, Acks(run), r);
    }
  }

  /** When an acknowledged end is not the end: after any run, a row in
      TURN_TRIGGERED, AMBIGUOUS or TRIGGER_UNKNOWN can still change if and only
      if the call that inserted it has a write of its own to make. */
  lemma SendOverwritesAck(s0: State, past: seq<Step>, r: RequestId)
    requires Quiet(s0) && Legal(s0, past)
    requires var s := Exec(s0, past); r in s.rows && s.rows[r].state in {TURN_TRIGGERED, AMBIGUOUS, TRIGGER_UNKNOWN}
    ensures var s := Exec(s0, past); (exists run :: Changed(s, run, r)) <==> !NoWriter(s, r)
  {
    var s := Exec(s0, past);
    RunGood(s0, past);
    if NoWriter(s, r) {
      forall run ensures !Changed(s, run, r) {
        EndIsTheEnd(s, run, r);
      }
    } else {
      var t :| Writer(PcOf(s, t), r);
      assert PcGood(s, PcOf(s, t), Existed(s, t));
      var run := WriterCanWrite(s, r, t);
    }
  }

  /** It happens: a TURN_TRIGGERED acknowledgement between the mailbox write
      and the fill-in of the message id is overwritten with QUEUED. */
  lemma OverwriteHappens(s: State, t: Tid, call: Call, id: CommandId, mail: MailId) returns (run: seq<Step>)
    requires PcOf(s, t).Idle? && call.request !in s.rows && call.pluginBackend
    ensures |run| == 5 && Legal(s, run[..4]) && Legal(s, run)
    ensures var r := call.request;
      && r in Exec(s, run[..4]).rows && Exec(s, run[..4]).rows[r].state == TURN_TRIGGERED
      && r in Exec(s, run).rows && Exec(s, run).rows[r].state == QUEUED
  {
    var ack := Acknowledge(Ack(Some(call.request), Some(TURN_TRIGGERED), None, None, None));
    run := InsertedAndMailed(s, t, call, id, mail);
    var s3 := Exec(s, run);
    Two(s3, ack, Go(t));
    Prepend(s3, ack, []);
    Chain(s, run, [ack] + []);
    Chain(s, run, [ack, Go(t)]);
    assert (run + [ack, Go(t)])[..4] == run + ([ack] + []);
    run := run + [ack, Go(t)];
  }

  lemma InsertedAndMailed(s: State, t: Tid, call: Call, id: CommandId, mail: MailId) returns (run: seq<Step>)
    requires PcOf(s, t).Idle? && call.request !in s.rows && call.pluginBackend
    ensures |run| == 3 && Legal(s, run)
    ensures var s3 := Exec(s, run);
      && PcOf(s3, t) == Writing(call, QUEUED, Some(mail), Gate)
      && call.request in s3.rows && s3.rows[call.request] == NewRow(call, id)
  {
    var s2 := Apply(Apply(s, Begin(t, call)), Insert(t, id));
    Two(s, Begin(t, call), Insert(t, id));
    Prepend(s2, WriteMail(t, Some(mail)), []);
    Chain(s, [Begin(t, call), Insert(t, id)], [WriteMail(t, Some(mail))] + []);
    run := [Begin(t, call), Insert(t, id)] + ([WriteMail(t, Some(mail))] + []);
  }

  lemma {:induction false} Chain(s: State, first: seq<Step>, rest: seq<Step>)
    requires Legal(s, first) && Legal(Exec(s, first), rest)
    ensures Legal(s, first + rest) && Exec(s, first + rest) == Exec(Exec(s, first), rest)
    decreases |first|
  {
    if first == [] {
      assert first + rest == rest;
    } else {
      assert (first + rest)[1..] == first[1..] + rest;
      Chain(Apply(s, first[0]), first[1..], rest);
    }
  }

  ghost predicate Changed(s: State, run: seq<Step>, r: RequestId) {
    Legal(s, run) && r in s.rows && r in Exec(s, run).rows && Exec(s, run).rows[r] != s.rows[r]
  }

  lemma WriterCanWrite(s: State, r: RequestId, t: Tid) returns (run: seq<Step>)
    requires r in s.rows && s.rows[r].state in {TURN_TRIGGERED, AMBIGUOUS, TRIGGER_UNKNOWN}
    requires Writer(PcOf(s, t), r)
    requires PcOf(s, t).Writing? ==> PcOf(s, t).state in WRITTEN
    ensures Changed(s, run, r)
  {
    if PcOf(s, t).Writing? {
      run := [Go(t)] + [];
      Prepend(s, Go(t), []);
    } else {
      var step := match PcOf(s, t)
        case Won(call) => if call.pluginBackend then WriteMail(t, None) else Go(t)
        case Gating(_) => PassGate(t, NotHot)
        case _ => EndRevive(t, Kept);
      Two(s, step, Go(t));
      run := [step, Go(t)];
    }
  }

  // ==== A call that runs alone ====

  /** What a call meets on its way: the mailbox id if the write succeeds, the
      state of the gate, and how a revival ends. */
  datatype Fortune = Fortune(sent: Option<MailId>, gated: Gated, revived: Revived)

  /** The state a new call leaves its row in: queued, unless it cannot be
      delivered or a revival decides otherwise. */
  function Settles(call: Call, f: Fortune): CmdState {
    if !call.pluginBackend || f.sent.None? then FAILED_SAFE
    else if f.gated.Ended? && f.revived.Kept? then REVIVING
    else if f.gated.Ended? && f.revived.Failed? then FAILED_SAFE
    else QUEUED
  }

  predicate Delivers(call: Call, f: Fortune) {
    call.pluginBackend && f.sent.Some?
  }

  lemma WriteStep(s: State, t: Tid, r: RequestId)
    requires PcOf(s, t).Writing? && PcOf(s, t).call.request == r && r in s.rows
    ensures Enabled(s, Go(t))
    ensures var pc, s' := PcOf(s, t), Apply(s, Go(t));
      && r in s'.rows && s'.rows[r] == s.rows[r].(state := pc.state, mail := OrElse(pc.mail, s.rows[r].mail), detail := OtherDetail)
      && s'.mailbox == s.mailbox
      && (match pc.after
          case Refuse => PcOf(s', t).Idle? && s'.replies == s.replies + [Reply(pc.call, Unsupported, Existed(s, t))]
          case Gate => PcOf(s', t) == Gating(pc.call) && s'.replies == s.replies
          case Revive => PcOf(s', t) == RevivePending(pc.call) && s'.replies == s.replies
          case Answer => PcOf(s', t) == Replying(pc.call) && s'.replies == s.replies)
  {
    match PcOf(s, t).after
    case Refuse =>
    case Gate =>
    case Revive =>
    case Answer =>
  }

  /** From a state where the row is written a last time, to the reply. */
  lemma AnswersAfterWrite(s: State, t: Tid, r: RequestId) returns (run: seq<Step>)
    requires PcOf(s, t).Writing? && PcOf(s, t).call.request == r && r in s.rows && PcOf(s, t).after == Then.Answer
    ensures Legal(s, run)
    ensures var pc, s' := PcOf(s, t), Exec(s, run);
      && PcOf(s', t).Idle? && s'.mailbox == s.mailbox
      && r in s'.rows && s'.rows[r] == s.rows[r].(state := pc.state, mail := OrElse(pc.mail, s.rows[r].mail), detail := OtherDetail)
      && s'.replies == s.replies + [Reply(pc.call, Names(s.rows[r].command), Existed(s, t))]
  {
    WriteStep(s, t, r);
    Two(s, Go(t), Go(t));
    run := [Go(t), Go(t)];
  }

  /** The gate and what follows it. */
  lemma PassesGate(s: State, t: Tid, r: RequestId, f: Fortune) returns (run: seq<Step>)
    requires PcOf(s, t).Gating? && PcOf(s, t).call.request == r && r in s.rows && s.rows[r].state == QUEUED
    ensures Legal(s, run)
    ensures var call, s' := PcOf(s, t).call, Exec(s, run);
      && PcOf(s', t).Idle? && s'.mailbox == s.mailbox && r in s'.rows
      && s'.rows[r].state == (if !f.gated.Ended? || f.revived.Cold? then QUEUED else if f.revived.Kept? then REVIVING else FAILED_SAFE)
      && s'.rows[r].mail == s.rows[r].mail && s'.rows[r].turn == s.rows[r].turn && SameIdentity(s.rows[r], s'.rows[r])
      && s'.replies == s.replies + [Reply(call, Names(s.rows[r].command), Existed(s, t))]
  {
    var s1 := Apply(s, PassGate(t, f.gated));
    match f.gated
    case Hot =>
      Two(s, PassGate(t, Hot), Go(t));
      run := [PassGate(t, Hot), Go(t)];
    case NotHot =>
      var rest := AnswersAfterWrite(s1, t, r);
      Prepend(s, PassGate(t, NotHot), rest);
      run := [PassGate(t, NotHot)] + rest;
    case Ended =>
      WriteStep(s1, t, r);
      var s2 := Apply(s1, Go(t));
      var s3 := Apply(s2, EndRevive(t, f.revived));
      var rest := AnswersAfterWrite(s3, t, r);
      Prepend(s2, EndRevive(t, f.revived), rest);
      Prepend(s1, Go(t), [EndRevive(t, f.revived)] + rest);
      Prepend(s, PassGate(t, Ended), [Go(t)] + ([EndRevive(t, f.revived)] + rest));
      run := [PassGate(t, Ended)] + ([Go(t)] + ([EndRevive(t, f.revived)] + rest));
  }

  /** A new call that runs alone, whatever it meets: its row names the fresh
      command and the call's runtime, generation and payload, and ends in the
      state `Settles` gives; the message is in the mailbox, under the request,
      exactly if the backend has a consumer and the write succeeded, and then
      the row knows its id; the reply names the command unless the backend has
      no consumer. */
  lemma CallAlone(s: State, t: Tid, call: Call, id: CommandId, f: Fortune) returns (run: seq<Step>)
    requires PcOf(s, t).Idle? && call.request !in s.rows
    ensures Legal(s, run)
    ensures var r, s' := call.request, Exec(s, run);
      && PcOf(s', t).Idle? && r in s'.rows
      && var row := s'.rows[r];
      && row.command == id && row.runtime == call.runtime && row.generation == call.generation && row.hash == call.hash
      && row.turn == None && row.state == Settles(call, f)
      && row.mail == (if Delivers(call, f) then f.sent else None)
      && s'.mailbox == (if Delivers(call, f) then s.mailbox + [Mail(f.sent.value, r)] else s.mailbox)
      && s'.replies == s.replies + [Reply(call, if call.pluginBackend then Names(id) else Unsupported, false)]
  {
    var r := call.request;
    var s2 := Apply(Apply(s, Begin(t, call)), Insert(t, id));
    Two(s, Begin(t, call), Insert(t, id));
    var rest := Delivery(s2, t, call, f);
    Chain(s, [Begin(t, call), Insert(t, id)], rest);
    run := [Begin(t, call), Insert(t, id)] + rest;
  }

  /** The same from the inserted row on. */
  lemma Delivery(s: State, t: Tid, call: Call, f: Fortune) returns (run: seq<Step>)
    requires PcOf(s, t) == Won(call) && call.request in s.rows && s.rows[call.request].state == QUEUED
    requires s.rows[call.request].mail == None
    ensures Legal(s, run)
    ensures var r, s' := call.request, Exec(s, run);
      && PcOf(s', t).Idle? && r in s'.rows && SameIdentity(s.rows[r], s'.rows[r])
      && s'.rows[r].turn == s.rows[r].turn && s'.rows[r].state == Settles(call, f)
      && s'.rows[r].mail == (if Delivers(call, f) then f.sent else None)
      && s'.mailbox == (if Delivers(call, f) then s.mailbox + [Mail(f.sent.value, r)] else s.mailbox)
      && s'.replies == s.replies + [Reply(call, if call.pluginBackend then Names(s.rows[r].command) else Unsupported, Existed(s, t))]
  {
    var r := call.request;
    if !call.pluginBackend {
      var s1 := Apply(s, Go(t));
      WriteStep(s1, t, r);
      Two(s, Go(t), Go(t));
      run := [Go(t), Go(t)];
    } else {
      var mail := WriteMail(t, f.sent);
      var s1 := Apply(s, mail);
      var rest: seq<Step>;
      if f.sent.None? {
        rest := AnswersAfterWrite(s1, t, r);
      } else {
        WriteStep(s1, t, r);
        var gate := PassesGate(Apply(s1, Go(t)), t, r, f);
        Prepend(s1, Go(t), gate);
        rest := [Go(t)] + gate;
      }
      Prepend(s, mail, rest);
      run := [mail] + rest;
    }
  }
}
