/** What a claim file guarantees its reader, and under which discipline. */
module ClaimSafety {
  import opened MailboxFs
  import opened ClaimProtocol

  /** The read in progress is younger than the orphan gate. */
  predicate Young(pc: Pc, now: int) {
    Reading(pc) ==> now <= pc.at + ORPHAN_AGE_GATE_S
  }

  /** About to act on a claim file, having decided it is not a read in progress. */
  predicate Committed(pc: Pc) {
    || (pc.ReapLocked? && pc.cur < (if pc.sweep then OrphanGate(pc.started) else Cutoff(pc.started)))
    || pc.ReapMoving? || pc.ReapUnlinking?
    || pc.RenewWriting? || pc.RenewVerifying? || pc.RenewHealing?
    || Solo(pc)
  }

  /** No thread but t is committed to act on the claim file k. */
  ghost predicate Undisturbed(s: State, t: Tid, k: ClaimKey) {
    forall u :: u != t && Committed(PcOf(s, u)) ==> PcOf(s, u).key != k
  }

  /** The discipline under which claims are safe:
      - a read ends, or crashes, before its stamp is older than the orphan gate;
      - a claim is published only while nobody is committed to act on it;
      - finalize and release run without interruption by other threads. */
  ghost predicate Disciplined(s: State, st: Step)
    requires Enabled(s, st)
  {
    match st
    case Tick(d) => forall t :: Young(PcOf(s, t), s.now + d)
    case Deliver(_, _) => true
    case Crash(_) => true
    case Begin(t, _) => forall u :: Solo(PcOf(s, u)) ==> u == t
    case Go(t) =>
      && (forall u :: Solo(PcOf(s, u)) ==> u == t)
      && (PcOf(s, t).Stamped? && PcOf(s, t).key !in s.box.claims ==> Undisturbed(s, t, PcOf(s, t).key))
  }

  ghost predicate DisciplinedRun(s: State, run: seq<Step>)
    requires Legal(s, run)
    decreases |run|
  {
    run == [] || (Disciplined(s, run[0]) && DisciplinedRun(Apply(s, run[0]), run[1..]))
  }

  /** k is the claim under which its message was read last and is now worked on. */
  predicate InUse(s: State, k: ClaimKey) {
    k.msg in s.box.processing && k.msg in s.holder && s.holder[k.msg] == k.owner
  }

  /** A message in processing has a claim file of its latest successful reader. */
  ghost predicate HolderHasClaim(s: State) {
    forall m :: m in s.box.processing ==> m in s.holder && ClaimKey(m, s.holder[m]) in s.box.claims
  }

  // ---- what each program point knows ----

  ghost predicate ReaderKnows(s: State, pc: Pc) {
    && Young(pc, s.now)
    && (Reading(pc) ==> pc.at <= s.now)
    // a reader whose move failed drops the claim it published itself
    && (Published(pc) ==> pc.key in s.box.claims && s.box.claims[pc.key] == pc.at && !InUse(s, pc.key))
  }

  predicate ReaperKnows(s: State, pc: Pc) {
    && (pc.ReapSeen? || pc.ReapLocked? || pc.ReapMoving? ==> pc.started <= s.now)
    && (pc.ReapLocked? && Committed(pc) && pc.key in s.box.claims ==> s.box.claims[pc.key] == pc.cur)
    && (pc.ReapMoving? ==> pc.cur < Cutoff(pc.started))
    && (pc.ReapMoving? && pc.key in s.box.claims ==> s.box.claims[pc.key] == pc.cur)
    && (pc.ReapUnlinking? || pc.RenewHealing? ==> !InUse(s, pc.key))
  }

  predicate SoloKnows(s: State, pc: Pc) {
    && (pc.FinalMoving? || pc.ReleaseMoving? ==>
          pc.key.msg in s.box.processing && ClaimsOn(s.box, pc.key.msg) <= {pc.key})
    && (pc.FinalMoving? ==> pc.key in s.box.claims)
    && (pc.FinalUnlinking? || pc.ReleaseUnlinking? ==> pc.key.msg !in s.box.processing)
  }

  /** What two different threads may not do at once. */
  predicate Compatible(p: Pc, q: Pc) {
    && (Published(p) && Published(q) ==> p.key != q.key)
    && (Locks(p) && Locks(q) ==> p.key != q.key)
    && (Committed(p) && Published(q) ==> p.key != q.key)
    && !(Solo(p) && Solo(q))
  }

  ghost predicate Safe(s: State) {
    && Disjoint(s.box)
    && HolderHasClaim(s)
    && (forall t :: ReaderKnows(s, PcOf(s, t)) && ReaperKnows(s, PcOf(s, t)) && SoloKnows(s, PcOf(s, t)))
    && (forall t, u :: t != u ==> Compatible(PcOf(s, t), PcOf(s, u)))
  }

  /** Only thread t moves. */
  ghost predicate OnlyMoves(s: State, s': State, t: Tid, pc: Pc) {
    PcOf(s', t) == pc && forall u :: u != t ==> PcOf(s', u) == PcOf(s, u)
  }

  lemma CloseStep(s: State, s': State, t: Tid, pc: Pc)
    requires Safe(s) && OnlyMoves(s, s', t, pc)
    requires Disjoint(s'.box) && HolderHasClaim(s')
    requires ReaderKnows(s', pc) && ReaperKnows(s', pc) && SoloKnows(s', pc)
    requires forall u :: u != t ==>
      ReaderKnows(s', PcOf(s, u)) && ReaperKnows(s', PcOf(s, u)) && SoloKnows(s', PcOf(s, u))
    requires forall u :: u != t ==> Compatible(pc, PcOf(s, u)) && Compatible(PcOf(s, u), pc)
    ensures Safe(s')
  {
  }

  lemma QuietStepSafe(s: State, st: Step)
    requires Safe(s) && Enabled(s, st) && Disciplined(s, st)
    requires st.Tick? || st.Deliver? || st.Crash?
    ensures Safe(Apply(s, st))
  {
    var s' := Apply(s, st);
    StepKeepsPlaces(s, st);
    if st.Crash? {
      CloseStep(s, s', st.t, Idle);
    } else {
      forall t
        ensures PcOf(s', t) == PcOf(s, t)
        ensures ReaderKnows(s', PcOf(s', t)) && ReaperKnows(s', PcOf(s', t)) && SoloKnows(s', PcOf(s', t))
      {
        assert ReaderKnows(s, PcOf(s, t)) && ReaperKnows(s, PcOf(s, t)) && SoloKnows(s, PcOf(s, t));
      }
    }
  }

  /** Nobody else can have the claim of a message whose only claim is k. */
  lemma SoleClaimInUse(s: State, k: ClaimKey)
    requires HolderHasClaim(s) && k.msg in s.box.processing && ClaimsOn(s.box, k.msg) <= {k}
    ensures InUse(s, k) && k in s.box.claims
  {
    assert ClaimKey(k.msg, s.holder[k.msg]) in ClaimsOn(s.box, k.msg);
  }

  lemma BeginSafe(s: State, t: Tid, op: Op)
    requires Safe(s) && Enabled(s, Begin(t, op)) && Disciplined(s, Begin(t, op))
    ensures Safe(Apply(s, Begin(t, op)))
  {
    var s' := Apply(s, Begin(t, op));
    var pc := Entry(s, op);
    if Solo(pc) {
      SoleClaimInUse(s, pc.key);
    }
    forall u | u != t
      ensures ReaderKnows(s', PcOf(s, u)) && ReaperKnows(s', PcOf(s, u)) && SoloKnows(s', PcOf(s, u))
      ensures Compatible(pc, PcOf(s, u)) && Compatible(PcOf(s, u), pc)
    {
      assert ReaderKnows(s, PcOf(s, u)) && ReaperKnows(s, PcOf(s, u)) && SoloKnows(s, PcOf(s, u));
    }
    CloseStep(s, s', t, pc);
  }

  // ---- what a running thread's step leaves of the invariant ----

  /** Thread t takes a disciplined step from s to s'. */
  ghost predicate SafeGo(s: State, t: Tid, s': State) {
    Safe(s) && CanGo(s, t) && Disciplined(s, Go(t)) && Moves(s, t, s')
  }

  /** No step takes away, or restamps, the claim of a read in progress or of the
      latest reader of a message in processing. */
  lemma OwnTouchOnly(s: State, t: Tid, s': State, k: ClaimKey)
    requires SafeGo(s, t, s') && InUse(s, k) && k in s.box.claims
    ensures InUse(s', k) ==> k in s'.box.claims
  {
    var pc := PcOf(s, t);
    assert ReaderKnows(s, pc) && ReaperKnows(s, pc) && SoloKnows(s, pc);
  }

  lemma HolderAfterGo(s: State, t: Tid, s': State)
    requires SafeGo(s, t, s')
    ensures HolderHasClaim(s')
  {
    var pc := PcOf(s, t);
    assert ReaderKnows(s, pc);
    forall m | m in s'.box.processing
      ensures m in s'.holder && ClaimKey(m, s'.holder[m]) in s'.box.claims
    {
      if m in s.box.processing && s'.holder == s.holder {
        OwnTouchOnly(s, t, s', ClaimKey(m, s.holder[m]));
      }
    }
  }

  lemma ReaderAfterGo(s: State, t: Tid, s': State, u: Tid)
    requires SafeGo(s, t, s') && u != t
    ensures ReaderKnows(s', PcOf(s, u))
  {
    assert ReaderKnows(s, PcOf(s, u));
    assert Compatible(PcOf(s, t), PcOf(s, u)) && Compatible(PcOf(s, u), PcOf(s, t));
    if Published(PcOf(s, u)) {
      PublishedUntouched(s, t, PcOf(s, u).key);
    }
  }

  lemma PublishedUntouched(s: State, t: Tid, k: ClaimKey)
    requires Published(PcOf(s, t)) || Committed(PcOf(s, t)) ==> PcOf(s, t).key != k
    requires k in s.box.claims
    ensures var x := NextTouch(PcOf(s, t), s.box); x.Untouched? || x.key != k
    ensures var c := NextChange(PcOf(s, t), s.box); !(c.IsRead? && ClaimKey(c.m, c.o) == k)
  {
  }

  lemma ReaperAfterGo(s: State, t: Tid, s': State, u: Tid)
    requires SafeGo(s, t, s') && u != t
    ensures ReaperKnows(s', PcOf(s, u))
  {
    var pc, q := PcOf(s, t), PcOf(s, u);
    assert ReaderKnows(s, pc) && ReaperKnows(s, q);
    assert Compatible(pc, q) && Compatible(q, pc);
    if q.ReapUnlinking? || q.RenewHealing? {
      assert NextChange(pc, s.box).IsRead? ==> Published(pc);
    } else if (q.ReapLocked? && Committed(q)) || q.ReapMoving? {
      assert NextTouch(pc, s.box).Sets? ==> NextTouch(pc, s.box).key != q.key;
    }
  }

  lemma SelfAfterGo(s: State, t: Tid)
    requires Safe(s) && CanGo(s, t) && Disciplined(s, Go(t))
    ensures var s' := Advance(s, t);
      ReaderKnows(s', PcOf(s', t)) && ReaperKnows(s', PcOf(s', t)) && SoloKnows(s', PcOf(s', t))
  {
    var pc := PcOf(s, t);
    assert ReaderKnows(s, pc) && ReaperKnows(s, pc) && SoloKnows(s, pc);
    if pc.Stamped? || pc.Linked? {
      ReadingGoesOn(s, t);
    } else if Reaping(pc) {
      ReapingGoesOn(s, t);
    } else {
      OthersGoOn(s, t);
    }
  }

  lemma ReadingGoesOn(s: State, t: Tid)
    requires Safe(s) && CanGo(s, t) && (PcOf(s, t).Stamped? || PcOf(s, t).Linked?)
    requires ReaderKnows(s, PcOf(s, t))
    ensures var s' := Advance(s, t);
      ReaderKnows(s', PcOf(s', t)) && ReaperKnows(s', PcOf(s', t)) && SoloKnows(s', PcOf(s', t))
  {
  }

  predicate Reaping(pc: Pc) {
    pc.ReapSeen? || pc.ReapLocked? || pc.ReapMoving?
  }

  lemma ReapingGoesOn(s: State, t: Tid)
    requires CanGo(s, t) && Reaping(PcOf(s, t)) && ReaperKnows(s, PcOf(s, t))
    ensures var s' := Advance(s, t);
      ReaderKnows(s', PcOf(s', t)) && ReaperKnows(s', PcOf(s', t)) && SoloKnows(s', PcOf(s', t))
  {
    match PcOf(s, t)
    case ReapSeen(_, _, _, _) =>
    case ReapLocked(_, _, _, _) =>
    case ReapMoving(_, _, _) =>
  }

  lemma OthersGoOn(s: State, t: Tid)
    requires CanGo(s, t) && !PcOf(s, t).Stamped? && !PcOf(s, t).Linked? && !Reaping(PcOf(s, t))
    requires SoloKnows(s, PcOf(s, t))
    ensures var s' := Advance(s, t);
      ReaderKnows(s', PcOf(s', t)) && ReaperKnows(s', PcOf(s', t)) && SoloKnows(s', PcOf(s', t))
  {
    match PcOf(s, t)
    case RenewVerifying(_) =>
    case FinalMoving(_) =>
    case ReleaseMoving(_, _) =>
    case _ =>
  }

  lemma CompatibleAfterGo(s: State, t: Tid, u: Tid)
    requires Safe(s) && CanGo(s, t) && Disciplined(s, Go(t)) && u != t
    ensures var pc := PcOf(Advance(s, t), t); Compatible(pc, PcOf(s, u)) && Compatible(PcOf(s, u), pc)
  {
    var pc := PcOf(s, t);
    assert Compatible(pc, PcOf(s, u)) && Compatible(PcOf(s, u), pc) && !Solo(PcOf(s, u));
    if pc.Stamped? {
      assert ReaderKnows(s, PcOf(s, u));
    } else if pc.ReapSeen? {
      assert ReaperKnows(s, pc) && ReaderKnows(s, PcOf(s, u));
    } else if pc.RenewSeen? {
      RenewStartsAlone(s, t, u);
    } else {
      NoNewDuties(s, t);
    }
  }

  /** Past the start of an operation a thread takes on no new claim or lock. */
  lemma NoNewDuties(s: State, t: Tid)
    requires CanGo(s, t) && !PcOf(s, t).Stamped? && !PcOf(s, t).ReapSeen? && !PcOf(s, t).RenewSeen?
    ensures var pc, pc' := PcOf(s, t), PcOf(Advance(s, t), t);
      && (Published(pc') ==> Published(pc) && pc'.key == pc.key)
      && (Locks(pc') ==> Locks(pc) && pc'.key == pc.key)
      && (Committed(pc') ==> Committed(pc) && pc'.key == pc.key)
      && (Solo(pc') ==> Solo(pc))
  {
    match PcOf(s, t)
    case Linked(_, _) =>
    case ReapLocked(_, _, _, _) =>
    case _ =>
  }

  /** A renewal that finds its claim is not renewing a read in progress. */
  lemma RenewStartsAlone(s: State, t: Tid, u: Tid)
    requires Safe(s) && CanGo(s, t) && u != t && PcOf(s, t).RenewSeen? && !Solo(PcOf(s, u))
    ensures var pc := PcOf(Advance(s, t), t); Compatible(pc, PcOf(s, u)) && Compatible(PcOf(s, u), pc)
  {
    assert ReaderKnows(s, PcOf(s, u));
    if PcOf(Advance(s, t), t).RenewWriting? {
      SoleClaimInUse(s, PcOf(s, t).key);
    }
  }

  lemma GoSafe(s: State, t: Tid)
    requires Safe(s) && CanGo(s, t) && Disciplined(s, Go(t))
    ensures Safe(Advance(s, t))
  {
    var s' := Advance(s, t);
    StepKeepsPlaces(s, Go(t));
    GoMoves(s, t);
    HolderAfterGo(s, t, s');
    SelfAfterGo(s, t);
    forall u | u != t
      ensures ReaderKnows(s', PcOf(s, u)) && ReaperKnows(s', PcOf(s, u)) && SoloKnows(s', PcOf(s, u))
      ensures Compatible(PcOf(s', t), PcOf(s, u)) && Compatible(PcOf(s, u), PcOf(s', t))
    {
      ReaderAfterGo(s, t, s', u);
      ReaperAfterGo(s, t, s', u);
      assert !Solo(PcOf(s, u));
      CompatibleAfterGo(s, t, u);
    }
    CloseStep(s, s', t, PcOf(s', t));
  }

  lemma StepSafe(s: State, st: Step)
    requires Safe(s) && Enabled(s, st) && Disciplined(s, st)
    ensures Safe(Apply(s, st))
  {
    match st
    case Begin(t, op) => BeginSafe(s, t, op);
    case Go(t) => GoSafe(s, t);
    case _ => QuietStepSafe(s, st);
  }

  lemma {:induction false} RunSafe(s: State, run: seq<Step>)
    requires Safe(s) && Legal(s, run) && DisciplinedRun(s, run)
    ensures Safe(Exec(s, run))
    decreases |run|
  {
    if run != [] {
      StepSafe(s, run[0]);
      RunSafe(Apply(s, run[0]), run[1..]);
    }
  }

  /** What claims are for:
      - a message in processing has a claim file of its latest reader;
      - a finalize past its check was called by that reader;
      - a reader that lost its move is about to drop the very claim it
        published, which no other reader shares and no message in processing needs;
      - a reaper moves a message whose judged claim still exists only if that
        claim was more than 3570 s old when the reaper started. */
  ghost predicate ClaimsSound(s: State) {
    && HolderHasClaim(s)
    && (forall t :: PcOf(s, t).FinalMoving? ==> InUse(s, PcOf(s, t).key))
    && (forall t :: PcOf(s, t).MoveLost? ==>
          var k := PcOf(s, t).key;
          && k in s.box.claims && s.box.claims[k] == PcOf(s, t).at && !InUse(s, k)
          && forall u :: u != t && Published(PcOf(s, u)) ==> PcOf(s, u).key != k)
    && (forall t :: PcOf(s, t).ReapMoving? && PcOf(s, t).key in s.box.claims ==>
          s.box.claims[PcOf(s, t).key] < PcOf(s, t).started - 3570)
  }

  /** Claim safety, for every disciplined run from an empty mailbox. */
  lemma ClaimInvariant(s0: State, run: seq<Step>)
    requires Init(s0) && Legal(s0, run) && DisciplinedRun(s0, run)
    ensures ClaimsSound(Exec(s0, run))
  {
    RunSafe(s0, run);
    SafeIsSound(Exec(s0, run));
  }

  lemma SafeIsSound(s: State)
    requires Safe(s)
    ensures ClaimsSound(s)
  {
    forall t
      ensures PcOf(s, t).FinalMoving? ==> InUse(s, PcOf(s, t).key)
      ensures PcOf(s, t).MoveLost? ==>
            var k := PcOf(s, t).key;
            && k in s.box.claims && s.box.claims[k] == PcOf(s, t).at && !InUse(s, k)
            && forall u :: u != t && Published(PcOf(s, u)) ==> PcOf(s, u).key != k
      ensures PcOf(s, t).ReapMoving? && PcOf(s, t).key in s.box.claims ==>
            s.box.claims[PcOf(s, t).key] < PcOf(s, t).started - 3570
    {
      var pc := PcOf(s, t);
      assert ReaderKnows(s, pc) && ReaperKnows(s, pc) && SoloKnows(s, pc);
      if pc.FinalMoving? {
        SoleClaimInUse(s, pc.key);
      }
      if pc.MoveLost? {
        forall u | u != t && Published(PcOf(s, u))
          ensures PcOf(s, u).key != pc.key
        {
          assert Compatible(pc, PcOf(s, u));
        }
      }
    }
  }

  lemma Prepend(s: State, st: Step, run: seq<Step>)
    requires Enabled(s, st) && Legal(Apply(s, st), run)
    ensures Legal(s, [st] + run) && Exec(s, [st] + run) == Exec(Apply(s, st), run)
    ensures DisciplinedRun(s, [st] + run) == (Disciplined(s, st) && DisciplinedRun(Apply(s, st), run))
  {
    assert ([st] + run)[1..] == run;
  }

  // ==== The lease ====

  /** Every claim on the message is at most 3570 s old; there may be none. */
  ghost predicate FreshClaims(s: State, m: MsgId) {
    forall k :: k in s.box.claims && k.msg == m ==> s.now - s.box.claims[k] <= 3570
  }

  /** The owner of k starts to give the message up. */
  predicate GivesUp(st: Step, k: ClaimKey) {
    st.Begin? && (st.op == BeginFinalize(k) || st.op == BeginRelease(k) || st.op == BeginDirect(k.msg, k.owner))
  }

  /** Whatever claims on the message there are stay fresh, and the owner of k
      does not start to give it up. */
  ghost predicate FreshThroughout(s: State, run: seq<Step>, k: ClaimKey)
    requires Legal(s, run)
    decreases |run|
  {
    && FreshClaims(s, k.msg)
    && (run == [] || (!GivesUp(run[0], k) && FreshThroughout(Apply(s, run[0]), run[1..], k)))
  }

  predicate Unlinking(pc: Pc) {
    pc.ReapUnlinking? || pc.RenewHealing? || pc.FinalUnlinking? || pc.ReleaseUnlinking?
  }

  /** On its way to take the message of k out of processing. */
  predicate Taking(pc: Pc, m: MsgId) {
    || ((Reaping(pc) || pc.FinalMoving? || pc.ReleaseMoving?) && pc.key.msg == m)
    || pc == DirectMoving(m, false)
  }

  /** No thread is on its way to take the message of k out of processing, or to
      drop the claim file k. */
  ghost predicate NobodyOnTheWay(s: State, k: ClaimKey) {
    && (forall t :: !Taking(PcOf(s, t), k.msg))
    && (forall t :: Published(PcOf(s, t)) || Unlinking(PcOf(s, t)) ==> PcOf(s, t).key != k)
  }

  /** Reapers of the message have only seen fresh claims, and nobody else is on
      the way. */
  predicate Harmless(pc: Pc, now: int, k: ClaimKey) {
    && (Taking(pc, k.msg) ==>
          || (pc.ReapSeen? && pc.started <= now && pc.seen >= Cutoff(pc.started))
          || (pc.ReapLocked? && pc.started <= now && pc.cur >= Cutoff(pc.started)))
    && (Published(pc) || Unlinking(pc) ==> pc.key != k)
  }

  lemma LeaseMoves(s: State, t: Tid, k: ClaimKey)
    requires CanGo(s, t) && k in s.box.claims && k.msg in s.box.processing
    requires Harmless(PcOf(s, t), s.now, k)
    ensures k.msg in Advance(s, t).box.processing && k in Advance(s, t).box.claims
  {
    GoMoves(s, t);
  }

  lemma LeaseGo(s: State, t: Tid, k: ClaimKey)
    requires CanGo(s, t) && k in s.box.claims && FreshClaims(s, k.msg) && k.msg in s.box.processing
    requires Harmless(PcOf(s, t), s.now, k)
    ensures Harmless(PcOf(Advance(s, t), t), s.now, k)
  {
    match PcOf(s, t)
    case Stamped(_, _) =>
    case ReapSeen(_, _, _, _) =>
    case ReapLocked(_, _, _, _) =>
    case RenewVerifying(_) =>
    case _ =>
  }

  lemma LeaseBegin(s: State, op: Op, k: ClaimKey)
    requires CanBegin(s, op) && FreshClaims(s, k.msg) && k in s.box.claims && k.msg in s.box.processing
    requires op != BeginFinalize(k) && op != BeginRelease(k) && op != BeginDirect(k.msg, k.owner)
    ensures Harmless(Entry(s, op), s.now, k)
  {
    assert k in ClaimsOn(s.box, k.msg);
  }

  lemma LeaseStep(s: State, st: Step, k: ClaimKey)
    requires Enabled(s, st) && FreshClaims(s, k.msg) && k.msg in s.box.processing && k in s.box.claims
    requires !GivesUp(st, k) && forall t :: Harmless(PcOf(s, t), s.now, k)
    ensures k.msg in Apply(s, st).box.processing && k in Apply(s, st).box.claims
    ensures forall t :: Harmless(PcOf(Apply(s, st), t), Apply(s, st).now, k)
  {
    if st.Begin? || st.Go? {
      ThreadFrame(s, st);
    }
    match st {
      case Begin(t, op) => LeaseBegin(s, op, k);
      case Go(t) =>
        LeaseMoves(s, t, k);
        LeaseGo(s, t, k);
        GoHolds(s, t);
      case _ =>
    }
    forall t
      ensures Harmless(PcOf(Apply(s, st), t), Apply(s, st).now, k)
    {
      LeaseKeepsHarmless(s, st, k, t);
    }
  }

  lemma LeaseKeepsHarmless(s: State, st: Step, k: ClaimKey, t: Tid)
    requires Enabled(s, st) && Harmless(PcOf(s, t), s.now, k) && Apply(s, st).now >= s.now
    requires (st.Begin? || st.Go?) ==> st.t != t ==> PcOf(Apply(s, st), t) == PcOf(s, t)
    requires (st.Begin? || st.Go?) && st.t == t ==> Harmless(PcOf(Apply(s, st), t), s.now, k) && Apply(s, st).now == s.now
    ensures Harmless(PcOf(Apply(s, st), t), Apply(s, st).now, k)
  {
  }

  /** Lease safety, with any number of reapers, renewers, readers, finalizers
      and crashes interleaved: while the claims on the message, as far as there
      are any, are kept at most 3570 s old and the owner of k does not give the
      message up, the message stays in processing and the claim file k stays. */
  lemma {:induction false} LeaseKept(s: State, run: seq<Step>, k: ClaimKey)
    requires Legal(s, run) && FreshThroughout(s, run, k)
    requires k.msg in s.box.processing && k in s.box.claims && NobodyOnTheWay(s, k)
    ensures k.msg in Exec(s, run).box.processing && k in Exec(s, run).box.claims
  {
    assert forall t :: Harmless(PcOf(s, t), s.now, k);
    LeaseKeptFrom(s, run, k);
  }

  lemma {:induction false} LeaseKeptFrom(s: State, run: seq<Step>, k: ClaimKey)
    requires Legal(s, run) && FreshThroughout(s, run, k) && k.msg in s.box.processing && k in s.box.claims
    requires forall t :: Harmless(PcOf(s, t), s.now, k)
    ensures k.msg in Exec(s, run).box.processing && k in Exec(s, run).box.claims
    decreases |run|
  {
    if run != [] {
      LeaseStep(s, run[0], k);
      LeaseKeptFrom(Apply(s, run[0]), run[1..], k);
    }
  }
}
