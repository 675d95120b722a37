/** The claim protocol of one mailbox agent under arbitrary interleaving.

    Any number of threads run read, quarantine, the two reapers, renew,
    finalize, finalize_from_inbox and release; each file operation is one step, a thread may crash
    between any two, and an idle thread may begin anything. */
module ClaimProtocol {
  import opened MailboxFs

  type Tid = nat

  /** Where a thread stands inside the operation it runs. */
  datatype Pc =
    | Idle
    // read(): the file was judged bad and is about to go to _corrupt
    | Refusing(m: MsgId)
    // read(): claimed_at sampled / claim linked / move failed, claim to be dropped
    | Stamped(key: ClaimKey, at: int)
    | Linked(key: ClaimKey, at: int)
    | MoveLost(key: ClaimKey, at: int)
    // recover_stale (sweep) and _reap_expired_claim (!sweep)
    | ReapSeen(key: ClaimKey, seen: int, started: int, sweep: bool)
    | ReapLocked(key: ClaimKey, cur: int, started: int, sweep: bool)
    | ReapMoving(key: ClaimKey, cur: int, started: int)
    | ReapUnlinking(key: ClaimKey)
    // renew_claim
    | RenewSeen(key: ClaimKey)
    | RenewWriting(key: ClaimKey, stamp: int)
    | RenewVerifying(key: ClaimKey)
    | RenewHealing(key: ClaimKey)
    // finalize and release
    | FinalMoving(key: ClaimKey)
    | FinalUnlinking(key: ClaimKey)
    | ReleaseMoving(key: ClaimKey, had: bool)
    | ReleaseUnlinking(key: ClaimKey)
    // finalize_from_inbox: the source directory is chosen and judged
    | DirectMoving(m: MsgId, fromInbox: bool)

  /** What happened to messages: a read obtained one, finalize_from_inbox took
      one straight from the inbox, or one came back. */
  datatype Event = Got(m: MsgId, o: Owner) | Direct(m: MsgId) | Back(m: MsgId)

  predicate Obtains(e: Event, m: MsgId) {
    (e.Got? || e.Direct?) && e.m == m
  }

  /** `holder` remembers, for each message, the owner whose read obtained it last. */
  datatype State = State(box: Box, now: int, threads: map<Tid, Pc>, holder: map<MsgId, Owner>, log: seq<Event>)

  datatype Op =
    | BeginRefuse(m: MsgId)
    | BeginRead(m: MsgId, o: Owner)
    | BeginReap(key: ClaimKey, started: int, sweep: bool)
    | BeginRenew(key: ClaimKey)
    | BeginFinalize(key: ClaimKey)
    | BeginRelease(key: ClaimKey)
    | BeginDirect(m: MsgId, o: Owner)

  datatype Step = Tick(d: nat) | Deliver(m: MsgId, f: File) | Crash(t: Tid) | Begin(t: Tid, op: Op) | Go(t: Tid)

  function PcOf(s: State, t: Tid): Pc {
    if t in s.threads then s.threads[t] else Idle
  }

  function At(s: State, t: Tid, pc: Pc): State {
    s.(threads := s.threads[t := pc])
  }

  /** Between the stamp of a claim and the end of the read that owns it. */
  predicate Reading(pc: Pc) {
    pc.Stamped? || pc.Linked? || pc.MoveLost?
  }

  predicate Published(pc: Pc) {
    pc.Linked? || pc.MoveLost?
  }

  predicate Locks(pc: Pc) {
    || pc.ReapLocked? || pc.ReapMoving? || pc.ReapUnlinking?
    || pc.RenewWriting? || pc.RenewVerifying? || pc.RenewHealing?
  }

  predicate Solo(pc: Pc) {
    pc.FinalMoving? || pc.FinalUnlinking? || pc.ReleaseMoving? || pc.ReleaseUnlinking?
  }

  ghost predicate LockFree(s: State, k: ClaimKey) {
    forall t :: Locks(PcOf(s, t)) ==> PcOf(s, t).key != k
  }

  // ---- starting an operation ----

  ghost predicate CanBegin(s: State, op: Op) {
    match op
    case BeginRefuse(m) => m in s.box.inbox
    case BeginRead(m, o) => m in s.box.inbox
    // the cutoffs are sampled when the sweep starts, the claim is read later
    case BeginReap(k, started, sweep) =>
      && started <= s.now && k in s.box.claims
      && (sweep || s.box.claims[k] < Cutoff(started))
    case BeginRenew(k) => k.msg in s.box.processing && |ClaimsOn(s.box, k.msg)| == 1
    case BeginFinalize(k) => k.msg in s.box.processing && ClaimsOn(s.box, k.msg) == {k}
    case BeginRelease(k) => k.msg in s.box.processing && ClaimsOn(s.box, k.msg) <= {k}
    // a foreign claim is looked for only when the message is in processing
    case BeginDirect(m, o) =>
      m in s.box.inbox || (m in s.box.processing && ClaimsOn(s.box, m) <= {ClaimKey(m, o)})
  }

  ghost function Entry(s: State, op: Op): Pc
    requires CanBegin(s, op)
  {
    match op
    case BeginRefuse(m) => Refusing(m)
    case BeginRead(m, o) => Stamped(ClaimKey(m, o), s.now)
    case BeginReap(k, started, sweep) => ReapSeen(k, s.box.claims[k], started, sweep)
    case BeginRenew(k) => RenewSeen(k)
    case BeginFinalize(k) => FinalMoving(k)
    case BeginRelease(k) => ReleaseMoving(k, ClaimsOn(s.box, k.msg) == {k})
    case BeginDirect(m, o) => DirectMoving(m, m in s.box.inbox)
  }

  // ---- one step of a running thread ----

  ghost predicate CanGo(s: State, t: Tid) {
    match PcOf(s, t)
    case Idle => false
    case ReapSeen(k, _, _, _) => LockFree(s, k)
    case RenewSeen(k) => LockFree(s, k)
    case _ => true
  }

  ghost function Advance(s: State, t: Tid): State
    requires CanGo(s, t)
  {
    var b := s.box;
    match PcOf(s, t)
    case Refusing(m) =>
      if m in b.inbox then At(s, t, Idle).(box := Quarantine(b, m)) else At(s, t, Idle)
    case Stamped(k, at) =>
      // os.link: no-clobber publish
      if k in b.claims then At(s, t, Idle)
      else At(s, t, Linked(k, at)).(box := b.(claims := b.claims[k := at]))
    case Linked(k, at) =>
      if k.msg in b.inbox then
        At(s, t, Idle).(box := Take(b, k.msg), holder := s.holder[k.msg := k.owner], log := s.log + [Got(k.msg, k.owner)])
      else At(s, t, MoveLost(k, at))
    case MoveLost(k, at) => At(s, t, Idle).(box := Unlink(b, k))
    case ReapSeen(k, seen, started, sweep) =>
      // re-read under the lock; a vanished claim falls back to the old stamp
      At(s, t, ReapLocked(k, if k in b.claims then b.claims[k] else seen, started, sweep))
    case ReapLocked(k, cur, started, sweep) =>
      if k.msg !in b.processing && sweep then
        if cur >= OrphanGate(started) then At(s, t, Idle) else At(s, t, ReapUnlinking(k))
      else if cur >= Cutoff(started) then At(s, t, Idle)
      else if k.msg in b.processing then At(s, t, ReapMoving(k, cur, started))
      else At(s, t, ReapUnlinking(k))
    case ReapMoving(k, cur, started) =>
      if k.msg in b.processing then
        At(s, t, ReapUnlinking(k)).(box := GiveBack(b, k.msg), log := s.log + [Back(k.msg)])
      else At(s, t, Idle)
    case ReapUnlinking(k) => At(s, t, Idle).(box := Unlink(b, k))
    case RenewSeen(k) =>
      if k.msg in b.processing && ClaimsOn(b, k.msg) == {k} then At(s, t, RenewWriting(k, s.now)) else At(s, t, Idle)
    case RenewWriting(k, stamp) => At(s, t, RenewVerifying(k)).(box := b.(claims := b.claims[k := stamp]))
    case RenewVerifying(k) => if k.msg in b.processing then At(s, t, Idle) else At(s, t, RenewHealing(k))
    case RenewHealing(k) => At(s, t, Idle).(box := Unlink(b, k))
    case FinalMoving(k) =>
      if k.msg in b.processing then At(s, t, FinalUnlinking(k)).(box := Retire(b, k.msg)) else At(s, t, Idle)
    case FinalUnlinking(k) => At(s, t, Idle).(box := Unlink(b, k))
    case ReleaseMoving(k, had) =>
      if k.msg in b.processing then
        At(s, t, if had then ReleaseUnlinking(k) else Idle).(box := GiveBack(b, k.msg), log := s.log + [Back(k.msg)])
      else At(s, t, Idle)
    case ReleaseUnlinking(k) => At(s, t, Idle).(box := Unlink(b, k))
    case DirectMoving(m, fromInbox) =>
      if fromInbox && m in b.inbox then At(s, t, Idle).(box := RetireUnread(b, m), log := s.log + [Direct(m)])
      else if !fromInbox && m in b.processing then At(s, t, Idle).(box := Retire(b, m))
      else At(s, t, Idle)
  }

  ghost predicate Enabled(s: State, st: Step) {
    match st
    case Tick(_) => true
    case Deliver(m, _) => !Known(s.box, m)
    case Crash(_) => true
    case Begin(t, op) => PcOf(s, t).Idle? && CanBegin(s, op)
    case Go(t) => CanGo(s, t)
  }

  ghost function Apply(s: State, st: Step): State
    requires Enabled(s, st)
  {
    match st
    case Tick(d) => s.(now := s.now + d)
    case Deliver(m, f) => s.(box := s.box.(inbox := s.box.inbox[m := f]))
    case Crash(t) => At(s, t, Idle)
    case Begin(t, op) => At(s, t, Entry(s, op))
    case Go(t) => Advance(s, t)
  }

  ghost predicate Init(s: State) {
    && s.box == Box(map[], map[], map[], map[], map[])
    && s.threads == map[] && s.holder == map[] && s.log == []
  }

  lemma ThreadFrame(s: State, st: Step)
    requires Enabled(s, st) && (st.Begin? || st.Go?)
    ensures forall u :: u != st.t ==> PcOf(Apply(s, st), u) == PcOf(s, u)
  {
  }

  // ---- runs ----

  ghost predicate Legal(s: State, run: seq<Step>)
    decreases |run|
  {
    run == [] || (Enabled(s, run[0]) && Legal(Apply(s, run[0]), run[1..]))
  }

  ghost function Exec(s: State, run: seq<Step>): State
    requires Legal(s, run)
    decreases |run|
  {
    if run == [] then s else Exec(Apply(s, run[0]), run[1..])
  }

  // ==== Conservation: every run, no discipline assumed ====

  /** How often m was read or taken directly. */
  function Takings(log: seq<Event>, m: MsgId): nat {
    if log == [] then 0
    else Takings(log[..|log| - 1], m) + (if Obtains(log[|log| - 1], m) then 1 else 0)
  }

  function Returns(log: seq<Event>, m: MsgId): nat {
    if log == [] then 0
    else Returns(log[..|log| - 1], m) + (if log[|log| - 1] == Back(m) then 1 else 0)
  }

  /** m came back between positions i and j. */
  predicate BackBetween(log: seq<Event>, m: MsgId, i: nat, j: nat)
    requires j <= |log|
  {
    exists k :: i < k < j && log[k] == Back(m)
  }

  /** m is not obtained twice without a return in between. */
  ghost predicate Alternates(log: seq<Event>, m: MsgId) {
    forall i, j :: 0 <= i < j < |log| && Obtains(log[i], m) && Obtains(log[j], m) ==> BackBetween(log, m, i, j)
  }

  ghost predicate AllReturned(log: seq<Event>, m: MsgId) {
    forall i :: 0 <= i < |log| && Obtains(log[i], m) ==> BackBetween(log, m, i, |log|)
  }

  predicate Held(b: Box, m: MsgId) {
    m in b.processing || m in b.archive
  }

  /** The account of m, as far as the log and `held` tell. */
  ghost predicate Account(log: seq<Event>, held: bool, m: MsgId) {
    && Alternates(log, m)
    && (!held ==> AllReturned(log, m))
    && Takings(log, m) - Returns(log, m) == (if held then 1 else 0)
  }

  ghost predicate Accounted(s: State, m: MsgId) {
    Account(s.log, Held(s.box, m), m)
  }

  ghost predicate Conserved(s: State) {
    && Disjoint(s.box)
    && forall m :: Accounted(s, m)
  }

  lemma CountsGrow(log: seq<Event>, e: Event, m: MsgId)
    ensures Takings(log + [e], m) == Takings(log, m) + (if Obtains(e, m) then 1 else 0)
    ensures Returns(log + [e], m) == Returns(log, m) + (if e == Back(m) then 1 else 0)
  {
    assert (log + [e])[..|log|] == log;
  }

  lemma BackStays(log: seq<Event>, e: Event, m: MsgId, i: nat, j: nat, j': nat)
    requires j <= |log| && j <= j' <= |log| + 1 && BackBetween(log, m, i, j)
    ensures BackBetween(log + [e], m, i, j')
  {
    var k :| i < k < j && log[k] == Back(m);
    assert (log + [e])[k] == Back(m);
  }

  lemma AlternationGrows(log: seq<Event>, e: Event, m: MsgId)
    requires Alternates(log, m) && (Obtains(e, m) ==> AllReturned(log, m))
    ensures Alternates(log + [e], m)
  {
    var l := log + [e];
    forall i, j | 0 <= i < j < |l| && Obtains(l[i], m) && Obtains(l[j], m)
      ensures BackBetween(l, m, i, j)
    {
      assert l[i] == log[i];
      if j < |log| {
        assert l[j] == log[j];
      }
      BackStays(log, e, m, i, j, j);
    }
  }

  lemma ReturnedGrows(log: seq<Event>, e: Event, m: MsgId)
    requires e == Back(m) || (AllReturned(log, m) && !Obtains(e, m))
    ensures AllReturned(log + [e], m)
  {
    var l := log + [e];
    forall i | 0 <= i < |l| && Obtains(l[i], m)
      ensures BackBetween(l, m, i, |l|)
    {
      if e == Back(m) {
        assert l[|log|] == Back(m);
      } else {
        assert l[i] == log[i];
        BackStays(log, e, m, i, |log|, |l|);
      }
    }
  }

  /** What a step does to the directories. */
  datatype Change =
    | Stays
    | Arrives(m: MsgId, f: File)
    | IsRead(m: MsgId, o: Owner)
    | ComesBack(m: MsgId)
    | IsRetired(m: MsgId)
    | IsTaken(m: MsgId)
    | IsRefused(m: MsgId)

  /** The change a running thread is about to make. */
  function NextChange(pc: Pc, b: Box): Change {
    match pc
    case Refusing(m) => if m in b.inbox then IsRefused(m) else Stays
    case Linked(k, _) => if k.msg in b.inbox then IsRead(k.msg, k.owner) else Stays
    case ReapMoving(k, _, _) => if k.msg in b.processing then ComesBack(k.msg) else Stays
    case ReleaseMoving(k, _) => if k.msg in b.processing then ComesBack(k.msg) else Stays
    case FinalMoving(k) => if k.msg in b.processing then IsRetired(k.msg) else Stays
    case DirectMoving(m, true) => if m in b.inbox then IsTaken(m) else Stays
    case DirectMoving(m, false) => if m in b.processing then IsRetired(m) else Stays
    case _ => Stays
  }

  function ChangeOf(s: State, st: Step): Change {
    match st
    case Deliver(m, f) => Arrives(m, f)
    case Go(t) => NextChange(PcOf(s, t), s.box)
    case _ => Stays
  }

  predicate Possible(b: Box, c: Change) {
    match c
    case Stays => true
    case Arrives(m, _) => !Known(b, m)
    case IsRead(m, _) => m in b.inbox
    case ComesBack(m) => m in b.processing
    case IsRetired(m) => m in b.processing
    case IsTaken(m) => m in b.inbox
    case IsRefused(m) => m in b.inbox
  }

  function Changed(b: Box, c: Change): Box
    requires Possible(b, c)
  {
    match c
    case Stays => b
    case Arrives(m, f) => b.(inbox := b.inbox[m := f])
    case IsRead(m, _) => Take(b, m)
    case ComesBack(m) => GiveBack(b, m)
    case IsRetired(m) => Retire(b, m)
    case IsTaken(m) => RetireUnread(b, m)
    case IsRefused(m) => Quarantine(b, m)
  }

  function Logged(c: Change): seq<Event> {
    match c
    case IsRead(m, o) => [Got(m, o)]
    case IsTaken(m) => [Direct(m)]
    case ComesBack(m) => [Back(m)]
    case _ => []
  }

  /** A step moves files and writes the log only as ChangeOf says. */
  lemma StepChanges(s: State, st: Step)
    requires Enabled(s, st)
    ensures var c, s' := ChangeOf(s, st), Apply(s, st);
      && Possible(s.box, c)
      && s'.box == Changed(s.box, c).(claims := s'.box.claims)
      && s'.log == s.log + Logged(c)
  {
    if st.Go? {
      GoChanges(s, st.t);
    } else {
      assert s.log + [] == s.log;
    }
  }

  lemma GoChanges(s: State, t: Tid)
    requires CanGo(s, t)
    ensures var c, s' := NextChange(PcOf(s, t), s.box), Advance(s, t);
      && Possible(s.box, c)
      && s'.box == Changed(s.box, c).(claims := s'.box.claims)
      && s'.log == s.log + Logged(c)
  {
    assert s.log + [] == s.log;
    match PcOf(s, t)
    case Linked(_, _) =>
    case ReapMoving(_, _, _) =>
    case ReleaseMoving(_, _) =>
    case FinalMoving(_) =>
    case DirectMoving(_, _) =>
    case _ =>
  }

  /** What a step does to the claim files. */
  datatype Touch = Untouched | Sets(key: ClaimKey, at: int) | Drops(key: ClaimKey)

  function NextTouch(pc: Pc, b: Box): Touch {
    match pc
    case Stamped(k, at) => if k in b.claims then Untouched else Sets(k, at)
    case RenewWriting(k, stamp) => Sets(k, stamp)
    case MoveLost(k, _) => Drops(k)
    case ReapUnlinking(k) => Drops(k)
    case RenewHealing(k) => Drops(k)
    case FinalUnlinking(k) => Drops(k)
    case ReleaseUnlinking(k) => Drops(k)
    case _ => Untouched
  }

  function Touched(claims: map<ClaimKey, int>, x: Touch): map<ClaimKey, int> {
    match x
    case Untouched => claims
    case Sets(k, at) => claims[k := at]
    case Drops(k) => claims - {k}
  }

  /** The running thread t moves files, claims and itself, and nothing else. */
  ghost predicate Moves(s: State, t: Tid, s': State) {
    var c := NextChange(PcOf(s, t), s.box);
    && Possible(s.box, c)
    && s'.box == Changed(s.box, c).(claims := Touched(s.box.claims, NextTouch(PcOf(s, t), s.box)))
    && s'.holder == (if c.IsRead? then s.holder[c.m := c.o] else s.holder)
    && s'.now == s.now
    && forall u :: u != t ==> PcOf(s', u) == PcOf(s, u)
  }

  lemma GoMoves(s: State, t: Tid)
    requires CanGo(s, t)
    ensures Moves(s, t, Advance(s, t))
  {
    GoChanges(s, t);
    GoTouches(s, t);
    GoHolds(s, t);
    ThreadFrame(s, Go(t));
  }

  lemma GoTouches(s: State, t: Tid)
    requires CanGo(s, t)
    ensures Advance(s, t).box.claims == Touched(s.box.claims, NextTouch(PcOf(s, t), s.box))
  {
    match PcOf(s, t)
    case Stamped(_, _) =>
    case Linked(_, _) =>
    case _ =>
  }

  lemma GoHolds(s: State, t: Tid)
    requires CanGo(s, t)
    ensures var c, s' := NextChange(PcOf(s, t), s.box), Advance(s, t);
      s'.holder == (if c.IsRead? then s.holder[c.m := c.o] else s.holder) && s'.now == s.now
  {
    match PcOf(s, t)
    case Linked(_, _) =>
    case _ =>
  }

  lemma ChangeKeepsPlaces(b: Box, c: Change, claims: map<ClaimKey, int>, m: MsgId)
    requires Disjoint(b) && Possible(b, c)
    ensures var b' := Changed(b, c).(claims := claims);
      && (Known(b', m) ==> InExactlyOnePlace(b', m))
      && (Known(b, m) ==> Known(b', m))
  {
    assert Known(b, m) ==> InExactlyOnePlace(b, m);
  }

  lemma StepKeepsPlaces(s: State, st: Step)
    requires Disjoint(s.box) && Enabled(s, st)
    ensures Disjoint(Apply(s, st).box)
    ensures forall m :: Known(s.box, m) ==> Known(Apply(s, st).box, m)
  {
    StepChanges(s, st);
    forall m
      ensures Known(Apply(s, st).box, m) ==> InExactlyOnePlace(Apply(s, st).box, m)
      ensures Known(s.box, m) ==> Known(Apply(s, st).box, m)
    {
      ChangeKeepsPlaces(s.box, ChangeOf(s, st), Apply(s, st).box.claims, m);
    }
  }

  /** Obtaining a message makes it held, a return frees it, and nothing else
      changes which messages are held. */
  lemma StepEffect(s: State, st: Step, m: MsgId)
    requires Disjoint(s.box) && Enabled(s, st)
    ensures var c, s' := ChangeOf(s, st), Apply(s, st);
      && s'.log == s.log + Logged(c)
      && Held(s'.box, m) == (if (c.IsRead? || c.IsTaken?) && c.m == m then true
                             else if c.ComesBack? && c.m == m then false
                             else Held(s.box, m))
      && ((c.IsRead? || c.IsTaken?) && c.m == m ==> !Held(s.box, m))
      && (c.ComesBack? && c.m == m ==> Held(s.box, m))
  {
    StepChanges(s, st);
    assert Known(s.box, m) ==> InExactlyOnePlace(s.box, m);
  }

  lemma StepAccounts(s: State, st: Step, m: MsgId)
    requires Disjoint(s.box) && Accounted(s, m) && Enabled(s, st)
    ensures Accounted(Apply(s, st), m)
  {
    StepEffect(s, st, m);
    var c := ChangeOf(s, st);
    if Logged(c) == [] {
      assert s.log + [] == s.log;
    } else {
      EventAccounts(s.log, Logged(c)[0], Held(s.box, m), m);
    }
  }

  lemma EventAccounts(log: seq<Event>, e: Event, held: bool, m: MsgId)
    requires Account(log, held, m)
    requires Obtains(e, m) ==> !held
    requires e == Back(m) ==> held
    ensures Account(log + [e], if Obtains(e, m) then true else if e == Back(m) then false else held, m)
  {
    CountsGrow(log, e, m);
    AlternationGrows(log, e, m);
    if e == Back(m) || (!Obtains(e, m) && !held) {
      ReturnedGrows(log, e, m);
    }
  }

  lemma StepConserves(s: State, st: Step)
    requires Conserved(s) && Enabled(s, st)
    ensures Conserved(Apply(s, st))
    ensures forall m :: Known(s.box, m) ==> Known(Apply(s, st).box, m)
  {
    StepKeepsPlaces(s, st);
    forall m
      ensures Accounted(Apply(s, st), m)
    {
      StepAccounts(s, st, m);
    }
  }

  lemma InitConserved(s: State)
    requires Init(s)
    ensures Conserved(s)
  {
  }

  /** In every interleaving, with crashes anywhere: a delivered message is in
      exactly one directory; it was obtained, by a read or by
      finalize_from_inbox, once more than it came back exactly while it is in
      processing or archive; and it is never obtained twice without a return in
      between. */
  lemma {:induction false} Conservation(s: State, run: seq<Step>)
    requires Conserved(s) && Legal(s, run)
    ensures Conserved(Exec(s, run))
    ensures forall m :: Known(s.box, m) ==> InExactlyOnePlace(Exec(s, run).box, m)
    decreases |run|
  {
    if run == [] {
    } else {
      StepConserves(s, run[0]);
      var s' := Apply(s, run[0]);
      Conservation(s', run[1..]);
    }
  }
}
