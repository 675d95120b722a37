/** Runs that show what the claim protocol does not promise. */
module ClaimRuns {
  import opened MailboxFs
  import opened ClaimProtocol
  import opened ClaimSafety

  lemma {:induction false} Chain(s: State, first: seq<Step>, rest: seq<Step>)
    requires Legal(s, first) && Legal(Exec(s, first), rest)
    ensures Legal(s, first + rest) && Exec(s, first + rest) == Exec(Exec(s, first), rest)
    ensures DisciplinedRun(s, first) && DisciplinedRun(Exec(s, first), rest) ==> DisciplinedRun(s, first + rest)
    decreases |first|
  {
    if first == [] {
      assert first + rest == rest;
    } else {
      assert (first + rest)[1..] == first[1..] + rest;
      Chain(Apply(s, first[0]), first[1..], rest);
    }
  }

  lemma Steps3(s: State, a: Step, b: Step, c: Step)
    requires Enabled(s, a) && Enabled(Apply(s, a), b) && Enabled(Apply(Apply(s, a), b), c)
    ensures Legal(s, [a, b, c]) && Exec(s, [a, b, c]) == Apply(Apply(Apply(s, a), b), c)
    ensures Disciplined(s, a) && Disciplined(Apply(s, a), b) && Disciplined(Apply(Apply(s, a), b), c)
      ==> DisciplinedRun(s, [a, b, c])
  {
    var s2 := Apply(Apply(s, a), b);
    assert [a, b, c] == [a] + ([b] + ([c] + []));
    Prepend(s2, c, []);
    Prepend(Apply(s, a), b, [c] + []);
    Prepend(s, a, [b] + ([c] + []));
  }

  lemma Turns2(s: State, t: Tid, op: Op) returns (run: seq<Step>)
    requires Enabled(s, Begin(t, op)) && CanGo(Apply(s, Begin(t, op)), t)
    ensures run == [Begin(t, op), Go(t)]
    ensures Legal(s, run) && Exec(s, run) == Advance(Apply(s, Begin(t, op)), t)
  {
    run := [Begin(t, op)] + ([Go(t)] + []);
    Prepend(Apply(s, Begin(t, op)), Go(t), []);
    Prepend(s, Begin(t, op), [Go(t)] + []);
  }

  lemma OneMore(s: State, t: Tid, run: seq<Step>) returns (run': seq<Step>)
    requires Legal(s, run) && CanGo(Exec(s, run), t)
    ensures run' == run + [Go(t)]
    ensures Legal(s, run') && Exec(s, run') == Advance(Exec(s, run), t)
  {
    run' := run + ([Go(t)] + []);
    Prepend(Exec(s, run), Go(t), []);
    Chain(s, run, [Go(t)] + []);
  }

  lemma Extend(s: State, run: seq<Step>, st: Step) returns (run': seq<Step>)
    requires Legal(s, run) && Enabled(Exec(s, run), st)
    ensures run' == run + [st]
    ensures Legal(s, run') && Exec(s, run') == Apply(Exec(s, run), st)
    ensures DisciplinedRun(s, run) && Disciplined(Exec(s, run), st) ==> DisciplinedRun(s, run')
  {
    run' := run + ([st] + []);
    Prepend(Exec(s, run), st, []);
    Chain(s, run, [st] + []);
  }

  /** About to remove the claim file k, whoever published it. */
  predicate Unlinks(pc: Pc, k: ClaimKey) {
    pc == ReapUnlinking(k) || pc == RenewHealing(k) || pc == ReleaseUnlinking(k)
  }

  lemma OneMoves(s: State, s': State, t: Tid, pc: Pc)
    requires s'.threads == s.threads[t := pc]
    ensures forall u :: PcOf(s', u) == if u == t then pc else PcOf(s, u)
  {
  }

  lemma PublishStep(s: State, t: Tid)
    requires PcOf(s, t).Stamped? && PcOf(s, t).key !in s.box.claims
    ensures var pc := PcOf(s, t);
      CanGo(s, t) && Advance(s, t) == At(s, t, Linked(pc.key, pc.at)).(box := s.box.(claims := s.box.claims[pc.key := pc.at]))
  {
  }

  lemma UnlinkStep(s: State, t: Tid, k: ClaimKey)
    requires Unlinks(PcOf(s, t), k)
    ensures CanGo(s, t) && Advance(s, t) == At(s, t, Idle).(box := Unlink(s.box, k))
  {
  }

  lemma MoveStep(s: State, t: Tid)
    requires PcOf(s, t).Linked? && PcOf(s, t).key.msg in s.box.inbox
    ensures var k := PcOf(s, t).key;
      CanGo(s, t) && Advance(s, t) == At(s, t, Idle).(box := Take(s.box, k.msg), holder := s.holder[k.msg := k.owner],
                                                     log := s.log + [Got(k.msg, k.owner)])
  {
  }

  /** From every state where a read is about to publish a claim while a reaper,
      a renewal or an interrupted release is about to unlink it, three steps
      strand the message without a claim. */
  lemma PublishUnderLockBreaks(s: State, reader: Tid, other: Tid) returns (run: seq<Step>)
    requires reader != other
    requires PcOf(s, reader).Stamped? && PcOf(s, reader).key !in s.box.claims
    requires PcOf(s, reader).key.msg in s.box.inbox
    requires Unlinks(PcOf(s, other), PcOf(s, reader).key)
    ensures run == [Go(reader), Go(other), Go(reader)]
    ensures Legal(s, run) && !HolderHasClaim(Exec(s, run))
  {
    var k := PcOf(s, reader).key;
    PublishStep(s, reader);
    var s1 := Advance(s, reader);
    UnlinkStep(s1, other, k);
    var s2 := Advance(s1, other);
    MoveStep(s2, reader);
    Steps3(s, Go(reader), Go(other), Go(reader));
    run := [Go(reader), Go(other), Go(reader)];
    var s3 := Exec(s, run);
    assert k.msg in s3.box.processing && ClaimKey(k.msg, s3.holder[k.msg]) == k;
  }

  // ---- when a claim may be published ----

  ghost predicate NoSolo(s: State) {
    forall t :: !Solo(PcOf(s, t))
  }

  /** A read about to publish a claim for a message still in the inbox. */
  ghost predicate AboutToPublish(s: State, reader: Tid) {
    PcOf(s, reader).Stamped? && PcOf(s, reader).key !in s.box.claims && PcOf(s, reader).key.msg in s.box.inbox
  }

  /** The reader publishes, and the run goes on with discipline. */
  ghost predicate PublishesFirst(s: State, reader: Tid, run: seq<Step>) {
    && Legal(s, run) && run != [] && run[0] == Go(reader)
    && DisciplinedRun(Apply(s, run[0]), run[1..])
  }

  /** A read that published k moves its message while another thread unlinks k. */
  lemma UnlinkedInBetween(s: State, reader: Tid, other: Tid, past: seq<Step>) returns (run: seq<Step>)
    requires reader != other && Legal(s, past) && DisciplinedRun(s, past)
    requires var s1 := Exec(s, past);
      && NoSolo(s1) && PcOf(s1, reader).Linked? && PcOf(s1, reader).key.msg in s1.box.inbox
      && Unlinks(PcOf(s1, other), PcOf(s1, reader).key)
    ensures Legal(s, run) && DisciplinedRun(s, run) && !ClaimsSound(Exec(s, run))
  {
    var s1 := Exec(s, past);
    var k := PcOf(s1, reader).key;
    MoveStep(s1, reader);
    run := Extend(s, past, Go(reader));
    var s2 := Exec(s, run);
    OneMoves(s1, s2, reader, Idle);
    UnlinkStep(s2, other, k);
    run := Extend(s, run, Go(other));
    var s3 := Exec(s, run);
    assert k.msg in s3.box.processing && ClaimKey(k.msg, s3.holder[k.msg]) == k && k !in s3.box.claims;
  }

  /** The reader has published and waits; `other` is on its way to unlink. */
  ghost predicate Waits(s: State, reader: Tid, other: Tid, k: ClaimKey) {
    && NoSolo(s) && Disjoint(s.box) && k.msg in s.box.inbox
    && PcOf(s, reader).Linked? && PcOf(s, reader).key == k
    && Committed(PcOf(s, other)) && PcOf(s, other).key == k && !PcOf(s, other).ReapMoving?
  }

  lemma RenewalWrites(s: State, reader: Tid, other: Tid, k: ClaimKey)
    requires reader != other && Waits(s, reader, other, k) && PcOf(s, other).RenewWriting?
    ensures Disciplined(s, Go(other))
    ensures var s' := Apply(s, Go(other));
      Waits(s', reader, other, k) && PcOf(s', other).RenewVerifying?
  {
    ThreadFrame(s, Go(other));
    StepKeepsPlaces(s, Go(other));
  }

  lemma NextIsUnlink(s: State, reader: Tid, other: Tid, k: ClaimKey)
    requires reader != other && Waits(s, reader, other, k)
    requires PcOf(s, other).RenewVerifying? || PcOf(s, other).ReapLocked?
    ensures CanGo(s, other) && Disciplined(s, Go(other))
    ensures var s' := Apply(s, Go(other));
      NoSolo(s') && PcOf(s', reader) == PcOf(s, reader) && s'.box == s.box && Unlinks(PcOf(s', other), k)
  {
    ThreadFrame(s, Go(other));
    assert InExactlyOnePlace(s.box, k.msg);
  }

  /** What a committed reaper or renewal does next while the message stays in
      the inbox: it comes to unlink the claim. */
  lemma CommittedUnlinks(s: State, reader: Tid, other: Tid, k: ClaimKey) returns (run: seq<Step>)
    requires reader != other && Waits(s, reader, other, k)
    ensures Legal(s, run) && DisciplinedRun(s, run)
    ensures var s1 := Exec(s, run);
      && NoSolo(s1) && PcOf(s1, reader).Linked? && PcOf(s1, reader).key == k && k.msg in s1.box.inbox
      && Unlinks(PcOf(s1, other), k)
  {
    run := [];
    if PcOf(s, other).RenewWriting? {
      RenewalWrites(s, reader, other, k);
      run := Extend(s, run, Go(other));
    }
    var s1 := Exec(s, run);
    if PcOf(s1, other).RenewVerifying? || PcOf(s1, other).ReapLocked? {
      NextIsUnlink(s1, reader, other, k);
      run := Extend(s, run, Go(other));
    }
  }

  lemma PublishDisturbedBreaks(s: State, reader: Tid, other: Tid) returns (run: seq<Step>)
    requires Safe(s) && NoSolo(s) && AboutToPublish(s, reader) && reader != other
    requires Committed(PcOf(s, other)) && PcOf(s, other).key == PcOf(s, reader).key
    ensures PublishesFirst(s, reader, run) && !ClaimsSound(Exec(s, run))
  {
    var s1 := Apply(s, Go(reader));
    ThreadFrame(s, Go(reader));
    StepKeepsPlaces(s, Go(reader));
    var rest: seq<Step> := [];
    if PcOf(s, other).ReapMoving? {
      assert ReaderKnows(s, PcOf(s, reader)) && ReaperKnows(s, PcOf(s, other));
      assert PcOf(s1, other).ReapMoving? && s1.box.claims[PcOf(s1, other).key] >= PcOf(s1, other).started - 3570;
    } else {
      rest := CommittedUnlinks(s1, reader, other, PcOf(s, reader).key);
      rest := UnlinkedInBetween(s1, reader, other, rest);
    }
    Prepend(s, Go(reader), rest);
    run := [Go(reader)] + rest;
    assert run[1..] == rest;
  }

  /** The publishing rule is exact: from a state the invariant describes, all
      ways to go on after the publication are safe if and only if no other
      thread is committed to act on the claim. */
  lemma PublishSafeExactly(s: State, reader: Tid)
    requires Safe(s) && NoSolo(s) && AboutToPublish(s, reader)
    ensures (forall run :: PublishesFirst(s, reader, run) ==> ClaimsSound(Exec(s, run)))
       <==> Undisturbed(s, reader, PcOf(s, reader).key)
  {
    if Undisturbed(s, reader, PcOf(s, reader).key) {
      forall run | PublishesFirst(s, reader, run) ensures ClaimsSound(Exec(s, run)) {
        StepSafe(s, Go(reader));
        RunSafe(Apply(s, Go(reader)), run[1..]);
        SafeIsSound(Exec(s, run));
      }
    } else {
      var other :| other != reader && Committed(PcOf(s, other)) && PcOf(s, other).key == PcOf(s, reader).key;
      var run := PublishDisturbedBreaks(s, reader, other);
    }
  }

  // ---- a recycled fresh claim ----

  /** Threads 0, 1 and 2 stand at a, b and c, nobody else is active, and the
      message is in processing or in the inbox. */
  ghost predicate Scene(s: State, m: MsgId, processing: bool, a: Pc, b: Pc, c: Pc) {
    && PcOf(s, 0) == a && PcOf(s, 1) == b && PcOf(s, 2) == c
    && (forall t :: t > 2 ==> PcOf(s, t).Idle?)
    && (m in s.box.processing <==> processing) && (m in s.box.inbox <==> !processing)
  }

  lemma ReleaseMove(s: State, p: ClaimKey, b: Pc) returns (s': State)
    requires Scene(s, p.msg, true, ReleaseMoving(p, true), b, Idle) && ClaimsOn(s.box, p.msg) == {p} && !Solo(b)
    ensures Enabled(s, Go(0)) && Disciplined(s, Go(0)) && s' == Apply(s, Go(0))
    ensures Scene(s', p.msg, false, ReleaseUnlinking(p), b, Idle) && ClaimsOn(s'.box, p.msg) == {p}
    ensures s'.now == s.now && s'.log == s.log + [Back(p.msg)]
  {
    s' := Apply(s, Go(0));
    ThreadFrame(s, Go(0));
    assert ClaimsOn(s'.box, p.msg) == ClaimsOn(s.box, p.msg);
  }

  lemma ReleaseEnd(s: State, p: ClaimKey, b: Pc) returns (s': State)
    requires Scene(s, p.msg, false, ReleaseUnlinking(p), b, Idle) && ClaimsOn(s.box, p.msg) == {p} && !Solo(b)
    ensures Enabled(s, Go(0)) && Disciplined(s, Go(0)) && s' == Apply(s, Go(0))
    ensures Scene(s', p.msg, false, Idle, b, Idle) && ClaimsOn(s'.box, p.msg) == {}
    ensures s'.now == s.now && s'.log == s.log
  {
    s' := Apply(s, Go(0));
    ThreadFrame(s, Go(0));
    assert ClaimsOn(s'.box, p.msg) == ClaimsOn(s.box, p.msg) - {p};
  }

  /** Thread 0 releases the message for p. */
  lemma ReleaseAct(s: State, p: ClaimKey, b: Pc) returns (run: seq<Step>)
    requires Scene(s, p.msg, true, Idle, b, Idle) && ClaimsOn(s.box, p.msg) == {p} && !Solo(b)
    ensures Legal(s, run) && DisciplinedRun(s, run)
    ensures
      && Scene(Exec(s, run), p.msg, false, Idle, b, Idle)
      && ClaimsOn(Exec(s, run).box, p.msg) == {}
      && Exec(s, run).now == s.now && Exec(s, run).log == s.log + [Back(p.msg)]
  {
    var s1 := Apply(s, Begin(0, BeginRelease(p)));
    ThreadFrame(s, Begin(0, BeginRelease(p)));
    var s2 := ReleaseMove(s1, p, b);
    var s3 := ReleaseEnd(s2, p, b);
    Steps3(s, Begin(0, BeginRelease(p)), Go(0), Go(0));
    run := [Begin(0, BeginRelease(p)), Go(0), Go(0)];
  }

  /** Thread 2 reads the message for q. */
  lemma ReadAct(s: State, q: ClaimKey, b: Pc) returns (run: seq<Step>)
    requires Scene(s, q.msg, false, Idle, b, Idle) && ClaimsOn(s.box, q.msg) == {} && !Solo(b) && !Committed(b)
    ensures Legal(s, run) && DisciplinedRun(s, run)
    ensures
      && Scene(Exec(s, run), q.msg, true, Idle, b, Idle)
      && ClaimsOn(Exec(s, run).box, q.msg) == {q} && Exec(s, run).box.claims[q] == s.now
      && Exec(s, run).now == s.now && Exec(s, run).log == s.log + [Got(q.msg, q.owner)]
  {
    var pick := Begin(2, BeginRead(q.msg, q.owner));
    var s1 := Apply(s, pick);
    ThreadFrame(s, pick);
    assert Scene(s1, q.msg, false, Idle, b, Stamped(q, s.now));
    var s2 := LinkAct(s1, q, b);
    var s3 := Apply(s2, Go(2));
    ThreadFrame(s2, Go(2));
    assert ClaimsOn(s3.box, q.msg) == ClaimsOn(s2.box, q.msg);
    Steps3(s, pick, Go(2), Go(2));
    run := [pick, Go(2), Go(2)];
  }

  lemma LinkAct(s: State, q: ClaimKey, b: Pc) returns (s': State)
    requires Scene(s, q.msg, false, Idle, b, Stamped(q, s.now)) && ClaimsOn(s.box, q.msg) == {} && !Solo(b) && !Committed(b)
    ensures Enabled(s, Go(2)) && Disciplined(s, Go(2)) && s' == Apply(s, Go(2))
    ensures Scene(s', q.msg, false, Idle, b, Linked(q, s.now))
    ensures ClaimsOn(s'.box, q.msg) == {q} && s'.box.claims[q] == s.now && s'.now == s.now && s'.log == s.log
  {
    assert q !in ClaimsOn(s.box, q.msg);
    s' := Apply(s, Go(2));
    ThreadFrame(s, Go(2));
    assert ClaimsOn(s'.box, q.msg) == ClaimsOn(s.box, q.msg) + {q};
  }

  /** Thread 1 remembers p's vanished old claim and recycles q's message. */
  lemma ReapAct(s: State, p: ClaimKey, q: ClaimKey, b: Pc) returns (run: seq<Step>)
    requires b.ReapSeen? && b.key == p && b.seen < Cutoff(b.started) && b.sweep && b.started <= s.now
    requires Scene(s, p.msg, true, Idle, b, Idle) && ClaimsOn(s.box, p.msg) == {q} && p != q && q.msg == p.msg
    ensures Legal(s, run) && DisciplinedRun(s, run)
    ensures
      && Scene(Exec(s, run), p.msg, false, Idle, ReapUnlinking(p), Idle)
      && Exec(s, run).box.claims == s.box.claims
      && Exec(s, run).now == s.now && Exec(s, run).log == s.log + [Back(p.msg)]
  {
    assert p !in ClaimsOn(s.box, p.msg);
    var s1 := ReapLooksAgain(s, p, b);
    var s2 := ReapDecides(s1, p, b);
    var s3 := ReapGivesBack(s2, p, b);
    Steps3(s, Go(1), Go(1), Go(1));
    run := [Go(1), Go(1), Go(1)];
  }

  lemma ReapGivesBack(s: State, p: ClaimKey, b: Pc) returns (s': State)
    requires b.ReapSeen? && Scene(s, p.msg, true, Idle, ReapMoving(p, b.seen, b.started), Idle)
    ensures Enabled(s, Go(1)) && Disciplined(s, Go(1)) && s' == Apply(s, Go(1))
    ensures Scene(s', p.msg, false, Idle, ReapUnlinking(p), Idle)
    ensures s'.box.claims == s.box.claims && s'.now == s.now && s'.log == s.log + [Back(p.msg)]
  {
    s' := Apply(s, Go(1));
    OneMoves(s, s', 1, ReapUnlinking(p));
  }

  lemma ReapLooksAgain(s: State, p: ClaimKey, b: Pc) returns (s': State)
    requires b.ReapSeen? && b.key == p && b.sweep && p !in s.box.claims
    requires Scene(s, p.msg, true, Idle, b, Idle)
    ensures Enabled(s, Go(1)) && Disciplined(s, Go(1)) && s' == Apply(s, Go(1))
    ensures Scene(s', p.msg, true, Idle, ReapLocked(p, b.seen, b.started, true), Idle)
    ensures s'.box == s.box && s'.now == s.now && s'.log == s.log
  {
    s' := Apply(s, Go(1));
    OneMoves(s, s', 1, ReapLocked(p, b.seen, b.started, true));
  }

  lemma ReapDecides(s: State, p: ClaimKey, b: Pc) returns (s': State)
    requires b.ReapSeen? && b.seen < Cutoff(b.started)
    requires Scene(s, p.msg, true, Idle, ReapLocked(p, b.seen, b.started, true), Idle)
    ensures Enabled(s, Go(1)) && Disciplined(s, Go(1)) && s' == Apply(s, Go(1))
    ensures Scene(s', p.msg, true, Idle, ReapMoving(p, b.seen, b.started), Idle)
    ensures s'.box == s.box && s'.now == s.now && s'.log == s.log
  {
    s' := Apply(s, Go(1));
    OneMoves(s, s', 1, ReapMoving(p, b.seen, b.started));
  }

  lemma LookAct(s: State, p: ClaimKey) returns (b: Pc)
    requires Scene(s, p.msg, true, Idle, Idle, Idle) && p in s.box.claims
    ensures b == ReapSeen(p, s.box.claims[p], s.now, true)
    ensures var look := Begin(1, BeginReap(p, s.now, true));
      && Enabled(s, look) && Disciplined(s, look)
      && Scene(Apply(s, look), p.msg, true, Idle, b, Idle)
      && Apply(s, look).box == s.box && Apply(s, look).now == s.now && Apply(s, look).log == s.log
  {
    b := ReapSeen(p, s.box.claims[p], s.now, true);
    ThreadFrame(s, Begin(1, BeginReap(p, s.now, true)));
  }

  /** From every quiet state where p's sole claim on a message is over 3570 s
      old, a disciplined run with one reaper takes the message back from a
      reader q whose sole claim is brand new: the sweep remembers a claim that
      vanished. LeaseKept therefore asks that nobody is already on the way. */
  lemma VanishedClaimRecyclesFreshOne(s: State, p: ClaimKey, q: ClaimKey) returns (run: seq<Step>)
    requires Scene(s, p.msg, true, Idle, Idle, Idle) && ClaimsOn(s.box, p.msg) == {p}
    requires s.box.claims[p] < s.now - 3570 && q.msg == p.msg && q != p
    ensures Legal(s, run) && DisciplinedRun(s, run)
    ensures var s' := Exec(s, run);
      && Scene(s', p.msg, false, Idle, ReapUnlinking(p), Idle)
      && ClaimsOn(s'.box, p.msg) == {q} && s'.box.claims[q] == s'.now == s.now
      && s'.log == s.log + [Back(p.msg), Got(q.msg, q.owner), Back(p.msg)]
  {
    assert p in ClaimsOn(s.box, p.msg);
    var look := Begin(1, BeginReap(p, s.now, true));
    var b := LookAct(s, p);
    var s1 := Apply(s, look);
    assert ClaimsOn(s1.box, p.msg) == ClaimsOn(s.box, p.msg);
    run := RecycleAct(s1, p, q, b);
    Prepend(s, look, run);
    run := [look] + run;
  }

  lemma RecycleAct(s: State, p: ClaimKey, q: ClaimKey, b: Pc) returns (run: seq<Step>)
    requires b.ReapSeen? && b.key == p && b.seen < Cutoff(b.started) && b.sweep && b.started <= s.now
    requires Scene(s, p.msg, true, Idle, b, Idle) && ClaimsOn(s.box, p.msg) == {p} && q.msg == p.msg && q != p
    ensures Legal(s, run) && DisciplinedRun(s, run)
    ensures var s' := Exec(s, run);
      && Scene(s', p.msg, false, Idle, ReapUnlinking(p), Idle)
      && ClaimsOn(s'.box, p.msg) == {q} && s'.box.claims[q] == s'.now == s.now
      && s'.log == s.log + [Back(p.msg), Got(q.msg, q.owner), Back(p.msg)]
  {
    var r2 := ReleaseAct(s, p, b);
    var s2 := Exec(s, r2);
    var r3 := ReadAct(s2, q, b);
    var s3 := Exec(s2, r3);
    var r4 := ReapAct(s3, p, q, b);
    Chain(s2, r3, r4);
    Chain(s, r2, r3 + r4);
    run := r2 + (r3 + r4);
    assert q in ClaimsOn(s3.box, p.msg);
    assert ClaimsOn(Exec(s3, r4).box, p.msg) == ClaimsOn(s3.box, p.msg);
  }

  /** From the empty mailbox: a message is delivered, thread 2 reads it for p,
      and p's claim grows older than 3570 s. */
  lemma OldClaimReachable(s0: State, p: ClaimKey, f: File) returns (run: seq<Step>)
    requires Init(s0)
    ensures Legal(s0, run) && DisciplinedRun(s0, run)
    ensures var s := Exec(s0, run);
      && Scene(s, p.msg, true, Idle, Idle, Idle) && ClaimsOn(s.box, p.msg) == {p}
      && s.box.claims[p] < s.now - 3570 && s.log == [Got(p.msg, p.owner)]
  {
    run := Extend(s0, [], Deliver(p.msg, f));
    var s1 := Exec(s0, run);
    assert Scene(s1, p.msg, false, Idle, Idle, Idle) && ClaimsOn(s1.box, p.msg) == {};
    var read := ReadAct(s1, p, Idle);
    Chain(s0, run, read);
    run := run + read;
    var s2 := Exec(s0, run);
    assert p in ClaimsOn(s2.box, p.msg);
    run := Extend(s0, run, Tick(3571));
    var s3 := Exec(s0, run);
    assert forall t :: PcOf(s3, t) == PcOf(s2, t);
    assert ClaimsOn(s3.box, p.msg) == ClaimsOn(s2.box, p.msg);
  }

  /** The whole scenario from the empty mailbox, with discipline and one reaper. */
  lemma FreshClaimRecycledReachable(s0: State, p: ClaimKey, q: ClaimKey, f: File) returns (run: seq<Step>)
    requires Init(s0) && q.msg == p.msg && q != p
    ensures Legal(s0, run) && DisciplinedRun(s0, run)
    ensures var s := Exec(s0, run);
      && Scene(s, p.msg, false, Idle, ReapUnlinking(p), Idle)
      && ClaimsOn(s.box, p.msg) == {q} && s.box.claims[q] == s.now
      && s.log == [Got(p.msg, p.owner), Back(p.msg), Got(q.msg, q.owner), Back(p.msg)]
  {
    run := OldClaimReachable(s0, p, f);
    var more := VanishedClaimRecyclesFreshOne(Exec(s0, run), p, q);
    Chain(s0, run, more);
    run := run + more;
  }

  /** ... and if p's owner then publishes a claim while the reaper is still
      committed to drop it, a message ends in processing without the claim of
      its reader: from the empty mailbox, with one undisciplined step. */
  lemma PublishUnderLockReachable(s0: State, p: ClaimKey, q: ClaimKey, f: File) returns (run: seq<Step>)
    requires Init(s0) && q.msg == p.msg && q != p
    ensures Legal(s0, run) && !HolderHasClaim(Exec(s0, run))
  {
    var r1 := FreshClaimRecycledReachable(s0, p, q, f);
    var s1 := Exec(s0, r1);
    assert p !in ClaimsOn(s1.box, p.msg);
    var pick := Begin(0, BeginRead(p.msg, p.owner));
    var s2 := Apply(s1, pick);
    var r2 := PublishUnderLockBreaks(s2, 0, 1);
    Prepend(s1, pick, r2);
    Chain(s0, r1, [pick] + r2);
    run := r1 + ([pick] + r2);
  }

  /** An idle reaper reads a claim file, locks it and reads it again. */
  lemma ReapLooks(s: State, t: Tid, k: ClaimKey, sweep: bool) returns (run: seq<Step>)
    requires PcOf(s, t).Idle? && LockFree(s, k) && k in s.box.claims
    requires sweep || s.box.claims[k] < Cutoff(s.now)
    ensures Legal(s, run) && Exec(s, run) == At(s, t, ReapLocked(k, s.box.claims[k], s.now, sweep))
  {
    ThreadFrame(s, Begin(t, BeginReap(k, s.now, sweep)));
    run := Turns2(s, t, BeginReap(k, s.now, sweep));
    assert Exec(s, run).threads == At(s, t, ReapLocked(k, s.box.claims[k], s.now, sweep)).threads;
  }

  /** An idle reaper sweeps an orphan claim older than the gate. */
  lemma SweepAct(s: State, k: ClaimKey, reaper: Tid) returns (run: seq<Step>)
    requires PcOf(s, reaper).Idle? && k.msg !in s.box.processing && LockFree(s, k)
    requires k in s.box.claims && s.box.claims[k] < OrphanGate(s.now)
    ensures Legal(s, run) && Exec(s, run) == At(s, reaper, Idle).(box := Unlink(s.box, k))
  {
    run := ReapLooks(s, reaper, k, true);
    run := OneMore(s, reaper, run);
    run := OneMore(s, reaper, run);
    assert Exec(s, run).threads == At(s, reaper, Idle).threads;
  }

  /** From every state where a read has held its published claim for longer
      than the orphan gate, one sweep strands the message without a claim. */
  lemma LateReadBreaks(s: State, reader: Tid, reaper: Tid)
    requires reader != reaper && PcOf(s, reaper).Idle?
    requires PcOf(s, reader).Linked? && s.now > PcOf(s, reader).at + ORPHAN_AGE_GATE_S
    requires var k := PcOf(s, reader).key;
      k.msg in s.box.inbox && k.msg !in s.box.processing && LockFree(s, k)
      && k in s.box.claims && s.box.claims[k] == PcOf(s, reader).at
    ensures exists run :: Legal(s, run) && !HolderHasClaim(Exec(s, run))
  {
    var k := PcOf(s, reader).key;
    var run := SweepAct(s, k, reaper);
    run := OneMore(s, reader, run);
    var s' := Exec(s, run);
    assert k.msg in s'.box.processing && ClaimKey(k.msg, s'.holder[k.msg]) == k;
  }

  /** Thread t, past its second look at an expired claim, recycles it. */
  lemma RecycleExpired(s: State, t: Tid, k: ClaimKey) returns (run: seq<Step>)
    requires PcOf(s, t).Idle? && LockFree(s, k) && k in s.box.claims && s.box.claims[k] < Cutoff(s.now)
    requires k.msg in s.box.processing
    ensures Legal(s, run)
    ensures var s' := Exec(s, run);
      && s'.box == Unlink(GiveBack(s.box, k.msg), k) && s'.now == s.now && s'.holder == s.holder
      && s'.log == s.log + [Back(k.msg)] && forall u :: PcOf(s', u) == PcOf(s, u)
  {
    run := ReapLooks(s, t, k, true);
    run := OneMore(s, t, run);
    run := OneMore(s, t, run);
    run := OneMore(s, t, run);
  }

  lemma ReadsAlone(s: State, t: Tid, k: ClaimKey) returns (run: seq<Step>)
    requires PcOf(s, t).Idle? && k !in s.box.claims && k.msg in s.box.inbox
    ensures Legal(s, run)
    ensures var s' := Exec(s, run);
      && s'.box == Take(s.box.(claims := s.box.claims[k := s.now]), k.msg)
      && s'.holder == s.holder[k.msg := k.owner] && s'.log == s.log + [Got(k.msg, k.owner)]
      && forall u :: PcOf(s', u) == PcOf(s, u)
  {
    run := Turns2(s, t, BeginRead(k.msg, k.owner));
    run := OneMore(s, t, run);
  }

  /** Behind the back of a finalize for p, a reaper recycles the message and q's
      owner reads it; then the finalize moves it. */
  lemma FinalizeTooLate(s: State, p: ClaimKey, q: ClaimKey) returns (run: seq<Step>)
    requires Scene(s, p.msg, true, FinalMoving(p), Idle, Idle) && p in s.box.claims && q !in s.box.claims
    requires s.box.claims[p] < Cutoff(s.now) && q.msg == p.msg
    ensures Legal(s, run)
    ensures var s' := Exec(s, run);
      && p.msg in s'.box.archive && p.msg !in s'.box.processing && PcOf(s', 0) == FinalUnlinking(p)
      && s'.box.claims == (s.box.claims - {p})[q := s.now]
      && p.msg in s'.holder && s'.holder[p.msg] == q.owner
      && s'.log == s.log + [Back(p.msg), Got(q.msg, q.owner)]
  {
    run := RecycledAndRead(s, p, q);
    FinalMoves(Exec(s, run), 0, p);
    run := OneMore(s, 0, run);
  }

  lemma RecycledAndRead(s: State, p: ClaimKey, q: ClaimKey) returns (run: seq<Step>)
    requires Scene(s, p.msg, true, FinalMoving(p), Idle, Idle) && p in s.box.claims && q !in s.box.claims
    requires s.box.claims[p] < Cutoff(s.now) && q.msg == p.msg
    ensures Legal(s, run)
    ensures var s' := Exec(s, run);
      && p.msg in s'.box.processing && PcOf(s', 0) == FinalMoving(p)
      && s'.box.claims == (s.box.claims - {p})[q := s.now]
      && p.msg in s'.holder && s'.holder[p.msg] == q.owner
      && s'.log == s.log + [Back(p.msg), Got(q.msg, q.owner)]
  {
    run := RecycleExpired(s, 1, p);
    var read := ReadsAlone(Exec(s, run), 2, q);
    Chain(s, run, read);
    run := run + read;
  }

  lemma FinalMoves(s: State, t: Tid, p: ClaimKey)
    requires PcOf(s, t) == FinalMoving(p) && p.msg in s.box.processing
    ensures CanGo(s, t) && Advance(s, t) == At(s, t, FinalUnlinking(p)).(box := Retire(s.box, p.msg))
  {
  }

  /** A finalize that lets a reaper and a reader in between its check and its
      move archives the other reader's message: from every quiet state where
      p's sole claim is over 3570 s old. */
  lemma InterruptedFinalizeBreaks(s: State, p: ClaimKey, q: ClaimKey) returns (run: seq<Step>)
    requires Scene(s, p.msg, true, Idle, Idle, Idle) && ClaimsOn(s.box, p.msg) == {p}
    requires s.box.claims[p] < s.now - 3570 && q.msg == p.msg && q != p
    ensures Legal(s, run)
    ensures var s' := Exec(s, run);
      && p.msg in s'.box.archive && p.msg !in s'.box.processing && PcOf(s', 0) == FinalUnlinking(p)
      && p.msg in s'.holder && s'.holder[p.msg] == q.owner && q in s'.box.claims
      && s'.log == s.log + [Back(p.msg), Got(q.msg, q.owner)]
  {
    assert p in ClaimsOn(s.box, p.msg) && q !in ClaimsOn(s.box, p.msg);
    var begin := Begin(0, BeginFinalize(p));
    var s1 := Apply(s, begin);
    OneMoves(s, s1, 0, FinalMoving(p));
    run := FinalizeTooLate(s1, p, q);
    Prepend(s, begin, run);
    run := [begin] + run;
  }
}
