/** Each operation of the single-threaded store is an uninterrupted run of one
    thread of the claim protocol, so what holds of every run of the protocol
    holds of the store. */
module StoreRefinement {
  import opened MailboxFs
  import opened ClaimProtocol
  import opened ClaimSafety
  import opened ClaimRuns
  import opened MailboxStore

  /** Thread t is free to act and no claim lock is held. */
  ghost predicate Ready(s: State, t: Tid) {
    PcOf(s, t).Idle? && forall u :: !Locks(PcOf(s, u))
  }

  /** A run takes the box to b and leaves thread t idle. */
  ghost predicate Simulated(s: State, t: Tid, run: seq<Step>, b: Box) {
    Legal(s, run) && Exec(s, run).box == b && PcOf(Exec(s, run), t).Idle? && Exec(s, run).now == s.now
  }

  /** finalize() that succeeds. */
  lemma FinalizeSimulated(s: State, t: Tid, m: MsgId, o: Owner) returns (run: seq<Step>)
    requires Ready(s, t) && Finalized(s.box, m, o).0.Done?
    ensures Simulated(s, t, run, Finalized(s.box, m, o).1)
  {
    var k := ClaimKey(m, o);
    SoleElement(ClaimsOn(s.box, m), k);
    run := Turns2(s, t, BeginFinalize(k));
    run := OneMore(s, t, run);
  }

  /** finalize_from_inbox() that succeeds. */
  lemma DirectSimulated(s: State, t: Tid, m: MsgId, o: Owner) returns (run: seq<Step>)
    requires Ready(s, t) && FinalizedDirect(s.box, m, o).0.Done?
    ensures Simulated(s, t, run, FinalizedDirect(s.box, m, o).1)
  {
    run := Turns2(s, t, BeginDirect(m, o));
  }

  /** release() that succeeds, with or without a claim file. */
  lemma ReleaseSimulated(s: State, t: Tid, m: MsgId, o: Owner) returns (run: seq<Step>)
    requires Ready(s, t) && Released(s.box, m, o).0.Done?
    ensures Simulated(s, t, run, Released(s.box, m, o).1)
  {
    var k := ClaimKey(m, o);
    if ClaimsOn(s.box, m) != {} {
      SoleElement(ClaimsOn(s.box, m), k);
      run := Turns2(s, t, BeginRelease(k));
      run := OneMore(s, t, run);
    } else {
      assert k !in ClaimsOn(s.box, m);
      assert s.box.claims - {k} == s.box.claims;
      run := Turns2(s, t, BeginRelease(k));
    }
  }

  /** renew_claim() that succeeds. */
  lemma RenewSimulated(s: State, t: Tid, m: MsgId, o: Owner) returns (run: seq<Step>)
    requires Ready(s, t) && Renewed(s.box, m, o, s.now).0
    ensures Simulated(s, t, run, Renewed(s.box, m, o, s.now).1)
  {
    var k := ClaimKey(m, o);
    assert k in ClaimsOn(s.box, m);
    SoleElement(ClaimsOn(s.box, m), k);
    var s1 := Apply(s, Begin(t, BeginRenew(k)));
    ThreadFrame(s, Begin(t, BeginRenew(k)));
    run := Turns2(s, t, BeginRenew(k));
    run := OneMore(s, t, run);
    run := OneMore(s, t, run);
  }

  /** An attempt of read() that obtains the message or quarantines it. */
  lemma ReadSimulated(s: State, t: Tid, tmp: TmpDir, agent: Owner, roster: set<Owner>, n: MsgId, o: Owner, nonce: int)
    returns (run: seq<Step>)
    requires Ready(s, t) && n in s.box.inbox
    requires var r := Try(s.box, tmp, agent, roster, n, o, nonce, s.now); r.2.Won? || !Acceptable(s.box.inbox[n], agent, roster, n)
    ensures Simulated(s, t, run, Try(s.box, tmp, agent, roster, n, o, nonce, s.now).0)
  {
    if !Acceptable(s.box.inbox[n], agent, roster, n) {
      run := Turns2(s, t, BeginRefuse(n));
    } else {
      run := Turns2(s, t, BeginRead(n, o));
      run := OneMore(s, t, run);
    }
  }

  /** A reaper that has decided runs to its end. */
  lemma ReapTail(s: State, t: Tid) returns (run: seq<Step>)
    requires PcOf(s, t).Idle? || PcOf(s, t).ReapMoving? || PcOf(s, t).ReapUnlinking?
    requires PcOf(s, t).ReapMoving? ==> PcOf(s, t).key.msg in s.box.processing
    ensures Simulated(s, t, run,
              match PcOf(s, t)
              case ReapMoving(k, _, _) => Unlink(GiveBack(s.box, k.msg), k)
              case ReapUnlinking(k) => Unlink(s.box, k)
              case _ => s.box)
  {
    match PcOf(s, t)
    case Idle => run := [];
    case ReapMoving(k, _, _) =>
      run := OneMore(s, t, []);
      run := OneMore(s, t, run);
    case ReapUnlinking(k) => run := OneMore(s, t, []);
  }

  /** One claim file under recover_stale() (sweep) or, once its lease has run
      out, under _reap_expired_claim(). */
  lemma ReapSimulated(s: State, t: Tid, k: ClaimKey, sweep: bool) returns (run: seq<Step>)
    requires Ready(s, t) && k in s.box.claims && (sweep || s.box.claims[k] < Cutoff(s.now))
    ensures Simulated(s, t, run, if sweep then SweptOne(s.box, k, s.now) else Reaped(s.box, k))
  {
    run := ReapLooks(s, t, k, sweep);
    run := OneMore(s, t, run);
    var tail := ReapTail(Exec(s, run), t);
    Chain(s, run, tail);
    run := run + tail;
  }
}
