/** Sending across crashes and replays. */
module SendRuns {
  import opened Basics
  import opened Protocol
  import opened SendReplay

  // ---- where the writes of a call end up ----

  predicate Hits(w: Write, a: string, m: MsgId) {
    w.Put? && w.agent == a && w.msg == m
  }

  predicate Logs(w: Write, m: MsgId) {
    w.Record? && w.doc.Envelope? && w.doc.id == m
  }

  predicate SameFrame(s: Session, s': Session) {
    s'.id == s.id && s'.roster == s.roster && s'.inboxes.Keys == s.inboxes.Keys
  }

  lemma {:induction false} UntouchedStays(s: Session, ws: seq<Write>, a: string, m: MsgId)
    requires forall i :: 0 <= i < |ws| ==> !Hits(ws[i], a, m)
    ensures At(Written(s, ws), a, m) == At(s, a, m)
    decreases |ws|
  {
    if ws != [] {
      UntouchedStays(s, ws[..|ws| - 1], a, m);
    }
  }

  /** The last write to a place decides what is there. */
  lemma {:induction false} LastPutLands(s: Session, ws: seq<Write>, j: nat, a: string, m: MsgId)
    requires j < |ws| && Hits(ws[j], a, m)
    requires forall i :: j < i < |ws| ==> !Hits(ws[i], a, m)
    ensures At(Written(s, ws), a, m) == Some(ws[j].doc)
    decreases |ws|
  {
    if j < |ws| - 1 {
      LastPutLands(s, ws[..|ws| - 1], j, a, m);
    }
  }

  lemma {:induction false} UnloggedStays(s: Session, ws: seq<Write>, m: MsgId)
    requires forall i :: 0 <= i < |ws| ==> !Logs(ws[i], m)
    ensures m in Written(s, ws).history <==> m in s.history
    ensures m in s.history ==> Written(s, ws).history[m] == s.history[m]
    decreases |ws|
  {
    if ws != [] {
      UnloggedStays(s, ws[..|ws| - 1], m);
    }
  }

  lemma {:induction false} NothingIsTakenAway(s: Session, ws: seq<Write>, a: string, m: MsgId)
    ensures At(s, a, m).Some? || (exists w :: w in ws && Hits(w, a, m)) ==> At(Written(s, ws), a, m).Some?
    ensures m in s.history || (exists w :: w in ws && Logs(w, m)) ==> m in Written(s, ws).history
    decreases |ws|
  {
    if ws != [] {
      assert ws == ws[..|ws| - 1] + [ws[|ws| - 1]];
      NothingIsTakenAway(s, ws[..|ws| - 1], a, m);
    }
  }

  // ---- the family of one message ----

  /** A copy of the message req describes, possibly stamped. */
  predicate CopyOf(doc: Doc, session: string, req: Request) {
    SamePayload(doc, session, req) && doc.id == req.id
  }

  /** Every file with this id is a copy of this message. */
  ghost predicate Family(s: Session, req: Request) {
    && (forall a :: At(s, a, req.id).Some? ==> CopyOf(At(s, a, req.id).value, s.id, req))
    && (req.id in s.history ==> CopyOf(s.history[req.id], s.id, req))
  }

  ghost predicate NoCopy(s: Session, m: MsgId) {
    (forall a :: At(s, a, m).None?) && m !in s.history
  }

  /** Passes every check of send when nothing has its id. */
  predicate Deliverable(s: Session, req: Request) {
    Refusal(s, req).None? && ValidFields(req.fields)
  }

  /** The same call again: attachments may come in another order. */
  predicate Again(q: Request, req: Request) {
    q.id == req.id && q.fields == req.fields && AttachmentsEq(q.attachments, req.attachments)
  }

  /** In every recipient's inbox and in history. */
  ghost predicate Settled(s: Session, req: Request) {
    && Family(s, req) && Deliverable(s, req)
    && (forall a :: a in Recipients(s, req.fields) ==> At(s, a, req.id).Some?)
    && req.id in s.history
  }

  lemma {:induction false} BadRecipientFrame(s: Session, s': Session, rs: seq<string>)
    requires SameFrame(s, s')
    ensures FirstBadRecipient(s', rs) == FirstBadRecipient(s, rs)
  {
    if rs != [] {
      BadRecipientFrame(s, s', rs[1..]);
    }
  }

  lemma RefusalFrame(s: Session, s': Session, req: Request, q: Request)
    requires SameFrame(s, s') && q.id == req.id && q.fields == req.fields
    ensures Refusal(s', q) == Refusal(s, req)
  {
    BadRecipientFrame(s, s', Recipients(s, req.fields));
  }

  lemma {:induction false} GoodRecipients(s: Session, rs: seq<string>)
    requires FirstBadRecipient(s, rs).None?
    ensures forall a :: a in rs ==> a in s.inboxes
  {
    if rs != [] {
      GoodRecipients(s, rs[1..]);
    }
  }

  lemma {:induction false} ExistingIsThere(s: Session, rs: seq<string>, m: MsgId)
    ensures var e := Existing(s, rs, m);
      && (e.Some? ==> (exists a :: a in rs && At(s, a, m) == e) || (m in s.history && e.value == s.history[m]))
      && (e.Some? <==> m in s.history || exists a :: a in rs && At(s, a, m).Some?)
  {
    if rs != [] {
      ExistingIsThere(s, rs[1..], m);
    }
  }

  lemma {:induction false} MissingExactly(s: Session, rs: seq<string>, m: MsgId)
    ensures forall a :: a in Missing(s, rs, m) <==> a in rs && At(s, a, m).None?
    decreases |rs|
  {
    if rs != [] {
      assert rs == rs[..|rs| - 1] + [rs[|rs| - 1]];
      MissingExactly(s, rs[..|rs| - 1], m);
    }
  }

  lemma {:induction false} NothingMissing(s: Session, rs: seq<string>, m: MsgId)
    requires forall a :: a in rs ==> At(s, a, m).Some?
    ensures Missing(s, rs, m) == []
    decreases |rs|
  {
    if rs != [] {
      assert rs == rs[..|rs| - 1] + [rs[|rs| - 1]];
      NothingMissing(s, rs[..|rs| - 1], m);
    }
  }

  // ---- one call keeps the family ----

  predicate GoodWrite(s: Session, w: Write, req: Request) {
    match w
    case Put(a, m, doc) => a in Recipients(s, req.fields) && m == req.id && CopyOf(doc, s.id, req)
    case Bump(_) => true
    case Record(doc) => CopyOf(doc, s.id, req)
  }

  function Backfill(s: Session, req: Request, doc: Doc): seq<Write> {
    Puts(Missing(s, Recipients(s, req.fields), req.id), req.id, doc)
    + (if req.id in s.history then [] else [Record(doc)])
  }

  /** The two plans of a call that repeats a deliverable one. */
  lemma PlanShape(s: Session, req: Request, q: Request, now: int)
    requires Family(s, req) && Deliverable(s, req) && Again(q, req)
    ensures match Existing(s, Recipients(s, req.fields), req.id)
      case None => NoCopyHere(s, req) && PlanOf(s, q, now) == Plan(FreshWrites(s, q, now), Sent)
      case Some(doc) =>
        CopyOf(doc, s.id, req)
        && PlanOf(s, q, now) == Plan(Backfill(s, req, doc), Replayed(|Missing(s, Recipients(s, req.fields), req.id)|))
  {
    RefusalFrame(s, s, req, q);
    ExistingIsThere(s, Recipients(s, req.fields), req.id);
  }

  predicate NoCopyHere(s: Session, req: Request) {
    req.id !in s.history && forall a :: a in Recipients(s, req.fields) ==> At(s, a, req.id).None?
  }

  lemma PlanGood(s: Session, req: Request, q: Request, now: int)
    requires Family(s, req) && Deliverable(s, req) && Again(q, req)
    ensures var ws := PlanOf(s, q, now).writes; forall i :: 0 <= i < |ws| ==> GoodWrite(s, ws[i], req)
  {
    var rs := Recipients(s, req.fields);
    PlanShape(s, req, q, now);
    match Existing(s, rs, req.id)
    case None =>
      assert CopyOf(Fresh(s, q), s.id, req) && CopyOf(Stamped(s, q, now), s.id, req);
    case Some(doc) =>
      MissingExactly(s, rs, req.id);
      var missing := Missing(s, rs, req.id);
      forall i | 0 <= i < |missing| ensures missing[i] in rs {
        assert missing[i] in missing;
      }
  }

  lemma {:induction false} GoodWritesKeep(s: Session, ws: seq<Write>, req: Request)
    requires Family(s, req) && Deliverable(s, req)
    requires forall i :: 0 <= i < |ws| ==> GoodWrite(s, ws[i], req)
    ensures SameFrame(s, Written(s, ws)) && Family(Written(s, ws), req)
    decreases |ws|
  {
    if ws != [] {
      GoodWritesKeep(s, ws[..|ws| - 1], req);
      GoodRecipients(s, Recipients(s, req.fields));
      GoodWriteKeeps(s, Written(s, ws[..|ws| - 1]), ws[|ws| - 1], req);
    }
  }

  lemma GoodWriteKeeps(s: Session, mid: Session, w: Write, req: Request)
    requires SameFrame(s, mid) && Family(mid, req) && GoodWrite(s, w, req)
    requires forall a :: a in Recipients(s, req.fields) ==> a in s.inboxes
    ensures SameFrame(s, Apply(mid, w)) && Family(Apply(mid, w), req)
  {
    match w
    case Put(b, m, doc) =>
      forall a ensures At(Apply(mid, w), a, req.id) == if a == b then Some(doc) else At(mid, a, req.id) {}
    case Bump(_) =>
      forall a ensures At(Apply(mid, w), a, req.id) == At(mid, a, req.id) {}
    case Record(_) =>
      forall a ensures At(Apply(mid, w), a, req.id) == At(mid, a, req.id) {}
  }

  lemma CallKeepsFamily(s: Session, req: Request, q: Request, now: int, stop: nat)
    requires Family(s, req) && Deliverable(s, req) && Again(q, req)
    ensures var s' := After(s, q, now, stop); SameFrame(s, s') && Family(s', req) && Deliverable(s', req)
  {
    PlanGood(s, req, q, now);
    GoodWritesKeep(s, Landed(PlanOf(s, q, now).writes, stop), req);
    RefusalFrame(s, After(s, q, now, stop), req, req);
  }

  /** A call that runs to the end settles the message. */
  lemma CallSettles(s: Session, req: Request, q: Request, now: int)
    requires Family(s, req) && Deliverable(s, req) && Again(q, req)
    ensures var plan := PlanOf(s, q, now);
      (plan.reply.Sent? || plan.reply.Replayed?) && Settled(Written(s, plan.writes), req)
  {
    var plan := PlanOf(s, q, now);
    var rs := Recipients(s, req.fields);
    CallKeepsFamily(s, req, q, now, |plan.writes|);
    forall a | a in rs ensures At(Written(s, plan.writes), a, req.id).Some? {
      CallReaches(s, req, q, now, a);
      NothingIsTakenAway(s, plan.writes, a, req.id);
    }
    CallRecords(s, req, q, now);
    NothingIsTakenAway(s, plan.writes, "", req.id);
  }

  lemma CallReaches(s: Session, req: Request, q: Request, now: int, a: string)
    requires Family(s, req) && Deliverable(s, req) && Again(q, req) && a in Recipients(s, req.fields)
    ensures At(s, a, req.id).Some? || exists w :: w in PlanOf(s, q, now).writes && Hits(w, a, req.id)
  {
    PlanShape(s, req, q, now);
    if At(s, a, req.id).None? {
      match Existing(s, Recipients(s, req.fields), req.id)
      case Some(doc) => BackfillReaches(s, req, doc, a);
      case None => FreshReaches(s, q, now, a);
    }
  }

  lemma BackfillReaches(s: Session, req: Request, doc: Doc, a: string)
    requires a in Recipients(s, req.fields) && At(s, a, req.id).None?
    ensures exists w :: w in Backfill(s, req, doc) && Hits(w, a, req.id)
  {
    MissingExactly(s, Recipients(s, req.fields), req.id);
    PutsReach(Missing(s, Recipients(s, req.fields), req.id), req.id, doc, a);
    var w := Put(a, req.id, doc);
    assert w in Backfill(s, req, doc) && Hits(w, a, req.id);
  }

  lemma FreshReaches(s: Session, req: Request, now: int, a: string)
    requires a in Recipients(s, req.fields)
    ensures exists w :: w in FreshWrites(s, req, now) && Hits(w, a, req.id)
  {
    PutsReach(Recipients(s, req.fields), req.id, Fresh(s, req), a);
    var w := Put(a, req.id, Fresh(s, req));
    assert w in FreshWrites(s, req, now) && Hits(w, a, req.id);
  }

  lemma PutsReach(rs: seq<string>, m: MsgId, doc: Doc, a: string)
    requires a in rs
    ensures Put(a, m, doc) in Puts(rs, m, doc)
  {
    var j :| 0 <= j < |rs| && rs[j] == a;
    assert Puts(rs, m, doc)[j] == Put(a, m, doc);
  }

  lemma CallRecords(s: Session, req: Request, q: Request, now: int)
    requires Family(s, req) && Deliverable(s, req) && Again(q, req)
    ensures PlanOf(s, q, now).reply.Sent? || PlanOf(s, q, now).reply.Replayed?
    ensures req.id in s.history || exists w :: w in PlanOf(s, q, now).writes && Logs(w, req.id)
  {
    var rs, ws := Recipients(s, req.fields), PlanOf(s, q, now).writes;
    PlanShape(s, req, q, now);
    if req.id !in s.history {
      assert Logs(ws[|ws| - 1], req.id);
    }
  }

  /** ... and touches nothing but its own files. */
  lemma CallTouchesOnlyItsOwn(s: Session, req: Request, q: Request, now: int, stop: nat)
    requires Family(s, req) && Deliverable(s, req) && Again(q, req)
    ensures var s' := After(s, q, now, stop);
      && (forall a, m :: m != req.id || a !in Recipients(s, req.fields) ==> At(s', a, m) == At(s, a, m))
      && s'.history - {req.id} == s.history - {req.id}
  {
    PlanGood(s, req, q, now);
    var ws := Landed(PlanOf(s, q, now).writes, stop);
    forall i | 0 <= i < |ws| ensures GoodWrite(s, ws[i], req) {}
    forall a, m | m != req.id || a !in Recipients(s, req.fields)
      ensures At(Written(s, ws), a, m) == At(s, a, m)
    {
      UntouchedStays(s, ws, a, m);
    }
    forall m | m != req.id
      ensures m in Written(s, ws).history <==> m in s.history
      ensures m in s.history ==> Written(s, ws).history[m] == s.history[m]
    {
      UnloggedStays(s, ws, m);
    }
  }

  // ---- runs with crashes ----

  /** A call of send that may die, or anything else that leaves this message's
      files alone or takes them out of an inbox. */
  datatype Act = Attempt(req: Request, now: int, stop: nat) | Aside(next: Session)

  ghost predicate AsideLegal(s: Session, next: Session, m: MsgId) {
    && SameFrame(s, next)
    && (forall a :: At(next, a, m).Some? ==> At(next, a, m) == At(s, a, m))
    && (m in next.history <==> m in s.history)
    && (m in s.history ==> next.history[m] == s.history[m])
  }

  function RunActs(s: Session, acts: seq<Act>): Session {
    if acts == [] then s
    else
      match acts[|acts| - 1]
      case Attempt(q, now, stop) => After(RunActs(s, acts[..|acts| - 1]), q, now, stop)
      case Aside(next) => next
  }

  ghost predicate Legal(s: Session, req: Request, acts: seq<Act>) {
    forall i :: 0 <= i < |acts| ==>
      match acts[i]
      case Attempt(q, _, _) => Again(q, req)
      case Aside(next) => AsideLegal(RunActs(s, acts[..i]), next, req.id)
  }

  lemma {:induction false} RunKeepsFamily(s: Session, req: Request, acts: seq<Act>)
    requires Family(s, req) && Deliverable(s, req) && Legal(s, req, acts)
    ensures var s' := RunActs(s, acts); SameFrame(s, s') && Family(s', req) && Deliverable(s', req)
    decreases |acts|
  {
    if acts != [] {
      var n := |acts| - 1;
      var init := acts[..n];
      assert Legal(s, req, init) by {
        forall i | 0 <= i < n ensures acts[..i] == init[..i] {}
      }
      RunKeepsFamily(s, req, init);
      var mid := RunActs(s, init);
      match acts[n]
      case Attempt(q, now, stop) => CallKeepsFamily(mid, req, q, now, stop);
      case Aside(next) => RefusalFrame(mid, next, req, req);
    }
  }

  /** Who a message goes to: the addressed agent, or for a broadcast every
      roster member but the sender. */
  predicate Addressed(s: Session, f: Fields, a: string) {
    if f.to == "*" then s.roster.Some? && a in s.roster.value && a != f.sender else a == f.to
  }

  lemma {:induction false} WithoutMembers(roster: seq<string>, x: string)
    ensures forall a :: a in Without(roster, x) <==> a in roster && a != x
    decreases |roster|
  {
    if roster != [] {
      assert roster == roster[..|roster| - 1] + [roster[|roster| - 1]];
      WithoutMembers(roster[..|roster| - 1], x);
    }
  }

  lemma RecipientsAreAddressed(s: Session, f: Fields)
    ensures forall a :: a in Recipients(s, f) <==> Addressed(s, f, a)
  {
    if s.roster.Some? {
      WithoutMembers(s.roster.value, f.sender);
    }
  }

  lemma CallSparesOutsiders(s: Session, req: Request, q: Request, now: int, stop: nat, a: string)
    requires Family(s, req) && Deliverable(s, req) && Again(q, req) && !Addressed(s, req.fields, a)
    ensures At(After(s, q, now, stop), a, req.id) == At(s, a, req.id)
  {
    CallTouchesOnlyItsOwn(s, req, q, now, stop);
    RecipientsAreAddressed(s, req.fields);
  }

  lemma PrefixLegal(s: Session, req: Request, acts: seq<Act>)
    requires acts != [] && Legal(s, req, acts)
    ensures var n := |acts| - 1;
      && Legal(s, req, acts[..n])
      && (acts[n].Attempt? ==> Again(acts[n].req, req))
      && (acts[n].Aside? ==> AsideLegal(RunActs(s, acts[..n]), acts[n].next, req.id))
  {
    forall i | 0 <= i < |acts| - 1 ensures acts[..i] == acts[..|acts| - 1][..i] {}
  }

  /** Agents the message is not addressed to never get it. */
  lemma {:induction false} OutsidersGetNothing(s: Session, req: Request, acts: seq<Act>, a: string)
    requires Family(s, req) && Deliverable(s, req) && Legal(s, req, acts)
    requires !Addressed(s, req.fields, a) && At(s, a, req.id).None?
    ensures At(RunActs(s, acts), a, req.id).None?
    decreases |acts|
  {
    if acts != [] {
      var init := acts[..|acts| - 1];
      PrefixLegal(s, req, acts);
      OutsidersGetNothing(s, req, init, a);
      RunKeepsFamily(s, req, init);
      if acts[|acts| - 1].Attempt? {
        var act := acts[|acts| - 1];
        CallSparesOutsiders(RunActs(s, init), req, act.req, act.now, act.stop, a);
      }
    }
  }

  /** After any number of calls that died anywhere, with anything else in
      between, one call that runs to the end succeeds and leaves a copy of the
      message with exactly the agents it is addressed to, and in history; it
      changes nothing else. */
  lemma CrashedSendsConverge(s: Session, req: Request, acts: seq<Act>, q: Request, now: int)
    requires Deliverable(s, req) && NoCopy(s, req.id) && Legal(s, req, acts) && Again(q, req)
    ensures var mid := RunActs(s, acts);
      var plan := PlanOf(mid, q, now);
      var end := Written(mid, plan.writes);
      && (plan.reply.Sent? || plan.reply.Replayed?)
      && Settled(end, req)
      && (forall a :: At(end, a, req.id).Some? <==> Addressed(s, req.fields, a))
      && (forall a :: Addressed(s, req.fields, a) ==> CopyOf(At(end, a, req.id).value, s.id, req))
      && (forall a, m :: m != req.id ==> At(end, a, m) == At(mid, a, m))
      && end.history - {req.id} == mid.history - {req.id}
  {
    RunKeepsFamily(s, req, acts);
    var mid := RunActs(s, acts);
    CallSettles(mid, req, q, now);
    CallKeepsFamily(mid, req, q, now, |PlanOf(mid, q, now).writes|);
    CallTouchesOnlyItsOwn(mid, req, q, now, |PlanOf(mid, q, now).writes|);
    CopiesAreAddressed(s, req, acts, q, now);
  }

  lemma CopiesAreAddressed(s: Session, req: Request, acts: seq<Act>, q: Request, now: int)
    requires Deliverable(s, req) && NoCopy(s, req.id) && Legal(s, req, acts) && Again(q, req)
    ensures var mid := RunActs(s, acts);
      var end := Written(mid, PlanOf(mid, q, now).writes);
      forall a :: At(end, a, req.id).Some? <==> Addressed(s, req.fields, a)
  {
    RunKeepsFamily(s, req, acts);
    var mid := RunActs(s, acts);
    var end := Written(mid, PlanOf(mid, q, now).writes);
    CallSettles(mid, req, q, now);
    CallKeepsFamily(mid, req, q, now, |PlanOf(mid, q, now).writes|);
    CallTouchesOnlyItsOwn(mid, req, q, now, |PlanOf(mid, q, now).writes|);
    RecipientsAreAddressed(mid, req.fields);
    forall a ensures At(end, a, req.id).Some? <==> Addressed(s, req.fields, a) {
      if Addressed(s, req.fields, a) {
        assert a in Recipients(end, req.fields);
      } else {
        OutsidersGetNothing(s, req, acts, a);
      }
    }
  }

  lemma SamePayloadAgain(doc: Doc, session: string, req: Request, q: Request)
    requires CopyOf(doc, session, req) && q.id == req.id
    ensures SamePayload(doc, session, q) <==> Again(q, req)
  {}

  /** Once settled, no call with this id, with whatever payload, changes
      anything: an identical one replays, a different one is refused. */
  lemma SettledStays(s: Session, req: Request, q: Request, now: int, stop: nat)
    requires Settled(s, req) && q.id == req.id
    ensures After(s, q, now, stop) == s
    ensures Again(q, req) ==> PlanOf(s, q, now).reply == Replayed(0)
    ensures !Again(q, req) && Refusal(s, q).None? ==> PlanOf(s, q, now).reply == Refused(DifferentPayload)
  {
    var rs := Recipients(s, q.fields);
    ExistingIsThere(s, rs, req.id);
    if Again(q, req) {
      RefusalFrame(s, s, req, q);
      NothingMissing(s, rs, req.id);
    }
    SamePayloadAgain(Existing(s, rs, req.id).value, s.id, req, q);
  }

  /** Before that, a different payload is refused exactly when one of its own
      recipients, or history, already has a copy; otherwise it is sent as new. */
  lemma DifferentPayloadRefusedWhen(s: Session, req: Request, q: Request, now: int)
    requires Family(s, req) && q.id == req.id && !Again(q, req) && Deliverable(s, q)
    ensures var plan := PlanOf(s, q, now);
      if req.id in s.history || exists a :: a in Recipients(s, q.fields) && At(s, a, req.id).Some?
      then plan == Plan([], Refused(DifferentPayload))
      else plan.reply == Sent && forall a :: a in Recipients(s, q.fields) ==> At(Written(s, plan.writes), a, q.id).Some?
  {
    var rs := Recipients(s, q.fields);
    ExistingIsThere(s, rs, req.id);
    var e := Existing(s, rs, req.id);
    if e.Some? {
      SamePayloadAgain(e.value, s.id, req, q);
    } else {
      var ws := PlanOf(s, q, now).writes;
      forall a | a in rs ensures At(Written(s, ws), a, q.id).Some? {
        var j :| 0 <= j < |rs| && rs[j] == a;
        assert Hits(ws[j], a, q.id);
        NothingIsTakenAway(s, ws, a, q.id);
      }
    }
  }

  // ---- what the two passes cost ----

  /** A replay after some recipients consumed the message delivers it to
      exactly those recipients a second time. */
  lemma ReplayRedeliversConsumed(s: Session, next: Session, req: Request, q: Request, now: int)
    requires Settled(s, req) && AsideLegal(s, next, req.id) && Again(q, req)
    ensures var rs := Recipients(s, req.fields);
      var plan := PlanOf(next, q, now);
      var end := Written(next, plan.writes);
      && plan.reply == Replayed(|Missing(next, rs, req.id)|)
      && end.history == next.history
      && (forall a :: a in rs ==> At(end, a, req.id).Some?)
      && (forall a :: At(next, a, req.id).Some? || a !in rs ==> At(end, a, req.id) == At(next, a, req.id))
  {
    var rs := Recipients(next, req.fields);
    RefusalFrame(s, next, req, req);
    CallSettles(next, req, q, now);
    ExistingIsThere(next, rs, req.id);
    MissingExactly(next, rs, req.id);
    RefusalFrame(next, next, req, q);
    var missing := Missing(next, rs, req.id);
    var ws := PlanOf(next, q, now).writes;
    assert ws == Puts(missing, req.id, Existing(next, rs, req.id).value);
    forall a | At(next, a, req.id).Some? || a !in rs
      ensures At(Written(next, ws), a, req.id) == At(next, a, req.id)
    {
      forall i | 0 <= i < |ws| ensures !Hits(ws[i], a, req.id) {
        assert missing[i] in missing;
      }
      UntouchedStays(next, ws, a, req.id);
    }
    PutsKeep(next, missing, req.id, Existing(next, rs, req.id).value);
  }

  /** A reader takes the message out of one inbox. */
  function Consumed(s: Session, a: string, m: MsgId): Session {
    if a in s.inboxes then s.(inboxes := s.inboxes[a := s.inboxes[a] - {m}]) else s
  }

  lemma {:induction false} WithoutDistinct(roster: seq<string>, x: string)
    requires Distinct(roster)
    ensures Distinct(Without(roster, x)) && forall a :: a in Without(roster, x) <==> a in roster && a != x
    decreases |roster|
  {
    if roster != [] {
      var n := |roster| - 1;
      assert roster == roster[..n] + [roster[n]];
      WithoutDistinct(roster[..n], x);
      assert roster[n] !in roster[..n];
    }
  }

  lemma RecipientsDistinct(s: Session, f: Fields)
    requires s.roster.Some? && Distinct(s.roster.value)
    ensures Distinct(Recipients(s, f))
  {
    WithoutDistinct(s.roster.value, f.sender);
  }

  /** The writes of a fresh send, by position. */
  lemma FreshWritesAt(s: Session, req: Request, now: int)
    ensures var rs, ws := Recipients(s, req.fields), FreshWrites(s, req, now);
      && |ws| == 2 * |rs| + 2
      && (forall i :: 0 <= i < |rs| ==> ws[i] == Put(rs[i], req.id, Fresh(s, req)))
      && ws[|rs|] == Bump(now)
      && (forall i :: 0 <= i < |rs| ==> ws[|rs| + 1 + i] == Put(rs[i], req.id, Stamped(s, req, now)))
      && ws[2 * |rs| + 1] == Record(Stamped(s, req, now))
  {}

  /** Write number j goes to the i-th recipient. */
  predicate For(rs: seq<string>, i: nat, j: nat) {
    j == i || j == |rs| + 1 + i
  }

  lemma FreshHits(s: Session, req: Request, now: int, i: nat, j: nat)
    requires s.roster.Some? && Distinct(s.roster.value)
    requires i < |Recipients(s, req.fields)| && j < |FreshWrites(s, req, now)|
    ensures var rs := Recipients(s, req.fields);
      Hits(FreshWrites(s, req, now)[j], rs[i], req.id) <==> For(rs, i, j)
  {
    RecipientsDistinct(s, req.fields);
    var rs := Recipients(s, req.fields);
    WriteAt(s, req, now, j);
    if j < |rs| {
      assert i != j ==> rs[i] != rs[j];
    } else if |rs| < j < 2 * |rs| + 1 {
      assert i != j - |rs| - 1 ==> rs[i] != rs[j - |rs| - 1];
    }
  }

  lemma WriteAt(s: Session, req: Request, now: int, j: nat)
    requires j < |FreshWrites(s, req, now)|
    ensures var rs, ws := Recipients(s, req.fields), FreshWrites(s, req, now);
      && |ws| == 2 * |rs| + 2
      && (j < |rs| ==> ws[j] == Put(rs[j], req.id, Fresh(s, req)))
      && (|rs| < j < 2 * |rs| + 1 ==> ws[j] == Put(rs[j - |rs| - 1], req.id, Stamped(s, req, now)))
      && (j == |rs| || j == 2 * |rs| + 1 ==> !ws[j].Put?)
  {
    FreshWritesAt(s, req, now);
    var rs := Recipients(s, req.fields);
    if |rs| < j < 2 * |rs| + 1 {
      assert FreshWrites(s, req, now)[|rs| + 1 + (j - |rs| - 1)] == Put(rs[j - |rs| - 1], req.id, Stamped(s, req, now));
    }
  }

  lemma FreshPlan(s: Session, req: Request, now: int)
    requires Deliverable(s, req) && NoCopy(s, req.id)
    ensures PlanOf(s, req, now) == Plan(FreshWrites(s, req, now), Sent)
  {
    PlanShape(s, req, req, now);
    ExistingIsThere(s, Recipients(s, req.fields), req.id);
  }

  /** From write number k on, the i-th recipient's inbox is written again
      exactly when the second pass had not reached it. */
  lemma WritesLeft(s: Session, req: Request, now: int, i: nat, k: nat, taken: Session)
    requires s.roster.Some? && Distinct(s.roster.value)
    requires i < |Recipients(s, req.fields)| && i < k <= |FreshWrites(s, req, now)|
    requires At(taken, Recipients(s, req.fields)[i], req.id).None?
    ensures var rs, ws := Recipients(s, req.fields), FreshWrites(s, req, now);
      At(Written(taken, ws[k..]), rs[i], req.id).Some? <==> k <= |rs| + 1 + i
  {
    var rs, ws := Recipients(s, req.fields), FreshWrites(s, req, now);
    FreshWritesAt(s, req, now);
    if k <= |rs| + 1 + i {
      FreshHits(s, req, now, i, |rs| + 1 + i);
      assert ws[k..][|rs| + 1 + i - k] == ws[|rs| + 1 + i];
      NothingIsTakenAway(taken, ws[k..], rs[i], req.id);
    } else {
      forall j | 0 <= j < |ws[k..]| ensures !Hits(ws[k..][j], rs[i], req.id) {
        FreshHits(s, req, now, i, k + j);
      }
      UntouchedStays(taken, ws[k..], rs[i], req.id);
    }
  }

  /** A recipient who takes the message after k of the writes finds it in the
      inbox again exactly when the second pass had not reached that inbox. */
  lemma ReadBetweenPassesDuplicates(s: Session, req: Request, now: int, i: nat, k: nat)
    requires Deliverable(s, req) && NoCopy(s, req.id) && Distinct(s.roster.value)
    requires i < |Recipients(s, req.fields)| && i < k <= |FreshWrites(s, req, now)|
    ensures var rs, ws := Recipients(s, req.fields), FreshWrites(s, req, now);
      var mid := Written(s, ws[..k]);
      && PlanOf(s, req, now).writes == ws
      && At(mid, rs[i], req.id).Some?
      && (At(Written(Consumed(mid, rs[i], req.id), ws[k..]), rs[i], req.id).Some? <==> k <= |rs| + 1 + i)
  {
    var rs, ws := Recipients(s, req.fields), FreshWrites(s, req, now);
    FreshPlan(s, req, now);
    FreshPrefix(s, req, now, i, k);
    WritesLeft(s, req, now, i, k, Consumed(Written(s, ws[..k]), rs[i], req.id));
  }

  /** What the i-th recipient has after the first k writes of a fresh send. */
  lemma FreshPrefix(s: Session, req: Request, now: int, i: nat, k: nat)
    requires NoCopy(s, req.id) && s.roster.Some? && Distinct(s.roster.value)
    requires i < |Recipients(s, req.fields)| && k <= |FreshWrites(s, req, now)|
    ensures var rs := Recipients(s, req.fields);
      At(Written(s, FreshWrites(s, req, now)[..k]), rs[i], req.id)
      == if k <= i then None else if k <= |rs| + 1 + i then Some(Fresh(s, req)) else Some(Stamped(s, req, now))
  {
    var rs, ws := Recipients(s, req.fields), FreshWrites(s, req, now);
    FreshWritesAt(s, req, now);
    forall j | 0 <= j < |ws| ensures Hits(ws[j], rs[i], req.id) <==> For(rs, i, j) {
      FreshHits(s, req, now, i, j);
    }
    if k <= i {
      UntouchedStays(s, ws[..k], rs[i], req.id);
    } else if k <= |rs| + 1 + i {
      LastPutLands(s, ws[..k], i, rs[i], req.id);
    } else {
      LastPutLands(s, ws[..k], |rs| + 1 + i, rs[i], req.id);
    }
  }

  /** A send that dies after k writes and is replayed to the end leaves the
      i-th recipient an envelope that stream subscribers can see exactly when
      nothing had been written or its second write had. */
  lemma ReplayKeepsStampWhen(s: Session, req: Request, now: int, later: int, i: nat, k: nat)
    requires Deliverable(s, req) && NoCopy(s, req.id) && Distinct(s.roster.value)
    requires i < |Recipients(s, req.fields)| && k <= |FreshWrites(s, req, now)|
    ensures var rs := Recipients(s, req.fields);
      var mid := After(s, req, now, k);
      var end := Written(mid, PlanOf(mid, req, later).writes);
      && At(end, rs[i], req.id).Some? && At(end, rs[i], req.id).value.Envelope?
      && (At(end, rs[i], req.id).value.stamp.Some? <==> k == 0 || k >= |rs| + 2 + i)
  {
    var rs := Recipients(s, req.fields);
    FreshWritesAt(s, req, now);
    DiedAt(s, req, now, k);
    if k == 0 {
      FreshAll(s, req, later, i);
    } else {
      var mid := After(s, req, now, k);
      CallKeepsFamily(s, req, req, now, k);
      FreshPrefix(s, req, now, i, k);
      FreshPrefix(s, req, now, 0, k);
      assert Existing(mid, rs, req.id) == At(mid, rs[0], req.id);
      ReplayWrites(mid, req, later, At(mid, rs[0], req.id).value, rs[i]);
    }
  }

  lemma DiedAt(s: Session, req: Request, now: int, k: nat)
    requires Deliverable(s, req) && NoCopy(s, req.id) && k <= |FreshWrites(s, req, now)|
    ensures After(s, req, now, k) == Written(s, FreshWrites(s, req, now)[..k])
    ensures k == 0 ==> After(s, req, now, k) == s
  {
    var ws := FreshWrites(s, req, now);
    FreshPlan(s, req, now);
    assert k == |ws| ==> ws[..k] == ws;
    assert ws[..0] == [];
  }

  lemma FreshAll(s: Session, req: Request, now: int, i: nat)
    requires Deliverable(s, req) && NoCopy(s, req.id) && Distinct(s.roster.value)
    requires i < |Recipients(s, req.fields)|
    ensures At(Written(s, PlanOf(s, req, now).writes), Recipients(s, req.fields)[i], req.id) == Some(Stamped(s, req, now))
  {
    var ws := FreshWrites(s, req, now);
    FreshPlan(s, req, now);
    FreshPrefix(s, req, now, i, |ws|);
    assert ws[..|ws|] == ws;
  }

  lemma BackfillSpares(s: Session, req: Request, doc: Doc, a: string)
    requires At(s, a, req.id).Some?
    ensures At(Written(s, Backfill(s, req, doc)), a, req.id) == At(s, a, req.id)
  {
    var ws, missing := Backfill(s, req, doc), Missing(s, Recipients(s, req.fields), req.id);
    MissingExactly(s, Recipients(s, req.fields), req.id);
    forall j | 0 <= j < |ws| ensures !Hits(ws[j], a, req.id) {
      if j < |missing| {
        assert missing[j] in missing;
      }
    }
    UntouchedStays(s, ws, a, req.id);
  }

  lemma BackfillFills(s: Session, req: Request, doc: Doc, a: string)
    requires a in Recipients(s, req.fields) && At(s, a, req.id).None?
    ensures At(Written(s, Backfill(s, req, doc)), a, req.id) == Some(doc)
  {
    var ws, missing := Backfill(s, req, doc), Missing(s, Recipients(s, req.fields), req.id);
    MissingExactly(s, Recipients(s, req.fields), req.id);
    LastOf(missing, a);
    var j :| 0 <= j < |missing| && missing[j] == a && forall i :: j < i < |missing| ==> missing[i] != a;
    assert ws[j] == Put(a, req.id, doc);
    LastPutLands(s, ws, j, a, req.id);
  }

  /** What a replay leaves in one recipient's inbox. */
  lemma ReplayWrites(s: Session, req: Request, now: int, doc: Doc, a: string)
    requires Family(s, req) && Deliverable(s, req)
    requires a in Recipients(s, req.fields) && Existing(s, Recipients(s, req.fields), req.id) == Some(doc)
    ensures At(Written(s, PlanOf(s, req, now).writes), a, req.id)
         == if At(s, a, req.id).Some? then At(s, a, req.id) else Some(doc)
  {
    PlanShape(s, req, req, now);
    if At(s, a, req.id).Some? {
      BackfillSpares(s, req, doc, a);
    } else {
      BackfillFills(s, req, doc, a);
    }
  }

  lemma {:induction false} LastOf(xs: seq<string>, x: string)
    requires x in xs
    ensures exists j :: 0 <= j < |xs| && xs[j] == x && forall i :: j < i < |xs| ==> xs[i] != x
    decreases |xs|
  {
    var n := |xs| - 1;
    if xs[n] != x {
      assert xs == xs[..n] + [xs[n]];
      LastOf(xs[..n], x);
      var j :| 0 <= j < n && xs[..n][j] == x && forall i :: j < i < n ==> xs[..n][i] != x;
      assert xs[j] == x && forall i :: j < i < |xs| ==> xs[i] != x;
    }
  }

  // ---- the order of stream cursors ----

  /** epoch first, then sequence */
  predicate Before(a: Cursor, b: Cursor) {
    a.epoch < b.epoch || (a.epoch == b.epoch && a.seqNo < b.seqNo)
  }

  /** The cursors that serial calls of advance_cursor at these times return. */
  function Stamps(c: Option<Cursor>, clock: seq<int>): seq<Cursor> {
    if clock == [] then []
    else
      var init := Stamps(c, clock[..|clock| - 1]);
      init + [NextCursor(if init == [] then c else Some(init[|init| - 1]), clock[|clock| - 1])]
  }

  predicate Rising(cs: seq<Cursor>) {
    forall i :: 0 <= i < |cs| - 1 ==> Before(cs[i], cs[i + 1])
  }

  predicate NeverBack(clock: seq<int>) {
    forall i :: 0 <= i < |clock| - 1 ==> clock[i] <= clock[i + 1]
  }

  lemma {:induction false} StampEpochs(c: Option<Cursor>, clock: seq<int>)
    ensures |Stamps(c, clock)| == |clock|
    ensures forall i :: 0 <= i < |clock| ==> Stamps(c, clock)[i].epoch == clock[i]
    decreases |clock|
  {
    if clock != [] {
      StampEpochs(c, clock[..|clock| - 1]);
    }
  }

  /** Serial cursors increase strictly exactly when the clock never goes back. */
  lemma {:induction false} CursorsRiseWithClock(c: Option<Cursor>, clock: seq<int>)
    ensures Rising(Stamps(c, clock)) <==> NeverBack(clock)
    decreases |clock|
  {
    if |clock| > 1 {
      var n := |clock| - 1;
      var init, all := Stamps(c, clock[..n]), Stamps(c, clock);
      StampEpochs(c, clock[..n]);
      CursorsRiseWithClock(c, clock[..n]);
      assert all == init + [NextCursor(Some(init[n - 1]), clock[n])];
      assert Before(all[n - 1], all[n]) <==> clock[n - 1] <= clock[n];
      LastPair(all, clock);
    } else {
      StampEpochs(c, clock);
    }
  }

  lemma LastPair(cs: seq<Cursor>, clock: seq<int>)
    requires |cs| == |clock| > 1
    ensures var n := |cs| - 1;
      && (Rising(cs) <==> Rising(cs[..n]) && Before(cs[n - 1], cs[n]))
      && (NeverBack(clock) <==> NeverBack(clock[..n]) && clock[n - 1] <= clock[n])
  {
    var n := |cs| - 1;
    if Rising(cs[..n]) && Before(cs[n - 1], cs[n]) {
      forall i | 0 <= i < n ensures Before(cs[i], cs[i + 1]) {
        if i < n - 1 {
          assert Before(cs[..n][i], cs[..n][i + 1]);
        }
      }
    }
    if NeverBack(clock[..n]) && clock[n - 1] <= clock[n] {
      forall i | 0 <= i < n ensures clock[i] <= clock[i + 1] {
        if i < n - 1 {
          assert clock[..n][i] <= clock[..n][i + 1];
        }
      }
    }
    if Rising(cs) {
      assert Before(cs[n - 1], cs[n - 1 + 1]);
      forall i | 0 <= i < n - 1 ensures Before(cs[..n][i], cs[..n][i + 1]) {
        assert Before(cs[i], cs[i + 1]);
      }
    }
    if NeverBack(clock) {
      assert clock[n - 1] <= clock[n - 1 + 1];
      forall i | 0 <= i < n - 1 ensures clock[..n][i] <= clock[..n][i + 1] {
        assert clock[i] <= clock[i + 1];
      }
    }
  }

  // ==== When a call succeeds, and what it leaves ====

  lemma {:induction false} BadRecipientsExactly(s: Session, rs: seq<string>)
    ensures FirstBadRecipient(s, rs).None? <==> forall a :: a in rs ==> SafeAgentId(a) && a in s.inboxes
  {
    if rs != [] {
      BadRecipientsExactly(s, rs[1..]);
      assert rs == [rs[0]] + rs[1..];
    }
  }

  /** A message with an id nobody has is sent if and only if: the session and
      its roster exist; the sender and the addressed agent are on the roster;
      every agent it goes to has a proper id and an inbox; the kind is known, the
      body is at most 100000 bytes of UTF-8, the id is proper; and the fields
      pass the schema check. */
  lemma SentWhen(s: Session, req: Request, now: int)
    requires NoCopy(s, req.id)
    ensures var f := req.fields;
      PlanOf(s, req, now).reply == Sent <==>
        && SafeAgentId(s.id) && s.roster.Some? && f.sender in s.roster.value
        && (f.to == "*" || f.to in s.roster.value)
        && (forall a :: Addressed(s, f, a) ==> SafeAgentId(a) && a in s.inboxes)
        && !f.kind.Unknown? && Utf8Length(f.body) <= 100000 && SafeMsgId(req.id) && ValidFields(f)
    ensures PlanOf(s, req, now).reply != Sent ==> PlanOf(s, req, now).writes == [] && PlanOf(s, req, now).reply.Refused?
  {
    var rs := Recipients(s, req.fields);
    RecipientsAreAddressed(s, req.fields);
    BadRecipientsExactly(s, rs);
    ExistingIsThere(s, rs, req.id);
  }

  /** Which check refuses a call, in their order. */
  lemma RefusedFor(s: Session, req: Request)
    ensures var f, why := req.fields, Refusal(s, req);
      if !SafeAgentId(s.id) then why == Some(BadSessionId)
      else if s.roster.None? then why == Some(NoSession)
      else if f.sender !in s.roster.value then why == Some(SenderNotInRoster)
      else if f.to != "*" && f.to !in s.roster.value then why == Some(RecipientNotInRoster)
      else if exists a :: Addressed(s, f, a) && (!SafeAgentId(a) || a !in s.inboxes) then
        why == Some(BadAgentId) || why == Some(AgentNotInSession)
      else if f.kind.Unknown? then why == Some(InvalidKind)
      else if Utf8Length(f.body) > 100000 then why == Some(BodyTooLong)
      else if !SafeMsgId(req.id) then why == Some(BadMsgId)
      else why == None
  {
    var rs := Recipients(s, req.fields);
    RecipientsAreAddressed(s, req.fields);
    BadRecipientsExactly(s, rs);
    FirstBadIs(s, rs);
  }

  lemma {:induction false} FirstBadIs(s: Session, rs: seq<string>)
    ensures FirstBadRecipient(s, rs) in {None, Some(BadAgentId), Some(AgentNotInSession)}
  {
    if rs != [] {
      FirstBadIs(s, rs[1..]);
    }
  }

  /** A record enters history, once per id and unchanged, if and only if it is
      an envelope of this session with a proper id and valid fields that history
      does not have; it says which of the two is wrong. */
  lemma HistoryTakes(s: Session, doc: Doc)
    ensures var fit := doc.Envelope? && doc.session == s.id && SafeMsgId(doc.id) && ValidFields(doc.fields);
      HistoryRefusal(s, doc) ==
        if !fit then Some(HistoryInvalid) else if doc.id in s.history then Some(HistoryExists) else None
    ensures doc.Envelope? ==> Apply(s, Record(doc)) == s.(history := s.history[doc.id := doc])
  {
  }

  /** What a message sent in one go leaves: with every agent it goes to, and in
      history, an envelope with the fields and attachments it was given and the
      new stream cursor; with nobody else, and nothing else changed. */
  lemma SentLeaves(s: Session, req: Request, now: int)
    requires Deliverable(s, req) && NoCopy(s, req.id) && Distinct(s.roster.value)
    ensures var end := Written(s, PlanOf(s, req, now).writes);
      var stamp := NextCursor(s.cursor, now);
      var envelope := Envelope(s.id, req.id, req.fields, req.attachments, Some(stamp));
      && (forall a :: At(end, a, req.id) == if Addressed(s, req.fields, a) then Some(envelope) else None)
      && req.id in end.history && end.history[req.id] == envelope
      && end.history - {req.id} == s.history
      && (forall a, m :: m != req.id ==> At(end, a, m) == At(s, a, m))
  {
    var end := Written(s, PlanOf(s, req, now).writes);
    var rs := Recipients(s, req.fields);
    FreshPlan(s, req, now);
    RecipientsAreAddressed(s, req.fields);
    CallTouchesOnlyItsOwn(s, req, req, now, |PlanOf(s, req, now).writes|);
    forall a ensures At(end, a, req.id) == if Addressed(s, req.fields, a) then Some(Stamped(s, req, now)) else None {
      if a in rs {
        var i :| 0 <= i < |rs| && rs[i] == a;
        FreshAll(s, req, now, i);
      }
    }
    LastIsRecorded(s, req, now);
    assert end.history - {req.id} == s.history - {req.id} == s.history;
  }

  lemma LastIsRecorded(s: Session, req: Request, now: int)
    ensures var end := Written(s, FreshWrites(s, req, now));
      req.id in end.history && end.history[req.id] == Stamped(s, req, now)
  {
    var ws := FreshWrites(s, req, now);
    var init := Puts(Recipients(s, req.fields), req.id, Fresh(s, req)) + [Bump(now)]
                + Puts(Recipients(s, req.fields), req.id, Stamped(s, req, now));
    assert ws == init + [Record(Stamped(s, req, now))];
    WrittenSnoc(s, init, Record(Stamped(s, req, now)));
  }

  /** The cursor a call hands out, in the words of its milliseconds: one more in
      the same millisecond, the first of a new one otherwise. */
  lemma CursorCounts(c: Option<Cursor>, now: int)
    ensures var n := NextCursor(c, now);
      && n.epoch == now
      && (c.Some? && c.value.epoch == now ==> n.seqNo == c.value.seqNo + 1)
      && (c.Some? && c.value.epoch != now ==> n.seqNo == 0)
      && (c.None? && now != 0 ==> n.seqNo == 0)
  {
  }

  /** Later stamps of one session come after earlier ones, however far apart. */
  lemma {:induction false} LaterStampsAfter(c: Option<Cursor>, clock: seq<int>, i: nat, j: nat)
    requires NeverBack(clock) && i < j < |clock|
    ensures |Stamps(c, clock)| == |clock| && Before(Stamps(c, clock)[i], Stamps(c, clock)[j])
    decreases j
  {
    StampEpochs(c, clock);
    CursorsRiseWithClock(c, clock);
    assert Before(Stamps(c, clock)[j - 1], Stamps(c, clock)[j - 1 + 1]);
    if i < j - 1 {
      LaterStampsAfter(c, clock, i, j - 1);
    }
  }
}
