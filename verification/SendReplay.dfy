/** MailboxStore.send with a given message id: its checks, its writes in
    order, and what a process that dies between two writes leaves behind. */
module SendReplay {
  import opened Basics
  import opened Protocol

  type Ref(==, !new)     // an attachment reference, keys sorted

  datatype Cursor = Cursor(epoch: int, seqNo: int)

  /** A message file: not parseable, or an envelope, stamped with a stream
      cursor once the second pass of send has rewritten it. */
  datatype Doc = Garbled
               | Envelope(session: string, id: MsgId, fields: Fields, attachments: seq<Ref>, stamp: Option<Cursor>)

  /** A session directory. `roster` is sorted, and absent with its metadata;
      `inboxes` has a key for every agent whose inbox directory exists. */
  datatype Session = Session(
    id: string,
    roster: Option<seq<string>>,
    inboxes: map<string, map<MsgId, Doc>>,
    history: map<MsgId, Doc>,
    cursor: Option<Cursor>)

  datatype Request = Request(id: MsgId, fields: Fields, attachments: seq<Ref>)

  datatype SendError = BadSessionId | NoSession | SenderNotInRoster | RecipientNotInRoster | BadAgentId | AgentNotInSession
                     | InvalidKind | BodyTooLong | BadMsgId | DifferentPayload | SchemaInvalid | HistoryInvalid | HistoryExists

  datatype Reply = Sent | Replayed(backfilled: nat) | Refused(error: SendError) | Died

  /** One completed rename. */
  datatype Write = Put(agent: string, msg: MsgId, doc: Doc) | Bump(now: int) | Record(doc: Doc)

  datatype Plan = Plan(writes: seq<Write>, reply: Reply)

  // ---- the directories ----

  /** The file for m in an agent's inbox. */
  function At(s: Session, a: string, m: MsgId): Option<Doc> {
    if a in s.inboxes && m in s.inboxes[a] then Some(s.inboxes[a][m]) else None
  }

  /** advance_cursor: no file counts as 0/0. */
  function NextCursor(c: Option<Cursor>, now: int): Cursor {
    var prev := if c.Some? then c.value else Cursor(0, 0);
    if now == prev.epoch then Cursor(now, prev.seqNo + 1) else Cursor(now, 0)
  }

  function Apply(s: Session, w: Write): Session {
    match w
    case Put(a, m, doc) =>
      var inbox := if a in s.inboxes then s.inboxes[a] else map[];
      s.(inboxes := s.inboxes[a := inbox[m := doc]])
    case Bump(now) => s.(cursor := Some(NextCursor(s.cursor, now)))
    case Record(doc) => if doc.Envelope? then s.(history := s.history[doc.id := doc]) else s
  }

  function Written(s: Session, ws: seq<Write>): Session {
    if ws == [] then s else Apply(Written(s, ws[..|ws| - 1]), ws[|ws| - 1])
  }

  // ---- the checks ----

  function Without(roster: seq<string>, agent: string): seq<string> {
    if roster == [] then []
    else
      var last := roster[|roster| - 1];
      Without(roster[..|roster| - 1], agent) + (if last == agent then [] else [last])
  }

  function Recipients(s: Session, f: Fields): seq<string> {
    if f.to != BROADCAST_TO then [f.to]
    else if s.roster.Some? then Without(s.roster.value, f.sender)
    else []
  }

  function FirstBadRecipient(s: Session, rs: seq<string>): Option<SendError> {
    if rs == [] then None
    else if !SafeAgentId(rs[0]) then Some(BadAgentId)
    else if rs[0] !in s.inboxes then Some(AgentNotInSession)
    else FirstBadRecipient(s, rs[1..])
  }

  /** Why send refuses a request before it looks for an earlier copy. */
  function Refusal(s: Session, req: Request): Option<SendError> {
    var f := req.fields;
    if !SafeAgentId(s.id) then Some(BadSessionId)
    else if s.roster.None? then Some(NoSession)
    else if f.sender !in s.roster.value then Some(SenderNotInRoster)
    else if f.to != BROADCAST_TO && f.to !in s.roster.value then Some(RecipientNotInRoster)
    else if FirstBadRecipient(s, Recipients(s, f)).Some? then FirstBadRecipient(s, Recipients(s, f))
    else if f.kind.Unknown? then Some(InvalidKind)
    else if Utf8Length(f.body) > MAX_MAILBOX_BODY then Some(BodyTooLong)
    else if !SafeMsgId(req.id) then Some(BadMsgId)
    else None
  }

  /** The copy send compares with: the first recipient's that has one, else
      the history record. */
  function Existing(s: Session, rs: seq<string>, m: MsgId): Option<Doc> {
    if rs == [] then if m in s.history then Some(s.history[m]) else None
    else if At(s, rs[0], m).Some? then At(s, rs[0], m)
    else Existing(s, rs[1..], m)
  }

  predicate SamePayload(doc: Doc, session: string, req: Request) {
    doc.Envelope? && doc.session == session && doc.fields == req.fields && AttachmentsEq(doc.attachments, req.attachments)
  }

  function HistoryRefusal(s: Session, doc: Doc): Option<SendError> {
    if !(doc.Envelope? && ValidFields(doc.fields) && doc.session == s.id && SafeMsgId(doc.id)) then Some(HistoryInvalid)
    else if doc.id in s.history then Some(HistoryExists)
    else None
  }

  // ---- the writes ----

  function Puts(rs: seq<string>, m: MsgId, doc: Doc): seq<Write> {
    seq(|rs|, i requires 0 <= i < |rs| => Put(rs[i], m, doc))
  }

  /** Recipients whose inbox has no copy. */
  function Missing(s: Session, rs: seq<string>, m: MsgId): seq<string> {
    if rs == [] then []
    else
      var last := rs[|rs| - 1];
      Missing(s, rs[..|rs| - 1], m) + (if At(s, last, m).Some? then [] else [last])
  }

  function Fresh(s: Session, req: Request): Doc {
    Envelope(s.id, req.id, req.fields, req.attachments, None)
  }

  function Stamped(s: Session, req: Request, now: int): Doc {
    Envelope(s.id, req.id, req.fields, req.attachments, Some(NextCursor(s.cursor, now)))
  }

  function SecondPass(rs: seq<string>, m: MsgId, doc: Doc): seq<Write> {
    Puts(rs, m, doc) + [Record(doc)]
  }

  function FreshWrites(s: Session, req: Request, now: int): seq<Write> {
    var rs := Recipients(s, req.fields);
    Puts(rs, req.id, Fresh(s, req)) + [Bump(now)] + Puts(rs, req.id, Stamped(s, req, now)) + [Record(Stamped(s, req, now))]
  }

  /** The history record a replay still has to write. */
  function ReplayTail(s: Session, m: MsgId, doc: Doc): seq<Write> {
    if m in s.history || HistoryRefusal(s, doc).Some? then [] else [Record(doc)]
  }

  function ReplayReply(s: Session, m: MsgId, doc: Doc, backfilled: nat): Reply {
    if m !in s.history && HistoryRefusal(s, doc).Some? then Refused(HistoryRefusal(s, doc).value) else Replayed(backfilled)
  }

  function ReplayPlan(s: Session, req: Request, doc: Doc): Plan {
    var missing := Missing(s, Recipients(s, req.fields), req.id);
    Plan(Puts(missing, req.id, doc) + ReplayTail(s, req.id, doc), ReplayReply(s, req.id, doc, |missing|))
  }

  /** Everything one call of send writes if it runs to the end, and its reply. */
  function PlanOf(s: Session, req: Request, now: int): Plan {
    if Refusal(s, req).Some? then Plan([], Refused(Refusal(s, req).value))
    else
      match Existing(s, Recipients(s, req.fields), req.id)
      case Some(doc) =>
        if SamePayload(doc, s.id, req) then ReplayPlan(s, req, doc) else Plan([], Refused(DifferentPayload))
      case None =>
        if ValidFields(req.fields) then Plan(FreshWrites(s, req, now), Sent) else Plan([], Refused(SchemaInvalid))
  }

  /** What a call leaves that dies before its write number `stop`. */
  function Landed(writes: seq<Write>, stop: nat): seq<Write> {
    if stop < |writes| then writes[..stop] else writes
  }

  function After(s: Session, req: Request, now: int, stop: nat): Session {
    Written(s, Landed(PlanOf(s, req, now).writes, stop))
  }

  // ---- composing runs of writes ----

  lemma {:induction false} WrittenConcat(s: Session, a: seq<Write>, b: seq<Write>)
    ensures Written(s, a + b) == Written(Written(s, a), b)
    decreases |b|
  {
    if b == [] {
      assert a + b == a;
    } else {
      var init, last := b[..|b| - 1], b[|b| - 1];
      assert (a + b)[..|a + b| - 1] == a + init;
      WrittenConcat(s, a, init);
    }
  }

  lemma WrittenSnoc(s: Session, ws: seq<Write>, w: Write)
    ensures Written(s, ws + [w]) == Apply(Written(s, ws), w)
  {
    assert (ws + [w])[..|ws|] == ws;
  }

  lemma PutsTakeOne(rs: seq<string>, m: MsgId, doc: Doc, k: nat)
    requires k < |rs|
    ensures Puts(rs, m, doc)[..k + 1] == Puts(rs, m, doc)[..k] + [Put(rs[k], m, doc)]
  {}

  lemma PutNext(s: Session, rs: seq<string>, m: MsgId, doc: Doc, k: nat)
    requires k < |rs|
    ensures Written(s, Puts(rs, m, doc)[..k + 1]) == Apply(Written(s, Puts(rs, m, doc)[..k]), Put(rs[k], m, doc))
  {
    PutsTakeOne(rs, m, doc, k);
    WrittenSnoc(s, Puts(rs, m, doc)[..k], Put(rs[k], m, doc));
  }

  lemma LandedConcat(a: seq<Write>, b: seq<Write>, stop: nat)
    ensures Landed(a + b, stop) ==
      if stop < |a| then Landed(a, stop) else Landed(a, stop) + Landed(b, stop - |a|)
    ensures stop >= |a| ==> Landed(a, stop) == a
  {
    if stop < |a + b| && stop >= |a| {
      assert (a + b)[..stop] == a + b[..stop - |a|];
    }
  }

  /** A fresh send is a pass over the inboxes, a cursor bump, and the rest. */
  lemma FreshInTwo(s: Session, req: Request, now: int, stop: nat)
    ensures var rs := Recipients(s, req.fields);
      var first, second := Puts(rs, req.id, Fresh(s, req)), SecondPass(rs, req.id, Stamped(s, req, now));
      && |FreshWrites(s, req, now)| == |rs| + 1 + |second|
      && Landed(first, stop) == (if stop < |rs| then first[..stop] else first)
      && Written(s, Landed(FreshWrites(s, req, now), stop)) ==
           if stop <= |rs| then Written(s, Landed(first, stop))
           else Written(Apply(Written(s, first), Bump(now)), Landed(second, stop - |rs| - 1))
  {
    var rs := Recipients(s, req.fields);
    var first, second := Puts(rs, req.id, Fresh(s, req)), SecondPass(rs, req.id, Stamped(s, req, now));
    var early := first + [Bump(now)];
    assert FreshWrites(s, req, now) == early + second;
    LandedConcat(early, second, stop);
    LandedConcat(first, [Bump(now)], stop);
    if stop > |rs| {
      WrittenConcat(s, early, Landed(second, stop - |rs| - 1));
      WrittenSnoc(s, first, Bump(now));
    }
  }

  lemma TailFrame(s: Session, s': Session, m: MsgId, doc: Doc)
    requires s'.id == s.id && s'.history == s.history
    ensures ReplayTail(s', m, doc) == ReplayTail(s, m, doc)
    ensures forall n :: ReplayReply(s', m, doc, n) == ReplayReply(s, m, doc, n)
  {
  }

  class SessionStore {
    const id: string
    const roster: Option<seq<string>>
    var inboxes: map<string, map<MsgId, Doc>>
    var history: map<MsgId, Doc>
    var cursor: Option<Cursor>

    constructor (id: string, roster: Option<seq<string>>)
      ensures Contents() == Session(id, roster, map[], map[], None)
    {
      this.id, this.roster := id, roster;
      inboxes, history, cursor := map[], map[], None;
    }

    function Contents(): Session
      reads this
    {
      Session(id, roster, inboxes, history, cursor)
    }

    method AdvanceCursor(now: int) returns (c: Cursor)
      modifies this`cursor
      ensures c == NextCursor(old(cursor), now)
      ensures Contents() == Apply(old(Contents()), Bump(now))
    {
      var epoch, seqNo := 0, 0;
      if cursor.Some? {
        epoch, seqNo := cursor.value.epoch, cursor.value.seqNo;
      }
      c := if now == epoch then Cursor(now, seqNo + 1) else Cursor(now, 0);
      cursor := Some(c);
    }

    method AppendHistory(doc: Doc) returns (error: Option<SendError>)
      modifies this`history
      ensures error == HistoryRefusal(old(Contents()), doc)
      ensures Contents() == if error.Some? then old(Contents()) else Apply(old(Contents()), Record(doc))
    {
      if doc.Garbled? || doc.session != id || !ValidFields(doc.fields) || !SafeMsgId(doc.id) {
        return Some(HistoryInvalid);
      }
      if doc.id in history {
        return Some(HistoryExists);
      }
      history := history[doc.id := doc];
      return None;
    }

    /** Writes one envelope per agent, or only the first `stop` of them. */
    method PutAll(agents: seq<string>, m: MsgId, doc: Doc, stop: nat)
      modifies this`inboxes
      ensures Contents() == Written(old(Contents()), Landed(Puts(agents, m, doc), stop))
    {
      ghost var s := Contents();
      var k := 0;
      while k < |agents| && k < stop
        invariant 0 <= k <= |agents| && k <= stop
        invariant id == s.id && history == s.history && cursor == s.cursor
        invariant Contents() == Written(s, Puts(agents, m, doc)[..k])
      {
        PutNext(s, agents, m, doc, k);
        var inbox := if agents[k] in inboxes then inboxes[agents[k]] else map[];
        inboxes := inboxes[agents[k] := inbox[m := doc]];
        k := k + 1;
      }
      assert k == |agents| ==> Puts(agents, m, doc)[..k] == Puts(agents, m, doc);
    }

    /** The copy to compare with. */
    method FindExisting(rs: seq<string>, m: MsgId) returns (doc: Option<Doc>)
      ensures doc == Existing(Contents(), rs, m)
    {
      doc := None;
      var i := 0;
      while i < |rs|
        invariant 0 <= i <= |rs|
        invariant doc == None ==> Existing(Contents(), rs, m) == Existing(Contents(), rs[i..], m)
        invariant doc.Some? ==> doc == Existing(Contents(), rs, m)
      {
        if doc.None? && rs[i] in inboxes && m in inboxes[rs[i]] {
          doc := Some(inboxes[rs[i]][m]);
        }
        assert rs[i..][1..] == rs[i + 1..];
        i := i + 1;
      }
      if doc.None? && m in history {
        doc := Some(history[m]);
      }
    }

    method FindMissing(rs: seq<string>, m: MsgId) returns (missing: seq<string>)
      ensures missing == Missing(Contents(), rs, m)
    {
      missing := [];
      for i := 0 to |rs|
        invariant missing == Missing(Contents(), rs[..i], m)
      {
        assert rs[..i + 1][..i] == rs[..i];
        if !(rs[i] in inboxes && m in inboxes[rs[i]]) {
          missing := missing + [rs[i]];
        }
      }
      assert rs[..|rs|] == rs;
    }

    /** An identical copy exists: put it where it is missing. */
    method Replay(req: Request, rs: seq<string>, doc: Doc, stop: nat) returns (r: Reply)
      requires rs == Recipients(Contents(), req.fields)
      modifies this`inboxes, this`history
      ensures var plan := ReplayPlan(old(Contents()), req, doc);
        && Contents() == Written(old(Contents()), Landed(plan.writes, stop))
        && r == if stop < |plan.writes| then Died else plan.reply
    {
      ghost var s := Contents();
      var missing := FindMissing(rs, req.id);
      ghost var puts, tail := Puts(missing, req.id, doc), ReplayTail(s, req.id, doc);
      PutAll(missing, req.id, doc, stop);
      LandedConcat(puts, tail, stop);
      if stop < |missing| {
        return Died;
      }
      assert Contents() == Written(s, puts);
      TailFrame(s, Contents(), req.id, doc);
      WrittenConcat(s, puts, tail);
      r := RecordReplay(req.id, doc, |missing|, stop == |missing|);
    }

    /** The end of a replay, by a process that may die first. */
    method RecordReplay(m: MsgId, doc: Doc, backfilled: nat, dies: bool) returns (r: Reply)
      modifies this`history
      ensures var tail := ReplayTail(old(Contents()), m, doc);
        if dies && tail != [] then r == Died && Contents() == old(Contents())
        else r == ReplayReply(old(Contents()), m, doc, backfilled) && Contents() == Written(old(Contents()), tail)
    {
      ghost var s := Contents();
      if m in history {
        return Replayed(backfilled);
      }
      if HistoryRefusal(Contents(), doc).None? && dies {
        return Died;
      }
      WrittenSnoc(s, [], Record(doc));
      assert [] + [Record(doc)] == [Record(doc)];
      var error := AppendHistory(doc);
      return if error.Some? then Refused(error.value) else Replayed(backfilled);
    }

    /** Nothing has this id: two passes over the inboxes, then history. */
    method SendFresh(req: Request, rs: seq<string>, now: int, stop: nat) returns (r: Reply)
      requires rs == Recipients(Contents(), req.fields)
      requires ValidFields(req.fields) && SafeMsgId(req.id) && req.id !in history
      modifies this`inboxes, this`history, this`cursor
      ensures Contents() == Written(old(Contents()), Landed(FreshWrites(old(Contents()), req, now), stop))
      ensures r == if stop < |FreshWrites(old(Contents()), req, now)| then Died else Sent
    {
      ghost var s := Contents();
      FreshInTwo(s, req, now, stop);
      var doc := Envelope(id, req.id, req.fields, req.attachments, None);
      PutAll(rs, req.id, doc, stop);
      if stop <= |rs| {
        return Died;
      }
      var c := AdvanceCursor(now);
      doc := doc.(stamp := Some(c));
      r := StampAndRecord(rs, req.id, doc, stop - |rs| - 1);
    }

    /** The second pass and the history record. */
    method StampAndRecord(rs: seq<string>, m: MsgId, doc: Doc, stop: nat) returns (r: Reply)
      requires HistoryRefusal(Contents(), doc).None?
      modifies this`inboxes, this`history
      ensures Contents() == Written(old(Contents()), Landed(SecondPass(rs, m, doc), stop))
      ensures r == if stop < |SecondPass(rs, m, doc)| then Died else Sent
    {
      ghost var s := Contents();
      ghost var puts := Puts(rs, m, doc);
      PutAll(rs, m, doc, stop);
      LandedConcat(puts, [Record(doc)], stop);
      if stop <= |rs| {
        return Died;
      }
      WrittenSnoc(s, puts, Record(doc));
      var error := AppendHistory(doc);
      return Sent;
    }

    /** send, by a process that dies before its write number `stop`. */
    method Send(req: Request, now: int, stop: nat) returns (r: Reply)
      modifies this`inboxes, this`history, this`cursor
      ensures Contents() == After(old(Contents()), req, now, stop)
      ensures var plan := PlanOf(old(Contents()), req, now);
        r == if stop < |plan.writes| then Died else plan.reply
    {
      var refusal := Refusal(Contents(), req);
      if refusal.Some? {
        return Refused(refusal.value);
      }
      var rs := Recipients(Contents(), req.fields);
      var existing := FindExisting(rs, req.id);
      if existing.Some? {
        if !SamePayload(existing.value, id, req) {
          return Refused(DifferentPayload);
        }
        r := Replay(req, rs, existing.value, stop);
        return;
      }
      if !ValidFields(req.fields) {
        return Refused(SchemaInvalid);
      }
      ExistingHistory(Contents(), rs, req.id);
      r := SendFresh(req, rs, now, stop);
    }
  }

  /** Inbox writes leave everything else alone. */
  lemma {:induction false} PutsKeep(s: Session, rs: seq<string>, m: MsgId, doc: Doc)
    ensures var s' := Written(s, Puts(rs, m, doc));
      s'.id == s.id && s'.roster == s.roster && s'.history == s.history && s'.cursor == s.cursor
    decreases |rs|
  {
    if rs != [] {
      var init := rs[..|rs| - 1];
      assert Puts(rs, m, doc)[..|rs| - 1] == Puts(init, m, doc);
      PutsKeep(s, init, m, doc);
    }
  }

  lemma {:induction false} ExistingHistory(s: Session, rs: seq<string>, m: MsgId)
    requires Existing(s, rs, m).None?
    ensures m !in s.history
    ensures forall a :: a in rs ==> At(s, a, m).None?
  {
    if rs != [] {
      ExistingHistory(s, rs[1..], m);
    }
  }
}
