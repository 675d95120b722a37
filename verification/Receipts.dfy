/** READ receipts: deterministic ids, so that reading a message again replays
    its receipt instead of adding one. */
module Receipts {
  import opened Basics
  import opened Protocol
  import opened SendReplay
  import opened SendRuns

  /** The name the receipt id is made from. */
  function ReceiptName(session: string, msg: string, reader: string): string {
    session + ":" + msg + ":" + reader + ":" + READ
  }

  function ReceiptBody(msg: string, reader: string): string {
    "{\"receipt_type\": \"READ\", \"msg_id\": \"" + msg + "\", \"reader\": \"" + reader + "\"}"
  }

  /** The receipt a reader sends for a message with the given id and fields. */
  function ReceiptRequest(session: string, msg: string, original: Fields, reader: string): Request {
    Request(Uuid5(ReceiptName(session, msg, reader)),
            Fields(reader, original.sender, READ + " " + msg, ReceiptBody(msg, reader), Receipt,
                   msg, original.runId, original.requestId, "", original.traceId, "", false, READ),
            [])
  }

  class ReceiptSender {
    const store: SessionStore

    constructor (store: SessionStore)
      ensures this.store == store
    {
      this.store := store;
    }

    /** _emit_read_receipt without a delivery sink, by a process that dies
        before its write number `stop`. */
    method EmitReadReceipt(reader: string, msg: string, original: Fields, now: int, stop: nat) returns (r: Option<Reply>)
      modifies store
      ensures msg == "" ==> r == None && store.Contents() == old(store.Contents())
      ensures msg != "" ==>
        var s := old(store.Contents());
        var plan := PlanOf(s, ReceiptRequest(s.id, msg, original, reader), now);
        && store.Contents() == Written(s, Landed(plan.writes, stop))
        && r == Some(if stop < |plan.writes| then Died else plan.reply)
    {
      if msg == "" {
        return None;
      }
      var id := Uuid5(store.id + ":" + msg + ":" + reader + ":READ");
      var fields := Fields(reader, original.sender, "READ " + msg, ReceiptBody(msg, reader), Receipt,
                           msg, original.runId, original.requestId, "", original.traceId, "", false, "READ");
      assert id == Uuid5(ReceiptName(store.id, msg, reader));
      assert Request(id, fields, []) == ReceiptRequest(store.id, msg, original, reader);
      var reply := store.Send(Request(id, fields, []), now, stop);
      return Some(reply);
    }
  }

  lemma NotBlank(s: string, i: nat)
    requires i < |s| && !Whitespace(s[i])
    ensures !Blank(s)
  {}

  /** A receipt passes the schema check exactly when the message it answers has
      an id, a run and a request that are safe path components: the receipt of a
      message without a run or request is never delivered. */
  lemma ReceiptSendable(session: string, msg: string, original: Fields, reader: string)
    requires msg != ""
    ensures ValidFields(ReceiptRequest(session, msg, original, reader).fields)
       <==> SafePath(msg) && SafePath(original.runId) && SafePath(original.requestId)
  {
    var f := ReceiptRequest(session, msg, original, reader).fields;
    assert f.subject[0] == 'R' && f.body[0] == '{';
    NotBlank(f.subject, 0);
    NotBlank(f.body, 0);
    if SafePath(msg) && SafePath(original.runId) && SafePath(original.requestId) {
      SafeNotBlank(msg);
      SafeNotBlank(original.runId);
      SafeNotBlank(original.requestId);
    }
  }

  // ---- the name tells session, message and reader apart ----

  predicate NoColon(s: string) {
    ':' !in s
  }

  lemma SplitAtColon(a: string, x: string, b: string, y: string)
    requires NoColon(a) && NoColon(b) && a + ":" + x == b + ":" + y
    ensures a == b && x == y
  {
    var s, t := a + ":" + x, b + ":" + y;
    assert s[|a|] == ':' && t[|b|] == ':';
    assert forall i :: 0 <= i < |a| ==> s[i] == a[i] && a[i] in a;
    assert forall i :: 0 <= i < |b| ==> t[i] == b[i] && b[i] in b;
    assert a == s[..|a|] && b == t[..|b|];
    assert x == s[|a| + 1..] && y == t[|b| + 1..];
  }

  lemma SplitAtLastColon(x: string, a: string, y: string, b: string)
    requires NoColon(a) && NoColon(b) && x + ":" + a == y + ":" + b
    ensures x == y && a == b
  {
    var s, t := x + ":" + a, y + ":" + b;
    NothingAfter(x, a);
    NothingAfter(y, b);
    assert |x| == |y|;
    assert x == s[..|x|] && y == t[..|y|];
    assert a == s[|x| + 1..] && b == t[|y| + 1..];
  }

  lemma NothingAfter(x: string, a: string)
    requires NoColon(a)
    ensures var s := x + ":" + a; s[|x|] == ':' && forall i :: |x| < i < |s| ==> s[i] != ':'
  {
    var s := x + ":" + a;
    assert forall i :: |x| < i < |s| ==> s[i] == a[i - |x| - 1] && s[i] in a;
  }

  lemma SafeHasNoColon(s: string)
    requires SafeAgentId(s)
    ensures NoColon(s)
  {
    var t := Chomp(s);
    forall i | 0 <= i < |s| ensures s[i] != ':' {
      if i < |t| {
        assert SafeChar(t[i]);
      }
    }
  }

  /** The name tells session, message and reader apart, for every message id and
      for the session and reader ids the mailbox lets through. */
  lemma ReceiptNameInjective(session: string, m: string, r: string, session': string, m': string, r': string)
    requires SafeAgentId(session) && SafeAgentId(session') && SafeAgentId(r) && SafeAgentId(r')
    requires ReceiptName(session, m, r) == ReceiptName(session', m', r')
    ensures session == session' && m == m' && r == r'
  {
    SafeHasNoColon(session);
    SafeHasNoColon(session');
    SafeHasNoColon(r);
    SafeHasNoColon(r');
    var x, y := m + ":" + r, m' + ":" + r';
    NameParts(session, m, r);
    NameParts(session', m', r');
    SplitAtColon(session, x + END, session', y + END);
    SameEnd(x, y, END);
    SplitAtLastColon(m, r, m', r');
  }

  const END: string := ":" + READ

  lemma NameParts(session: string, m: string, r: string)
    ensures ReceiptName(session, m, r) == session + ":" + ((m + ":" + r) + END)
  {
  }

  lemma SameEnd(x: string, y: string, end: string)
    requires x + end == y + end
    ensures x == y
  {
    assert x == (x + end)[..|x + end| - |end|] && y == (y + end)[..|y + end| - |end|];
  }

  // ---- runs of reads ----

  /** A read emits its receipt, or something else happens in the session. */
  datatype Act = Emit(msg: string, reader: string, now: int, stop: nat) | Aside(next: Session)

  /** Receipts may leave inboxes, and history may gain other messages. */
  ghost predicate AsideLegal(s: Session, next: Session) {
    && SameFrame(s, next)
    && (forall a, name :: At(next, a, Uuid5(name)).Some? ==> At(next, a, Uuid5(name)) == At(s, a, Uuid5(name)))
    && (forall k :: k in s.history ==> k in next.history && next.history[k] == s.history[k])
    && (forall k :: k in next.history && k !in s.history ==> k.Given? && !IsReceipt(next.history[k]))
  }

  predicate IsReceipt(doc: Doc) {
    doc.Envelope? && doc.fields.kind == Receipt
  }

  predicate ReceiptFor(doc: Doc, msg: string, reader: string) {
    IsReceipt(doc) && doc.fields.replyTo == msg && doc.fields.sender == reader
  }

  type Originals = map<string, Fields>

  function Step(s: Session, originals: Originals, act: Act): Session {
    match act
    case Emit(m, r, now, stop) =>
      // read() checks the reader's id before anything else
      if m in originals && SafeAgentId(r) then After(s, ReceiptRequest(s.id, m, originals[m], r), now, stop) else s
    case Aside(next) => next
  }

  function Run(s: Session, originals: Originals, acts: seq<Act>): Session {
    if acts == [] then s
    else Step(Run(s, originals, acts[..|acts| - 1]), originals, acts[|acts| - 1])
  }

  ghost predicate LegalRun(s: Session, originals: Originals, acts: seq<Act>) {
    forall i :: 0 <= i < |acts| && acts[i].Aside? ==> AsideLegal(Run(s, originals, acts[..i]), acts[i].next)
  }

  /** Nothing in the session uses a receipt id yet. */
  ghost predicate NoReceipts(s: Session) {
    && (forall name :: NoCopy(s, Uuid5(name)))
    && forall k :: k in s.history ==> !IsReceipt(s.history[k])
  }

  /** All files under a receipt's id are that receipt; an unsendable one has none. */
  ghost predicate Own(s: Session, originals: Originals, m: string, r: string)
    requires m in originals
  {
    var req := ReceiptRequest(s.id, m, originals[m], r);
    Family(s, req) && (ValidFields(req.fields) || NoCopy(s, req.id))
  }

  ghost predicate NamedRight(s: Session, k: MsgId)
    requires k in s.history
  {
    IsReceipt(s.history[k]) ==>
      k == Uuid5(ReceiptName(s.id, s.history[k].fields.replyTo, s.history[k].fields.sender))
  }

  ghost predicate Tidy(s: Session, originals: Originals) {
    && (forall m, r :: m in originals && SafeAgentId(r) ==> Own(s, originals, m, r))
    && forall k :: k in s.history ==> NamedRight(s, k)
  }

  /** A receipt that cannot be sent writes nothing. */
  lemma UnsendableWritesNothing(s: Session, req: Request, now: int, stop: nat)
    requires Family(s, req) && (ValidFields(req.fields) || NoCopy(s, req.id)) && !Deliverable(s, req)
    ensures After(s, req, now, stop) == s
  {
    ExistingIsThere(s, Recipients(s, req.fields), req.id);
  }

  lemma EmitKeepsOwn(s: Session, originals: Originals, m: string, r: string, now: int, stop: nat, m': string, r': string)
    requires m in originals && m' in originals && SafeAgentId(r) && SafeAgentId(r')
    requires Own(s, originals, m, r) && Own(s, originals, m', r')
    ensures Own(After(s, ReceiptRequest(s.id, m, originals[m], r), now, stop), originals, m', r')
  {
    var req := ReceiptRequest(s.id, m, originals[m], r);
    var other := ReceiptRequest(s.id, m', originals[m'], r');
    if !Deliverable(s, req) {
      UnsendableWritesNothing(s, req, now, stop);
    } else {
      CallKeepsFamily(s, req, req, now, stop);
      if other.id == req.id {
        ReceiptNameInjective(s.id, m, r, s.id, m', r');
      } else {
        CallTouchesOnlyItsOwn(s, req, req, now, stop);
        var s' := After(s, req, now, stop);
        forall a ensures At(s', a, other.id) == At(s, a, other.id) {}
        assert other.id in s'.history <==> other.id in s'.history - {req.id};
        assert other.id in s.history <==> other.id in s.history - {req.id};
        assert other.id in s.history ==> s'.history[other.id] == (s'.history - {req.id})[other.id] == s.history[other.id];
      }
    }
  }

  lemma EmitKeepsNames(s: Session, originals: Originals, m: string, r: string, now: int, stop: nat, k: MsgId)
    requires m in originals && Own(s, originals, m, r)
    requires k in s.history ==> NamedRight(s, k)
    ensures var s' := After(s, ReceiptRequest(s.id, m, originals[m], r), now, stop);
      k in s'.history ==> NamedRight(s', k)
  {
    var req := ReceiptRequest(s.id, m, originals[m], r);
    if !Deliverable(s, req) {
      UnsendableWritesNothing(s, req, now, stop);
    } else {
      CallKeepsFamily(s, req, req, now, stop);
      CallTouchesOnlyItsOwn(s, req, req, now, stop);
      var s' := After(s, req, now, stop);
      if k in s'.history && k != req.id {
        assert k in s'.history - {req.id};
        assert k in s.history - {req.id} && (s'.history - {req.id})[k] == s.history[k];
      }
    }
  }

  lemma EmitKeepsTidy(s: Session, originals: Originals, m: string, r: string, now: int, stop: nat)
    requires Tidy(s, originals) && m in originals && SafeAgentId(r)
    ensures var s' := After(s, ReceiptRequest(s.id, m, originals[m], r), now, stop); Tidy(s', originals) && s'.id == s.id
  {
    var req := ReceiptRequest(s.id, m, originals[m], r);
    var s' := After(s, req, now, stop);
    assert Own(s, originals, m, r);
    forall m', r' | m' in originals && SafeAgentId(r') ensures Own(s', originals, m', r') {
      EmitKeepsOwn(s, originals, m, r, now, stop, m', r');
    }
    forall k | k in s'.history ensures NamedRight(s', k) {
      EmitKeepsNames(s, originals, m, r, now, stop, k);
    }
    if Deliverable(s, req) {
      CallKeepsFamily(s, req, req, now, stop);
    } else {
      UnsendableWritesNothing(s, req, now, stop);
    }
  }

  lemma AsideKeepsTidy(s: Session, originals: Originals, next: Session)
    requires Tidy(s, originals) && AsideLegal(s, next)
    ensures Tidy(next, originals)
  {
    forall m, r | m in originals && SafeAgentId(r) ensures Own(next, originals, m, r) {
      assert Own(s, originals, m, r);
      var id := ReceiptRequest(s.id, m, originals[m], r).id;
      assert id in next.history ==> id in s.history;
    }
    forall k | k in next.history ensures NamedRight(next, k) {
      assert k in s.history ==> NamedRight(s, k);
    }
  }

  lemma {:induction false} RunTidy(s: Session, originals: Originals, acts: seq<Act>)
    requires NoReceipts(s) && LegalRun(s, originals, acts)
    ensures Tidy(Run(s, originals, acts), originals) && Run(s, originals, acts).id == s.id
    decreases |acts|
  {
    if acts == [] {
      assert forall m, r :: m in originals ==> NoCopy(s, ReceiptRequest(s.id, m, originals[m], r).id);
    } else {
      var n := |acts| - 1;
      assert LegalRun(s, originals, acts[..n]) by {
        forall i | 0 <= i < n ensures acts[..i] == acts[..n][..i] {}
      }
      RunTidy(s, originals, acts[..n]);
      var mid := Run(s, originals, acts[..n]);
      match acts[n]
      case Emit(m, r, now, stop) =>
        if m in originals && SafeAgentId(r) {
          EmitKeepsTidy(mid, originals, m, r, now, stop);
        }
      case Aside(next) => AsideKeepsTidy(mid, originals, next);
    }
  }

  /** However often messages are read again, and wherever a read dies, history
      holds at most one receipt of each reader for each message. */
  lemma AtMostOneReceipt(s: Session, originals: Originals, acts: seq<Act>, m: string, r: string, k: MsgId, k': MsgId)
    requires NoReceipts(s) && LegalRun(s, originals, acts)
    requires var end := Run(s, originals, acts);
      k in end.history && k' in end.history && ReceiptFor(end.history[k], m, r) && ReceiptFor(end.history[k'], m, r)
    ensures k == k'
  {
    RunTidy(s, originals, acts);
    var end := Run(s, originals, acts);
    assert NamedRight(end, k) && NamedRight(end, k');
  }

  /** A READ receipt from r for the message m with these fields. */
  predicate Answers(doc: Doc, m: string, original: Fields, r: string) {
    && doc.Envelope? && doc.attachments == []
    && var f := doc.fields;
    && f.sender == r && f.to == original.sender
    && f.subject == "READ " + m
    && f.body == "{\"receipt_type\": \"READ\", \"msg_id\": \"" + m + "\", \"reader\": \"" + r + "\"}"
    && f.kind == Receipt && f.receiptType == "READ" && f.replyTo == m && !f.requireAck
    && f.runId == original.runId && f.requestId == original.requestId && f.traceId == original.traceId
  }

  /** ... and a read that emits its receipt to the end leaves exactly one, with
      the sender of the message and in history, under the id made from session,
      message and reader: it is never taken for a different message, whatever was
      read before. */
  lemma ReadLeavesOneReceipt(s: Session, originals: Originals, acts: seq<Act>, m: string, r: string, now: int)
    requires NoReceipts(s) && LegalRun(s, originals, acts) && m in originals && SafeAgentId(r)
    requires Deliverable(Run(s, originals, acts), ReceiptRequest(s.id, m, originals[m], r))
    ensures var mid := Run(s, originals, acts);
      var plan := PlanOf(mid, ReceiptRequest(s.id, m, originals[m], r), now);
      var end := Written(mid, plan.writes);
      var id := Uuid5(s.id + ":" + m + ":" + r + ":READ");
      && (plan.reply.Sent? || plan.reply.Replayed?)
      && (forall k :: k in end.history && ReceiptFor(end.history[k], m, r) <==> k == id)
      && id in end.history && Answers(end.history[id], m, originals[m], r)
      && (originals[m].sender != "*" ==>
            At(end, originals[m].sender, id).Some? && Answers(At(end, originals[m].sender, id).value, m, originals[m], r))
  {
    RunTidy(s, originals, acts);
    var mid := Run(s, originals, acts);
    var req := ReceiptRequest(s.id, m, originals[m], r);
    assert Own(mid, originals, m, r);
    CallSettles(mid, req, req, now);
    var plan := PlanOf(mid, req, now);
    EmitKeepsTidy(mid, originals, m, r, now, |plan.writes|);
    var end := Written(mid, plan.writes);
    NameSpelled(s.id, m, r);
    RecipientsAreAddressed(end, req.fields);
    CopiesAnswer(s.id, m, originals[m], r);
    forall k | k in end.history && ReceiptFor(end.history[k], m, r)
      ensures k == req.id
    {
      assert NamedRight(end, k);
    }
  }

  lemma NameSpelled(session: string, m: string, r: string)
    ensures ReceiptName(session, m, r) == session + ":" + m + ":" + r + ":READ"
  {
    assert ":" + READ == ":READ";
    assert session + ":" + m + ":" + r + ":READ" == session + ":" + m + ":" + r + (":" + READ);
  }

  lemma CopiesAnswer(session: string, m: string, original: Fields, r: string)
    ensures forall doc :: CopyOf(doc, session, ReceiptRequest(session, m, original, r)) ==> Answers(doc, m, original, r)
  {
    assert READ + " " + m == "READ " + m;
  }
}
