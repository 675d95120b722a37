/** The directories of one mailbox agent and the atomic renames between them.

    A directory is a map from file stem (the message id) to contents, and a
    completed `os.replace` or `os.link` is one step. A claim file is keyed by
    the pair (message, owner) and holds its `claimed_at` in whole seconds. */
module MailboxFs {

  // only ever compared
  type MsgId(==, !new)
  type Owner(==, !new)

  // src/codeagent/constants.py
  const LEASE_TIMEOUT_S: int := 3600
  const LEASE_CLOCK_TOLERANCE_S: int := 30
  // the literal 30.0 in recover_stale
  const ORPHAN_AGE_GATE_S: int := 30

  // "*" addresses everyone but the sender
  datatype Recipient = Everyone | One(agent: Owner)

  /** The fields the mailbox looks at. `schemaOk` stands for the checks of
      validate_message that look at the message alone. */
  datatype Message = Message(id: MsgId, sender: Owner, to: Recipient, receipt: bool, requireAck: bool, schemaOk: bool)

  datatype File = Unreadable(mtime: int) | Parsed(mtime: int, msg: Message)

  datatype ClaimKey = ClaimKey(msg: MsgId, owner: Owner)

  datatype Box = Box(
    inbox: map<MsgId, File>,
    processing: map<MsgId, File>,
    archive: map<MsgId, File>,
    corrupt: map<MsgId, File>,
    claims: map<ClaimKey, int>)

  /** A claim stamped before this instant counts as abandoned. */
  function Cutoff(now: int): int {
    now - LEASE_TIMEOUT_S + LEASE_CLOCK_TOLERANCE_S
  }

  function OrphanGate(now: int): int {
    now - ORPHAN_AGE_GATE_S
  }

  /** The claim files a glob for one message finds. */
  function ClaimsOn(b: Box, m: MsgId): set<ClaimKey> {
    set k | k in b.claims && k.msg == m
  }

  /** What read() accepts: parses, passes validation for this agent and file
      name, and comes from a roster member. */
  predicate Acceptable(f: File, agent: Owner, roster: set<Owner>, name: MsgId) {
    && f.Parsed?
    && f.msg.schemaOk
    && (f.msg.to == One(agent) || f.msg.to == Everyone)
    && f.msg.id == name
    && f.msg.sender in roster
  }

  // ---- os.replace between two directories ----

  function Take(b: Box, m: MsgId): Box
    requires m in b.inbox
  {
    b.(inbox := b.inbox - {m}, processing := b.processing[m := b.inbox[m]])
  }

  function GiveBack(b: Box, m: MsgId): Box
    requires m in b.processing
  {
    b.(processing := b.processing - {m}, inbox := b.inbox[m := b.processing[m]])
  }

  function Retire(b: Box, m: MsgId): Box
    requires m in b.processing
  {
    b.(processing := b.processing - {m}, archive := b.archive[m := b.processing[m]])
  }

  function RetireUnread(b: Box, m: MsgId): Box
    requires m in b.inbox
  {
    b.(inbox := b.inbox - {m}, archive := b.archive[m := b.inbox[m]])
  }

  function Quarantine(b: Box, m: MsgId): Box
    requires m in b.inbox
  {
    b.(inbox := b.inbox - {m}, corrupt := b.corrupt[m := b.inbox[m]])
  }

  function Unlink(b: Box, k: ClaimKey): Box {
    b.(claims := b.claims - {k})
  }

  // ---- where a message is ----

  predicate Known(b: Box, m: MsgId) {
    m in b.inbox || m in b.processing || m in b.archive || m in b.corrupt
  }

  predicate InExactlyOnePlace(b: Box, m: MsgId) {
    || (m in b.inbox && m !in b.processing && m !in b.archive && m !in b.corrupt)
    || (m !in b.inbox && m in b.processing && m !in b.archive && m !in b.corrupt)
    || (m !in b.inbox && m !in b.processing && m in b.archive && m !in b.corrupt)
    || (m !in b.inbox && m !in b.processing && m !in b.archive && m in b.corrupt)
  }

  ghost predicate Disjoint(b: Box) {
    forall m :: Known(b, m) ==> InExactlyOnePlace(b, m)
  }
}
