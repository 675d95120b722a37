/** The store run by one thread: the loops and branches of read, finalize,
    release, renew_claim and recover_stale over the directories of one agent. */
module MailboxStore {
  import opened Basics
  import opened MailboxFs

  /** `.tmp-claim-{msg}-{owner}-{nonce}.json` */
  datatype TmpKey = TmpKey(msg: MsgId, owner: Owner, nonce: int)

  type TmpDir = map<TmpKey, int>

  datatype Outcome = Done | NoClaim | ManyClaims | NotInProcessing | OwnerMismatch

  datatype Attempt = Again | Contested | Won

  // ==== What each operation does to the box ====

  /** What _reap_expired_claim does once the lease of k has run out. */
  function Reaped(b: Box, k: ClaimKey): Box {
    Unlink(if k.msg in b.processing then GiveBack(b, k.msg) else b, k)
  }

  /** One attempt of read() at the inbox file `name`. */
  function Try(b: Box, tmp: TmpDir, agent: Owner, roster: set<Owner>, name: MsgId, owner: Owner, nonce: int, now: int)
    : (r: (Box, TmpDir, Attempt))
    requires name in b.inbox
  {
    var k := ClaimKey(name, owner);
    if !Acceptable(b.inbox[name], agent, roster, name) then (Quarantine(b, name), tmp, Again)
    else if TmpKey(name, owner, nonce) in tmp then (b, tmp - {TmpKey(name, owner, nonce)}, Again)
    else if k !in b.claims then (Take(b.(claims := b.claims[k := now]), name), tmp, Won)
    else if b.claims[k] >= Cutoff(now) then (b, tmp, Contested)
    else (Reaped(b, k), tmp, Again)
  }

  function Finalized(b: Box, m: MsgId, owner: Owner): (Outcome, Box) {
    var found := ClaimsOn(b, m);
    if |found| == 0 then (NoClaim, b)
    else if |found| > 1 then (ManyClaims, b)
    else if m !in b.processing then (NotInProcessing, b)
    else if ClaimKey(m, owner) !in found then (OwnerMismatch, b)
    else (Done, Unlink(Retire(b, m), ClaimKey(m, owner)))
  }

  /** finalize_from_inbox: from the inbox, or from processing without a foreign claim. */
  function FinalizedDirect(b: Box, m: MsgId, owner: Owner): (Outcome, Box) {
    if m in b.inbox then (Done, RetireUnread(b, m))
    else if m !in b.processing then (NotInProcessing, b)
    else if !(ClaimsOn(b, m) <= {ClaimKey(m, owner)}) then (OwnerMismatch, b)
    else (Done, Retire(b, m))
  }

  function Released(b: Box, m: MsgId, owner: Owner): (Outcome, Box) {
    var found := ClaimsOn(b, m);
    if m !in b.processing then (NotInProcessing, b)
    else if |found| > 1 then (ManyClaims, b)
    else if found != {} && ClaimKey(m, owner) !in found then (OwnerMismatch, b)
    else (Done, Unlink(GiveBack(b, m), ClaimKey(m, owner)))
  }

  function Renewed(b: Box, m: MsgId, owner: Owner, now: int): (bool, Box) {
    if m in b.processing && |ClaimsOn(b, m)| == 1 && ClaimKey(m, owner) in b.claims
    then (true, b.(claims := b.claims[ClaimKey(m, owner) := now]))
    else (false, b)
  }

  /** recover_stale at one claim file. */
  function SweptOne(b: Box, k: ClaimKey, now: int): Box
    requires k in b.claims
  {
    if k.msg !in b.processing then if b.claims[k] >= OrphanGate(now) then b else Unlink(b, k)
    else if b.claims[k] >= Cutoff(now) then b
    else Unlink(GiveBack(b, k.msg), k)
  }

  /** recover_stale over a listing of claim files. */
  function Swept(b: Box, keys: seq<ClaimKey>, now: int): Box
    requires Distinct(keys) && forall k :: k in keys ==> k in b.claims
    decreases |keys|
  {
    if keys == [] then b
    else
      var b1 := SweptOne(b, keys[0], now);
      Swept(b1, keys[1..], now)
  }

  // ==== Listing ====

  /** list_messages: every file once, oldest mtime first. */
  ghost predicate IsListing(files: seq<MsgId>, dir: map<MsgId, File>) {
    && Distinct(files)
    && (forall m :: m in files <==> m in dir)
    && forall i, j :: 0 <= i < j < |files| ==> dir[files[i]].mtime <= dir[files[j]].mtime
  }

  lemma {:induction false} OldestExists(dir: map<MsgId, File>, s: set<MsgId>) returns (m: MsgId)
    requires s != {} && s <= dir.Keys
    ensures m in s && forall n :: n in s ==> dir[m].mtime <= dir[n].mtime
    decreases s
  {
    var x :| x in s;
    var rest := s - {x};
    m := x;
    if rest != {} {
      var y := OldestExists(dir, rest);
      m := if dir[y].mtime < dir[x].mtime then y else x;
    }
    assert forall n :: n in s ==> n == x || n in rest;
  }

  method ListMessages(dir: map<MsgId, File>) returns (files: seq<MsgId>)
    ensures IsListing(files, dir)
  {
    files := [];
    var rest := dir.Keys;
    while rest != {}
      invariant rest <= dir.Keys && Distinct(files)
      invariant forall m :: m in files <==> m in dir && m !in rest
      invariant forall i, j :: 0 <= i < j < |files| ==> dir[files[i]].mtime <= dir[files[j]].mtime
      invariant forall m, n :: m in files && n in rest ==> dir[m].mtime <= dir[n].mtime
      decreases rest
    {
      var oldest := OldestExists(dir, rest);
      assert oldest in rest && forall n :: n in rest ==> dir[oldest].mtime <= dir[n].mtime;
      var m :| m in rest && forall n :: n in rest ==> dir[m].mtime <= dir[n].mtime;
      assert forall i :: 0 <= i < |files| ==> files[i] in files;
      files := files + [m];
      rest := rest - {m};
    }
  }

  // ==== The store ====

  ghost predicate NeverBack(clock: nat -> int) {
    forall i: nat, j: nat :: i <= j ==> clock(i) <= clock(j)
  }

  lemma GoesOn(clock: nat -> int, i: nat, j: nat)
    requires NeverBack(clock) && i <= j
    ensures clock(i) <= clock(j)
  {
  }

  /** The clock gets past the lease of a claim with this stamp. */
  ghost predicate Passes(clock: nat -> int, stamp: int) {
    exists i: nat :: stamp < Cutoff(clock(i))
  }

  /** A message read() would hand to this owner: acceptable, not skipped, and
      not under a fresh claim of the same owner. */
  predicate Wanted(b: Box, agent: Owner, roster: set<Owner>, n: MsgId, owner: Owner, skip: set<MsgId>, now: int) {
    && n in b.inbox && n !in skip && Acceptable(b.inbox[n], agent, roster, n)
    && (ClaimKey(n, owner) in b.claims ==> b.claims[ClaimKey(n, owner)] < Cutoff(now))
  }

  /** A targeted read of an acceptable message under a fresh claim of the same
      owner retries at once: it does not look at its contested set. */
  predicate Spins(b: Box, agent: Owner, roster: set<Owner>, n: MsgId, owner: Owner, now: int) {
    && n in b.inbox && Acceptable(b.inbox[n], agent, roster, n)
    && ClaimKey(n, owner) in b.claims && b.claims[ClaimKey(n, owner)] >= Cutoff(now)
  }

  function Restrict(dir: map<MsgId, File>, names: set<MsgId>): map<MsgId, File> {
    map n | n in names && n in dir :: dir[n]
  }

  /** Claims only disappeared, and only expired ones of this owner. */
  ghost predicate ClaimsTrimmed(before: map<ClaimKey, int>, after: map<ClaimKey, int>, owner: Owner, now: int) {
    && (forall k :: k in after ==> k in before && after[k] == before[k])
    && (forall k :: k in before && k !in after ==> k.owner == owner && before[k] < Cutoff(now))
  }

  ghost predicate OldestFirst(dir: map<MsgId, File>, done: set<MsgId>, left: set<MsgId>) {
    forall m, n :: m in done && n in left && m in dir && n in dir ==> dir[m].mtime <= dir[n].mtime
  }

  /** What an untargeted read promises that looks at the clock from `first` to
      `last`: it obtains a message wanted at `last` that is at least as old as
      every message wanted at `first`, and quarantines every older unacceptable
      one; or no message was wanted at `first`, and it quarantines every
      unacceptable one not skipped. */
  ghost predicate ReadResult(b: Box, b': Box, agent: Owner, roster: set<Owner>, owner: Owner, skip: set<MsgId>,
                             first: int, last: int, r: Option<Message>)
  {
    exists gone: set<MsgId> ::
      && gone <= b.inbox.Keys && gone !! skip
      && (forall n :: n in gone ==> !Acceptable(b.inbox[n], agent, roster, n))
      && b'.corrupt == b.corrupt + Restrict(b.inbox, gone) && b'.archive == b.archive
      && match r
         case None =>
           && (forall n :: !Wanted(b, agent, roster, n, owner, skip, first))
           && (forall n :: n in b.inbox && n !in skip && !Acceptable(b.inbox[n], agent, roster, n) ==> n in gone)
           && b'.inbox == b.inbox - gone && b'.processing == b.processing
           && ClaimsTrimmed(b.claims, b'.claims, owner, last)
         case Some(msg) =>
           var n := msg.id;
           && Wanted(b, agent, roster, n, owner, skip, last) && b.inbox[n].msg == msg
           && (forall w :: Wanted(b, agent, roster, w, owner, skip, first) ==> b.inbox[n].mtime <= b.inbox[w].mtime)
           && (forall q :: q in gone ==> b.inbox[q].mtime <= b.inbox[n].mtime)
           && (forall q :: (q in b.inbox && q !in skip && !Acceptable(b.inbox[q], agent, roster, q)
                 && b.inbox[q].mtime < b.inbox[n].mtime) ==> q in gone)
           && b'.inbox == b.inbox - gone - {n} && b'.processing == b.processing[n := b.inbox[n]]
           && ClaimKey(n, owner) in b'.claims && b'.claims[ClaimKey(n, owner)] == last
           && ClaimsTrimmed(b.claims - {ClaimKey(n, owner)}, b'.claims - {ClaimKey(n, owner)}, owner, last)
  }

  /** What a targeted read promises: the target is obtained if acceptable and
      quarantined if not; nothing else moves. */
  ghost predicate TargetedResult(b: Box, b': Box, agent: Owner, roster: set<Owner>, owner: Owner, n: MsgId, now: int,
                                 r: Option<Message>)
  {
    if n !in b.inbox then r == None && b' == b
    else if !Acceptable(b.inbox[n], agent, roster, n) then r == None && b' == Quarantine(b, n)
    else r == Some(b.inbox[n].msg) && b' == Take(b.(claims := b.claims[ClaimKey(n, owner) := now]), n)
  }

  /** The first listed file outside `excluded`. */
  method FirstCandidate(files: seq<MsgId>, excluded: set<MsgId>) returns (r: Option<MsgId>)
    ensures r.None? ==> forall m :: m in files ==> m in excluded
    ensures r.Some? ==> exists i :: 0 <= i < |files| && files[i] == r.value && r.value !in excluded
                                    && forall j :: 0 <= j < i ==> files[j] in excluded
  {
    for i := 0 to |files|
      invariant forall j :: 0 <= j < i ==> files[j] in excluded
    {
      if files[i] !in excluded {
        return Some(files[i]);
      }
    }
    return None;
  }

  // ---- the loop of read() ----

  lemma ListingPick(files: seq<MsgId>, dir: map<MsgId, File>, excluded: set<MsgId>, r: Option<MsgId>)
    requires IsListing(files, dir)
    requires r.None? ==> forall m :: m in files ==> m in excluded
    requires r.Some? ==> exists i :: 0 <= i < |files| && files[i] == r.value && r.value !in excluded
                                     && forall j :: 0 <= j < i ==> files[j] in excluded
    ensures r.None? ==> dir.Keys <= excluded
    ensures r.Some? ==> Oldest(dir, dir.Keys - excluded, r.value)
  {
    if r.None? {
      forall m | m in dir
        ensures m in excluded
      {
        assert m in files;
      }
    } else {
      var i :| 0 <= i < |files| && files[i] == r.value && r.value !in excluded && forall j :: 0 <= j < i ==> files[j] in excluded;
      assert files[i] in files;
      forall m | m in dir.Keys - excluded
        ensures dir[r.value].mtime <= dir[m].mtime
      {
        assert m in files;
        var j :| 0 <= j < |files| && files[j] == m;
      }
    }
  }

  ghost predicate Oldest(dir: map<MsgId, File>, s: set<MsgId>, m: MsgId) {
    m in s && m in dir && forall n :: n in s && n in dir ==> dir[m].mtime <= dir[n].mtime
  }

  /** Where the untargeted loop stands: `gone` are quarantined, `contested` set aside. */
  ghost predicate Progress(b: Box, cur: Box, gone: set<MsgId>, contested: set<MsgId>,
                           agent: Owner, roster: set<Owner>, owner: Owner, skip: set<MsgId>, first: int, now: int)
  {
    && gone <= b.inbox.Keys && gone !! skip
    && (forall n :: n in gone ==> !Acceptable(b.inbox[n], agent, roster, n))
    && (forall n :: n in contested ==>
          n in b.inbox && Acceptable(b.inbox[n], agent, roster, n) && !Wanted(b, agent, roster, n, owner, skip, first))
    && cur.processing == b.processing && cur.archive == b.archive
    && cur.inbox == b.inbox - gone && cur.corrupt == b.corrupt + Restrict(b.inbox, gone)
    && ClaimsTrimmed(b.claims, cur.claims, owner, now)
    && OldestFirst(b.inbox, gone + contested, b.inbox.Keys - gone - skip - contested)
  }

  lemma ProgressStart(b: Box, agent: Owner, roster: set<Owner>, owner: Owner, skip: set<MsgId>, first: int, now: int)
    ensures Progress(b, b, {}, {}, agent, roster, owner, skip, first, now)
  {
    assert b.inbox - {} == b.inbox;
    assert b.corrupt + Restrict(b.inbox, {}) == b.corrupt;
  }

  lemma ProgressEmpty(b: Box, cur: Box, gone: set<MsgId>, contested: set<MsgId>,
                      agent: Owner, roster: set<Owner>, owner: Owner, skip: set<MsgId>, first: int, now: int)
    requires Progress(b, cur, gone, contested, agent, roster, owner, skip, first, now)
    requires cur.inbox.Keys <= skip + contested
    ensures ReadResult(b, cur, agent, roster, owner, skip, first, now, None)
  {
    forall n
      ensures !Wanted(b, agent, roster, n, owner, skip, first)
      ensures n in b.inbox && n !in skip && !Acceptable(b.inbox[n], agent, roster, n) ==> n in gone
    {
      assert n in b.inbox && n !in gone ==> n in cur.inbox;
    }
  }

  /** `name` is the oldest file the untargeted loop may still look at. */
  ghost predicate Next(b: Box, cur: Box, gone: set<MsgId>, contested: set<MsgId>, agent: Owner, roster: set<Owner>,
                       owner: Owner, skip: set<MsgId>, first: int, now: int, name: MsgId)
  {
    && Progress(b, cur, gone, contested, agent, roster, owner, skip, first, now)
    && name in cur.inbox && name !in skip && name !in contested && cur.inbox[name] == b.inbox[name]
    && forall n :: n in b.inbox.Keys - gone - skip - contested ==> b.inbox[name].mtime <= b.inbox[n].mtime
  }

  lemma OldestIsNext(b: Box, cur: Box, gone: set<MsgId>, contested: set<MsgId>, agent: Owner, roster: set<Owner>,
                     owner: Owner, skip: set<MsgId>, first: int, now: int, name: MsgId)
    requires Progress(b, cur, gone, contested, agent, roster, owner, skip, first, now)
    requires Oldest(cur.inbox, cur.inbox.Keys - (skip + contested), name)
    ensures Next(b, cur, gone, contested, agent, roster, owner, skip, first, now, name)
  {
    forall n | n in b.inbox.Keys - gone - skip - contested
      ensures b.inbox[name].mtime <= b.inbox[n].mtime
    {
      assert n in cur.inbox;
    }
  }

  lemma ProgressQuarantine(b: Box, cur: Box, gone: set<MsgId>, contested: set<MsgId>, agent: Owner, roster: set<Owner>,
                           owner: Owner, skip: set<MsgId>, first: int, now: int, name: MsgId)
    requires Next(b, cur, gone, contested, agent, roster, owner, skip, first, now, name)
    requires !Acceptable(cur.inbox[name], agent, roster, name)
    ensures Progress(b, Quarantine(cur, name), gone + {name}, contested, agent, roster, owner, skip, first, now)
  {
    assert b.inbox - (gone + {name}) == cur.inbox - {name};
    assert b.corrupt + Restrict(b.inbox, gone + {name}) == cur.corrupt[name := b.inbox[name]];
  }

  lemma ProgressContested(b: Box, cur: Box, gone: set<MsgId>, contested: set<MsgId>, agent: Owner, roster: set<Owner>,
                          owner: Owner, skip: set<MsgId>, first: int, now: int, name: MsgId)
    requires Next(b, cur, gone, contested, agent, roster, owner, skip, first, now, name)
    requires first <= now && Acceptable(cur.inbox[name], agent, roster, name) && HeldAgainst(cur, ClaimKey(name, owner), now)
    ensures Progress(b, cur, gone, contested + {name}, agent, roster, owner, skip, first, now)
  {
  }

  predicate HeldAgainst(b: Box, k: ClaimKey, now: int) {
    k in b.claims && b.claims[k] >= Cutoff(now)
  }

  lemma ProgressReaped(b: Box, cur: Box, gone: set<MsgId>, contested: set<MsgId>, agent: Owner, roster: set<Owner>,
                       owner: Owner, skip: set<MsgId>, first: int, now: int, name: MsgId)
    requires Next(b, cur, gone, contested, agent, roster, owner, skip, first, now, name) && Disjoint(cur)
    requires ClaimKey(name, owner) in cur.claims && cur.claims[ClaimKey(name, owner)] < Cutoff(now)
    ensures Progress(b, Reaped(cur, ClaimKey(name, owner)), gone, contested, agent, roster, owner, skip, first, now)
  {
    assert InExactlyOnePlace(cur, name);
  }

  lemma TrimmedWon(before: map<ClaimKey, int>, after: map<ClaimKey, int>, k: ClaimKey, now: int)
    requires ClaimsTrimmed(before, after, k.owner, now) && k !in after
    ensures ClaimsTrimmed(before - {k}, after[k := now] - {k}, k.owner, now)
    ensures k in before ==> before[k] < Cutoff(now)
  {
    assert after[k := now] - {k} == after;
  }

  lemma ProgressWon(b: Box, cur: Box, gone: set<MsgId>, contested: set<MsgId>, agent: Owner, roster: set<Owner>,
                    owner: Owner, skip: set<MsgId>, first: int, now: int, name: MsgId)
    requires Next(b, cur, gone, contested, agent, roster, owner, skip, first, now, name)
    requires ClaimKey(name, owner) !in cur.claims && Acceptable(cur.inbox[name], agent, roster, name)
    ensures ReadResult(b, Take(cur.(claims := cur.claims[ClaimKey(name, owner) := now]), name),
                       agent, roster, owner, skip, first, now, Some(cur.inbox[name].msg))
  {
    TrimmedWon(b.claims, cur.claims, ClaimKey(name, owner), now);
    assert cur.inbox - {name} == b.inbox - gone - {name};
  }

  /** Where the targeted loop stands. */
  ghost predicate TargetProgress(b: Box, cur: Box, agent: Owner, roster: set<Owner>, owner: Owner, n: MsgId) {
    || cur == b
    || (n in b.inbox && !Acceptable(b.inbox[n], agent, roster, n) && cur == Quarantine(b, n))
    || (n in b.inbox && Acceptable(b.inbox[n], agent, roster, n) && cur == Unlink(b, ClaimKey(n, owner)))
  }

  lemma TargetTry(b: Box, cur: Box, tmp: TmpDir, agent: Owner, roster: set<Owner>, owner: Owner, n: MsgId, now: int, nonce: int)
    requires TargetProgress(b, cur, agent, roster, owner, n) && Disjoint(cur) && n in cur.inbox
    ensures var (cur', tmp', out) := Try(cur, tmp, agent, roster, n, owner, nonce, now);
      match out
      case Won => TargetedResult(b, cur', agent, roster, owner, n, now, Some(cur.inbox[n].msg))
      case Contested => cur' == b == cur && Spins(b, agent, roster, n, owner, now)
      case Again => TargetProgress(b, cur', agent, roster, owner, n)
  {
    assert InExactlyOnePlace(cur, n);
    var k := ClaimKey(n, owner);
    assert (b.claims - {k})[k := now] == b.claims[k := now];
  }

  // ---- both kinds of loop together ----

  ghost predicate Standing(target: Option<MsgId>, b: Box, cur: Box, gone: set<MsgId>, contested: set<MsgId>,
                           agent: Owner, roster: set<Owner>, owner: Owner, skip: set<MsgId>, first: int, now: int)
  {
    match target
    case None => Progress(b, cur, gone, contested, agent, roster, owner, skip, first, now)
    case Some(n) => TargetProgress(b, cur, agent, roster, owner, n)
  }

  ghost predicate Promised(target: Option<MsgId>, b: Box, b': Box, agent: Owner, roster: set<Owner>, owner: Owner,
                           skip: set<MsgId>, first: int, now: int, r: Option<Message>)
  {
    match target
    case None => ReadResult(b, b', agent, roster, owner, skip, first, now, r)
    case Some(n) => TargetedResult(b, b', agent, roster, owner, n, now, r)
  }

  /** The files this iteration does not consider. */
  function Excluded(target: Option<MsgId>, inbox: map<MsgId, File>, skip: set<MsgId>, contested: set<MsgId>): set<MsgId> {
    if target.Some? then inbox.Keys - {target.value} else skip + contested
  }

  lemma StandingTry(target: Option<MsgId>, b: Box, cur: Box, tmp: TmpDir, gone: set<MsgId>, contested: set<MsgId>,
                    agent: Owner, roster: set<Owner>, owner: Owner, skip: set<MsgId>, first: int, now: int, name: MsgId, nonce: int)
    returns (gone': set<MsgId>)
    requires Standing(target, b, cur, gone, contested, agent, roster, owner, skip, first, now) && Disjoint(cur)
    requires first <= now && Oldest(cur.inbox, cur.inbox.Keys - Excluded(target, cur.inbox, skip, contested), name)
    ensures var (cur', tmp', out) := Try(cur, tmp, agent, roster, name, owner, nonce, now);
      match out
      case Won => Promised(target, b, cur', agent, roster, owner, skip, first, now, Some(cur.inbox[name].msg))
      case Contested =>
        && Standing(target, b, cur', gone', contested + {name}, agent, roster, owner, skip, first, now)
        && (target.Some? ==> Spins(b, agent, roster, target.value, owner, now))
      case Again => Standing(target, b, cur', gone', contested, agent, roster, owner, skip, first, now)
  {
    gone' := gone;
    var k := ClaimKey(name, owner);
    if target.Some? {
      TargetTry(b, cur, tmp, agent, roster, owner, target.value, now, nonce);
    } else {
      OldestIsNext(b, cur, gone, contested, agent, roster, owner, skip, first, now, name);
      if !Acceptable(cur.inbox[name], agent, roster, name) {
        ProgressQuarantine(b, cur, gone, contested, agent, roster, owner, skip, first, now, name);
        gone' := gone + {name};
      } else if TmpKey(name, owner, nonce) in tmp {
      } else if k !in cur.claims {
        ProgressWon(b, cur, gone, contested, agent, roster, owner, skip, first, now, name);
      } else if cur.claims[k] >= Cutoff(now) {
        ProgressContested(b, cur, gone, contested, agent, roster, owner, skip, first, now, name);
      } else {
        ProgressReaped(b, cur, gone, contested, agent, roster, owner, skip, first, now, name);
      }
    }
  }

  /** Time passes between two attempts. */
  lemma StandingLater(target: Option<MsgId>, b: Box, cur: Box, gone: set<MsgId>, contested: set<MsgId>,
                      agent: Owner, roster: set<Owner>, owner: Owner, skip: set<MsgId>, first: int, now: int, later: int)
    requires Standing(target, b, cur, gone, contested, agent, roster, owner, skip, first, now) && now <= later
    ensures Standing(target, b, cur, gone, contested, agent, roster, owner, skip, first, later)
  {
  }

  lemma StandingEmpty(target: Option<MsgId>, b: Box, cur: Box, gone: set<MsgId>, contested: set<MsgId>,
                      agent: Owner, roster: set<Owner>, owner: Owner, skip: set<MsgId>, first: int, now: int)
    requires Standing(target, b, cur, gone, contested, agent, roster, owner, skip, first, now) && Disjoint(b)
    requires cur.inbox.Keys <= Excluded(target, cur.inbox, skip, contested)
    ensures Promised(target, b, cur, agent, roster, owner, skip, first, now, None)
  {
    match target
    case None => ProgressEmpty(b, cur, gone, contested, agent, roster, owner, skip, first, now);
    case Some(n) => assert n in cur.inbox ==> n !in Excluded(target, cur.inbox, skip, contested);
  }

  ghost predicate SpinsNoMore(target: Option<MsgId>, b: Box, agent: Owner, roster: set<Owner>, owner: Owner, now: int) {
    target.Some? ==> !Spins(b, agent, roster, target.value, owner, now)
  }

  /** A bound on the attempts a targeted read spins. */
  lemma SpinLimit(target: Option<MsgId>, b: Box, agent: Owner, roster: set<Owner>, owner: Owner, clock: nat -> int)
    returns (limit: nat)
    requires NeverBack(clock)
    requires target.Some? && Spins(b, agent, roster, target.value, owner, clock(0)) ==>
      Passes(clock, b.claims[ClaimKey(target.value, owner)])
    ensures forall i: nat :: limit <= i ==> SpinsNoMore(target, b, agent, roster, owner, clock(i))
  {
    limit := 0;
    if target.Some? && Spins(b, agent, roster, target.value, owner, clock(0)) {
      limit :| b.claims[ClaimKey(target.value, owner)] < Cutoff(clock(limit));
    }
    forall i: nat | limit <= i ensures SpinsNoMore(target, b, agent, roster, owner, clock(i)) {
      assert clock(0) <= clock(i) && clock(limit) <= clock(i);
    }
  }

  predicate SamePlaces(b: Box, b': Box) {
    b'.inbox == b.inbox && b'.processing == b.processing && b'.archive == b.archive && b'.corrupt == b.corrupt
  }

  /** An attempt leaves the files where they are, quarantines its message, or
      takes it. */
  lemma TryPlaces(cur: Box, tmp: TmpDir, agent: Owner, roster: set<Owner>, name: MsgId, owner: Owner, nonce: int, now: int)
    requires name in cur.inbox && name !in cur.processing
    ensures var cur' := Try(cur, tmp, agent, roster, name, owner, nonce, now).0;
      SamePlaces(cur, cur') || SamePlaces(Quarantine(cur, name), cur') || SamePlaces(Take(cur, name), cur')
  {
  }

  lemma PlacesDisjoint(b: Box, b': Box)
    requires Disjoint(b) && SamePlaces(b, b')
    ensures Disjoint(b')
  {
    forall m | Known(b', m) ensures InExactlyOnePlace(b', m) {
      assert Known(b, m);
    }
  }

  lemma MoveDisjoint(b: Box, b': Box, name: MsgId)
    requires Disjoint(b) && name in b.inbox && (b' == Quarantine(b, name) || b' == Take(b, name))
    ensures Disjoint(b')
  {
    assert InExactlyOnePlace(b, name);
    forall m | Known(b', m) ensures InExactlyOnePlace(b', m) {
      assert Known(b, m) ==> InExactlyOnePlace(b, m);
    }
  }

  lemma TryKeepsDisjoint(cur: Box, tmp: TmpDir, agent: Owner, roster: set<Owner>, name: MsgId, owner: Owner, nonce: int, now: int)
    requires name in cur.inbox && Disjoint(cur)
    ensures Disjoint(Try(cur, tmp, agent, roster, name, owner, nonce, now).0)
  {
    var cur' := Try(cur, tmp, agent, roster, name, owner, nonce, now).0;
    assert InExactlyOnePlace(cur, name);
    TryPlaces(cur, tmp, agent, roster, name, owner, nonce, now);
    MoveDisjoint(cur, Quarantine(cur, name), name);
    MoveDisjoint(cur, Take(cur, name), name);
    if SamePlaces(cur, cur') {
      PlacesDisjoint(cur, cur');
    } else if SamePlaces(Quarantine(cur, name), cur') {
      PlacesDisjoint(Quarantine(cur, name), cur');
    } else {
      PlacesDisjoint(Take(cur, name), cur');
    }
  }

  lemma Shrinks<K, V>(m: map<K, V>, k: K)
    requires k in m
    ensures |m - {k}| == |m| - 1
  {
    assert (m - {k}).Keys == m.Keys - {k};
  }

  /** The loop's measure: claims and temporary claims, then inbox files, then
      files not set aside. */
  datatype Measure = Measure(claims: nat, files: nat, open: nat)

  ghost function MeasureOf(cur: Box, tmp: TmpDir, contested: set<MsgId>): Measure {
    Measure(|cur.claims| + |tmp|, |cur.inbox|, |cur.inbox.Keys - contested|)
  }

  predicate Less(m: Measure, n: Measure) {
    || m.claims < n.claims
    || (m.claims == n.claims && (m.files < n.files || (m.files == n.files && m.open < n.open)))
  }

  ghost predicate Smaller(cur': Box, tmp': TmpDir, contested': set<MsgId>, cur: Box, tmp: TmpDir, contested: set<MsgId>) {
    Less(MeasureOf(cur', tmp', contested'), MeasureOf(cur, tmp, contested))
  }

  lemma ReapSmaller(cur: Box, tmp: TmpDir, k: ClaimKey, contested: set<MsgId>)
    requires k.msg !in cur.processing && k in cur.claims
    ensures Reaped(cur, k).inbox == cur.inbox
    ensures Smaller(Reaped(cur, k), tmp, contested, cur, tmp, contested)
  {
    Shrinks(cur.claims, k);
  }

  lemma ContestSmaller(cur: Box, tmp: TmpDir, name: MsgId, contested: set<MsgId>)
    requires name in cur.inbox && name !in contested
    ensures Smaller(cur, tmp, contested + {name}, cur, tmp, contested)
  {
    assert cur.inbox.Keys - (contested + {name}) == (cur.inbox.Keys - contested) - {name};
  }

  /** Every attempt that does not end the loop makes its measure smaller; in
      particular reaping never grows the inbox. */
  lemma TryShrinks(cur: Box, tmp: TmpDir, agent: Owner, roster: set<Owner>, name: MsgId, owner: Owner, nonce: int, now: int,
                   contested: set<MsgId>)
    requires name in cur.inbox && name !in cur.processing
    ensures var (cur', tmp', out) := Try(cur, tmp, agent, roster, name, owner, nonce, now);
      && cur'.inbox.Keys <= cur.inbox.Keys
      && (out.Again? ==> Smaller(cur', tmp', contested, cur, tmp, contested))
      && (out.Contested? && name !in contested ==> Smaller(cur', tmp', contested + {name}, cur, tmp, contested))
  {
    var k := ClaimKey(name, owner);
    if !Acceptable(cur.inbox[name], agent, roster, name) {
      Shrinks(cur.inbox, name);
    } else if TmpKey(name, owner, nonce) in tmp {
      Shrinks(tmp, TmpKey(name, owner, nonce));
    } else if k in cur.claims {
      if cur.claims[k] < Cutoff(now) {
        ReapSmaller(cur, tmp, k, contested);
      } else if name !in contested {
        ContestSmaller(cur, tmp, name, contested);
      }
    }
  }

  class MailboxStore {
    const agent: Owner
    var inbox: map<MsgId, File>
    var processing: map<MsgId, File>
    var archive: map<MsgId, File>
    var corrupt: map<MsgId, File>
    var claims: map<ClaimKey, int>
    var tmpClaims: TmpDir

    constructor (agent: Owner)
      ensures this.agent == agent && tmpClaims == map[]
      ensures Contents() == Box(map[], map[], map[], map[], map[])
    {
      this.agent := agent;
      inbox, processing, archive, corrupt, claims, tmpClaims := map[], map[], map[], map[], map[], map[];
    }

    function Contents(): Box
      reads this
    {
      Box(inbox, processing, archive, corrupt, claims)
    }

    method ReapExpiredClaim(k: ClaimKey, now: int) returns (reaped: bool)
      modifies this`inbox, this`processing, this`claims
      ensures reaped == (k in old(claims) && old(claims)[k] < Cutoff(now))
      ensures Contents() == if reaped then Reaped(old(Contents()), k) else old(Contents())
    {
      if k !in claims || claims[k] >= Cutoff(now) {
        return false;
      }
      if k.msg in processing {
        inbox := inbox[k.msg := processing[k.msg]];
        processing := processing - {k.msg};
      }
      claims := claims - {k};
      return true;
    }

    method TryClaim(name: MsgId, owner: Owner, roster: set<Owner>, nonce: int, now: int) returns (outcome: Attempt)
      requires name in inbox
      modifies this
      ensures (Contents(), tmpClaims, outcome)
           == Try(old(Contents()), old(tmpClaims), agent, roster, name, owner, nonce, now)
    {
      var f := inbox[name];
      if !Acceptable(f, agent, roster, name) {
        corrupt := corrupt[name := f];
        inbox := inbox - {name};
        return Again;
      }
      var tmp := TmpKey(name, owner, nonce);
      if tmp in tmpClaims {
        tmpClaims := tmpClaims - {tmp};
        return Again;
      }
      tmpClaims := tmpClaims[tmp := now];
      var k := ClaimKey(name, owner);
      if k in claims {
        tmpClaims := tmpClaims - {tmp};
        assert tmpClaims == old(tmpClaims);
        var reaped := ReapExpiredClaim(k, now);
        return if reaped then Again else Contested;
      }
      claims := claims[k := now];
      processing := processing[name := f];
      inbox := inbox - {name};
      tmpClaims := tmpClaims - {tmp};
      assert tmpClaims == old(tmpClaims);
      return Won;
    }

    method Finalize(m: MsgId, owner: Owner) returns (r: Outcome)
      modifies this`processing, this`archive, this`claims
      ensures (r, Contents()) == Finalized(old(Contents()), m, owner)
    {
      var found := ClaimsOn(Contents(), m);
      if |found| == 0 {
        return NoClaim;
      }
      if |found| > 1 {
        return ManyClaims;
      }
      if m !in processing {
        return NotInProcessing;
      }
      var claim :| claim in found;
      if claim.owner != owner {
        SoleElement(found, claim);
        return OwnerMismatch;
      }
      archive := archive[m := processing[m]];
      processing := processing - {m};
      claims := claims - {claim};
      return Done;
    }

    method FinalizeFromInbox(m: MsgId, owner: Owner) returns (r: Outcome)
      modifies this`inbox, this`processing, this`archive
      ensures (r, Contents()) == FinalizedDirect(old(Contents()), m, owner)
    {
      if m in inbox {
        archive := archive[m := inbox[m]];
        inbox := inbox - {m};
        return Done;
      }
      if m !in processing {
        return NotInProcessing;
      }
      var rest := ClaimsOn(Contents(), m);
      ghost var found := rest;
      while rest != {}
        invariant rest <= found && forall k :: k in found - rest ==> k.owner == owner
        decreases rest
      {
        var k :| k in rest;
        if k.owner != owner {
          return OwnerMismatch;
        }
        rest := rest - {k};
      }
      assert found <= {ClaimKey(m, owner)};
      archive := archive[m := processing[m]];
      processing := processing - {m};
      return Done;
    }

    method Release(m: MsgId, owner: Owner) returns (r: Outcome)
      modifies this`processing, this`inbox, this`claims
      ensures (r, Contents()) == Released(old(Contents()), m, owner)
    {
      var found := ClaimsOn(Contents(), m);
      if m !in processing {
        return NotInProcessing;
      }
      if |found| > 1 {
        return ManyClaims;
      }
      if found != {} {
        var claim :| claim in found;
        if claim.owner != owner {
          SoleElement(found, claim);
          return OwnerMismatch;
        }
        claims := claims - {claim};
      } else {
        assert ClaimKey(m, owner) !in found;
        assert claims - {ClaimKey(m, owner)} == claims;
      }
      inbox := inbox[m := processing[m]];
      processing := processing - {m};
      return Done;
    }

    method RenewClaim(m: MsgId, owner: Owner, now: int) returns (renewed: bool)
      modifies this`claims
      ensures (renewed, Contents()) == Renewed(old(Contents()), m, owner, now)
    {
      var found := ClaimsOn(Contents(), m);
      if m !in processing || |found| != 1 {
        return false;
      }
      var claim :| claim in found;
      if claim.owner != owner {
        SoleElement(found, claim);
        assert ClaimKey(m, owner) !in found;
        return false;
      }
      claims := claims[claim := now];
      return true;
    }

    /** The oldest inbox file this iteration may look at. */
    method Pick(excluded: set<MsgId>) returns (name: Option<MsgId>)
      ensures name.None? ==> inbox.Keys <= excluded
      ensures name.Some? ==> Oldest(inbox, inbox.Keys - excluded, name.value)
    {
      var files := ListMessages(inbox);
      name := FirstCandidate(files, excluded);
      ListingPick(files, inbox, excluded, name);
    }

    /** One turn of the loop in read(), at time `now`: `done` ends it with
        answer `r`. */
    method Turn(owner: Owner, skip: set<MsgId>, target: Option<MsgId>, roster: set<Owner>, now: int,
                contested: set<MsgId>, ghost b: Box, ghost gone: set<MsgId>, ghost first: int)
      returns (done: bool, r: Option<Message>, contested': set<MsgId>, ghost gone': set<MsgId>)
      requires Disjoint(b) && Disjoint(Contents()) && first <= now
      requires Standing(target, b, Contents(), gone, contested, agent, roster, owner, skip, first, now)
      modifies this
      ensures Disjoint(Contents())
      ensures done ==> Promised(target, b, Contents(), agent, roster, owner, skip, first, now, r)
      ensures !done ==> Standing(target, b, Contents(), gone', contested', agent, roster, owner, skip, first, now)
      ensures !done ==>
        || Smaller(Contents(), tmpClaims, contested', old(Contents()), old(tmpClaims), contested)
        || (target.Some? && Spins(b, agent, roster, target.value, owner, now))
    {
      done, r, contested', gone' := true, None, contested, gone;
      var name := Pick(Excluded(target, inbox, skip, contested));
      if name.None? {
        StandingEmpty(target, b, Contents(), gone, contested, agent, roster, owner, skip, first, now);
        return;
      }
      var f := inbox[name.value];
      var nonce :| 1000 <= nonce <= 9999;
      ghost var cur, tmp := Contents(), tmpClaims;
      TryKeepsDisjoint(cur, tmp, agent, roster, name.value, owner, nonce, now);
      assert InExactlyOnePlace(cur, name.value);
      TryShrinks(cur, tmp, agent, roster, name.value, owner, nonce, now, contested);
      gone' := StandingTry(target, b, cur, tmp, gone, contested, agent, roster, owner, skip, first, now, name.value, nonce);
      var outcome := TryClaim(name.value, owner, roster, nonce, now);
      match outcome {
        case Won =>
          r := Some(f.msg);
        case Contested =>
          done, contested' := false, contested + {name.value};
        case Again =>
          done := false;
      }
    }

    /** read() run alone, on a clock that never goes back and is read once per
        attempt; `at` is when the last attempt read it. A targeted read that
        meets a fresh claim of its own owner ends once the clock passes the
        lease. */
    method Read(owner: Owner, skip: set<MsgId>, target: Option<MsgId>, roster: set<Owner>, clock: nat -> int)
      returns (r: Option<Message>, ghost at: int)
      requires Disjoint(Contents()) && NeverBack(clock)
      requires target.Some? && Spins(Contents(), agent, roster, target.value, owner, clock(0)) ==>
        Passes(clock, claims[ClaimKey(target.value, owner)])
      modifies this
      ensures Disjoint(Contents()) && exists i: nat :: at == clock(i)
      ensures Promised(target, old(Contents()), Contents(), agent, roster, owner, skip, clock(0), at, r)
    {
      ghost var b, gone, first := Contents(), {}, clock(0);
      ghost var limit := SpinLimit(target, b, agent, roster, owner, clock);
      ghost var last: nat := 0;
      var contested: set<MsgId> := {};
      ghost var left := MeasureOf(b, tmpClaims, contested);
      var done, i := false, 0;
      r, at := None, first;
      ProgressStart(b, agent, roster, owner, skip, first, first);
      while !done
        invariant Disjoint(b) && Disjoint(Contents())
        invariant last <= i && at == clock(last)
        invariant !done ==> Standing(target, b, Contents(), gone, contested, agent, roster, owner, skip, first, at)
        invariant done ==> Promised(target, b, Contents(), agent, roster, owner, skip, first, at, r)
        invariant left == MeasureOf(Contents(), tmpClaims, contested)
        decreases !done, if i < limit then limit - i else 0, left.claims, left.files, left.open
      {
        GoesOn(clock, 0, i);
        GoesOn(clock, last, i);
        StandingLater(target, b, Contents(), gone, contested, agent, roster, owner, skip, first, at, clock(i));
        at, last := clock(i), i;
        done, r, contested, gone := Turn(owner, skip, target, roster, clock(i), contested, b, gone, first);
        left := MeasureOf(Contents(), tmpClaims, contested);
        assert limit <= i ==> SpinsNoMore(target, b, agent, roster, owner, clock(i));
        i := i + 1;
      }
    }

    /** recover_stale() run alone; `order` is the order of the claim listing. */
    method RecoverStale(now: int) returns (recovered: nat, ghost order: seq<ClaimKey>)
      modifies this
      ensures Distinct(order) && (forall k :: k in order <==> k in old(claims))
      ensures Contents() == Swept(old(Contents()), order, now)
      ensures recovered == |old(processing).Keys - processing.Keys|
      ensures tmpClaims == map t | t in old(tmpClaims) && now - old(tmpClaims)[t] <= 30 :: old(tmpClaims)[t]
    {
      var keys := ListClaims();
      order := keys;
      recovered := SweepClaims(keys, now);
      tmpClaims := map t | t in tmpClaims && tmpClaims[t] >= OrphanGate(now) :: tmpClaims[t];
    }

    method SweepClaims(keys: seq<ClaimKey>, now: int) returns (recovered: nat)
      requires SweepInput(Contents(), keys)
      modifies this`inbox, this`processing, this`claims
      ensures Contents() == Swept(old(Contents()), keys, now)
      ensures recovered == |old(processing).Keys - processing.Keys|
    {
      recovered := 0;
      ghost var b := Contents();
      var rest := keys;
      while rest != []
        invariant SweepInput(Contents(), rest)
        invariant Swept(b, keys, now) == Swept(Contents(), rest, now)
        invariant processing.Keys <= b.processing.Keys && recovered == |b.processing.Keys - processing.Keys|
      {
        SweepInputStep(Contents(), rest, now);
        ghost var before := processing.Keys;
        var moved := SweepClaim(rest[0], now);
        if moved {
          OneMoreGone(b.processing.Keys, before, rest[0].msg);
          recovered := recovered + 1;
        }
        rest := rest[1..];
      }
    }

    method SweepClaim(k: ClaimKey, now: int) returns (moved: bool)
      requires k in claims
      modifies this`inbox, this`processing, this`claims
      ensures Contents() == SweptOne(old(Contents()), k, now)
      ensures moved == (k.msg in old(processing) && old(claims)[k] < Cutoff(now))
      ensures processing.Keys == old(processing).Keys - if moved then {k.msg} else {}
    {
      moved := false;
      if k.msg !in processing {
        if claims[k] < OrphanGate(now) {
          claims := claims - {k};
        }
      } else if claims[k] < Cutoff(now) {
        inbox := inbox[k.msg := processing[k.msg]];
        processing := processing - {k.msg};
        claims := claims - {k};
        moved := true;
      }
    }

    method ListClaims() returns (keys: seq<ClaimKey>)
      ensures Distinct(keys) && forall k :: k in keys <==> k in claims
    {
      keys := [];
      var rest := claims.Keys;
      while rest != {}
        invariant rest <= claims.Keys && Distinct(keys)
        invariant forall k :: k in keys <==> k in claims && k !in rest
        decreases rest
      {
        var k :| k in rest;
        assert forall i :: 0 <= i < |keys| ==> keys[i] in keys;
        keys := keys + [k];
        rest := rest - {k};
      }
    }
  }

  lemma OneMoreGone<T>(all: set<T>, before: set<T>, x: T)
    requires before <= all && x in before
    ensures |all - (before - {x})| == |all - before| + 1
  {
    assert all - (before - {x}) == (all - before) + {x};
  }

  lemma SoleElement<T>(s: set<T>, x: T)
    requires |s| <= 1 && x in s
    ensures s == {x}
  {
    assert |s - {x}| == |s| - 1;
  }

  // ==== What a sweep does, whatever the order of its listing ====

  /** Some listed claim on m has outlived its lease. */
  ghost predicate Abandoned(b: Box, keys: seq<ClaimKey>, m: MsgId, now: int) {
    exists k :: k in keys && k in b.claims && k.msg == m && b.claims[k] < Cutoff(now)
  }

  ghost predicate SweepInput(b: Box, keys: seq<ClaimKey>) {
    Distinct(keys) && (forall k :: k in keys ==> k in b.claims)
  }

  lemma SweepInputStep(b: Box, keys: seq<ClaimKey>, now: int)
    requires SweepInput(b, keys) && keys != []
    ensures keys[0] in b.claims && SweepInput(SweptOne(b, keys[0], now), keys[1..])
  {
    assert keys[0] in keys;
    forall k | k in keys[1..]
      ensures k in SweptOne(b, keys[0], now).claims
    {
      assert k in keys;
    }
  }

  lemma SweptOneStep(b: Box, keys: seq<ClaimKey>, now: int)
    requires SweepInput(b, keys) && keys != []
    ensures SweepInput(SweptOne(b, keys[0], now), keys[1..])
    ensures forall k :: k in keys[1..] ==> k != keys[0]
    ensures forall m ::
      Abandoned(b, keys, m, now)
      <==> Abandoned(SweptOne(b, keys[0], now), keys[1..], m, now) || (m == keys[0].msg && b.claims[keys[0]] < Cutoff(now))
  {
    var b1 := SweptOne(b, keys[0], now);
    forall k | k in keys[1..]
      ensures k != keys[0] && k in b1.claims && b1.claims[k] == b.claims[k]
    {
      assert k in keys;
    }
    forall m
      ensures Abandoned(b, keys, m, now)
        <==> Abandoned(b1, keys[1..], m, now) || (m == keys[0].msg && b.claims[keys[0]] < Cutoff(now))
    {
      if Abandoned(b, keys, m, now) {
        var k :| k in keys && k in b.claims && k.msg == m && b.claims[k] < Cutoff(now);
        assert k == keys[0] || k in keys[1..];
      }
      if m == keys[0].msg && b.claims[keys[0]] < Cutoff(now) {
        assert keys[0] in keys;
      }
    }
  }

  lemma {:induction false} SweepReturnsOne(b: Box, keys: seq<ClaimKey>, now: int, m: MsgId)
    requires SweepInput(b, keys)
    ensures SweptRight(b, Swept(b, keys, now), m, Abandoned(b, keys, m, now))
    decreases |keys|
  {
    if keys != [] {
      SweptOneStep(b, keys, now);
      SweepReturnsOne(SweptOne(b, keys[0], now), keys[1..], now, m);
    }
  }

  /** m went back to the inbox if it was in processing and abandoned, and
      otherwise is where it was. */
  predicate SweptRight(b: Box, b': Box, m: MsgId, abandoned: bool) {
    && (m in b'.processing <==> m in b.processing && !abandoned)
    && (m in b'.processing ==> b'.processing[m] == b.processing[m])
    && (m in b'.inbox <==> m in b.inbox || (m in b.processing && abandoned))
    && (m in b'.inbox ==> b'.inbox[m] == if m in b.processing && abandoned then b.processing[m] else b.inbox[m])
    && b'.archive == b.archive && b'.corrupt == b.corrupt
  }

  /** Some claim on m is more than 3570 s old. */
  ghost predicate Expired(b: Box, m: MsgId, now: int) {
    exists k :: k in b.claims && k.msg == m && now - b.claims[k] > 3570
  }

  /** A sweep returns exactly the messages in processing that have a claim older
      than 3570 s, unchanged, whatever the order of its listing. */
  lemma SweepReturns(b: Box, keys: seq<ClaimKey>, now: int)
    requires SweepInput(b, keys) && forall k :: k in b.claims ==> k in keys
    ensures forall m :: SweptRight(b, Swept(b, keys, now), m, Expired(b, m, now))
  {
    forall m
      ensures SweptRight(b, Swept(b, keys, now), m, Expired(b, m, now))
    {
      SweepReturnsOne(b, keys, now, m);
      assert Abandoned(b, keys, m, now) <==> Expired(b, m, now);
    }
  }

  /** Which claims survive a sweep: those at most 30 s old, and those at most
      3570 s old whose message is in processing and was not
      recycled through an expired claim listed earlier. */
  lemma {:induction false} SweepKeepsClaims(b: Box, keys: seq<ClaimKey>, now: int, i: nat)
    requires SweepInput(b, keys) && i < |keys|
    ensures keys[i] in Swept(b, keys, now).claims
      <==> || now - b.claims[keys[i]] <= 30
           || (now - b.claims[keys[i]] <= 3570 && keys[i].msg in b.processing
               && !Abandoned(b, keys[..i], keys[i].msg, now))
    decreases |keys|
  {
    var b1 := SweptOne(b, keys[0], now);
    SweptOneStep(b, keys, now);
    if i == 0 {
      assert !Abandoned(b, keys[..0], keys[0].msg, now);
      SweepOnlyUnlinks(b1, keys[1..], now, keys[0]);
    } else {
      SweepKeepsClaims(b1, keys[1..], now, i - 1);
      assert keys[..i][0] == keys[0] && keys[..i][1..] == keys[1..][..i - 1];
      assert keys[i] in keys[1..] && b1.claims[keys[i]] == b.claims[keys[i]];
      assert forall k :: k in keys[..i] ==> k in keys;
      SweptOneStep(b, keys[..i], now);
    }
  }

  lemma {:induction false} SweepOnlyUnlinks(b: Box, keys: seq<ClaimKey>, now: int, k: ClaimKey)
    requires SweepInput(b, keys) && k !in keys
    ensures k in Swept(b, keys, now).claims <==> k in b.claims
    decreases |keys|
  {
    if keys != [] {
      SweptOneStep(b, keys, now);
      assert k != keys[0];
      SweepOnlyUnlinks(SweptOne(b, keys[0], now), keys[1..], now, k);
    }
  }

  /** How long a targeted read spins: at any later time an attempt leaves the
      box as it is, and would try again, if and only if the claim is still at
      most 3570 s old; the first attempt after that drops the claim, and the
      next one obtains the message. */
  lemma SpinsWhileFresh(b: Box, tmp: TmpDir, agent: Owner, roster: set<Owner>, n: MsgId, owner: Owner, nonce: int,
                        now: int, later: int)
    requires Disjoint(b) && Spins(b, agent, roster, n, owner, now) && TmpKey(n, owner, nonce) !in tmp
    ensures var k := ClaimKey(n, owner);
      var (b', tmp', out) := Try(b, tmp, agent, roster, n, owner, nonce, later);
      && tmp' == tmp
      && (later - b.claims[k] <= 3570 <==> b' == b)
      && (later - b.claims[k] <= 3570 ==> out == Contested && Spins(b', agent, roster, n, owner, later))
      && (later - b.claims[k] > 3570 ==>
            && out == Again && b' == Unlink(b, k)
            && forall next :: Try(b', tmp', agent, roster, n, owner, nonce, next)
                           == (Take(b.(claims := b.claims[k := next]), n), tmp, Won))
  {
    var k := ClaimKey(n, owner);
    assert InExactlyOnePlace(b, n);
    assert k in b.claims && k !in Unlink(b, k).claims;
    if later - b.claims[k] > 3570 {
      forall next
        ensures Try(Unlink(b, k), tmp, agent, roster, n, owner, nonce, next)
             == (Take(b.(claims := b.claims[k := next]), n), tmp, Won)
      {
        assert (b.claims - {k})[k := next] == b.claims[k := next];
      }
    }
  }

  // ==== When the operations succeed, and what they leave ====

  /** The owners with a claim file on m are exactly these. */
  ghost predicate ClaimedBy(b: Box, m: MsgId, owners: set<Owner>) {
    forall o :: ClaimKey(m, o) in b.claims <==> o in owners
  }

  ghost predicate ClaimedTwice(b: Box, m: MsgId) {
    exists o, p :: o != p && ClaimKey(m, o) in b.claims && ClaimKey(m, p) in b.claims
  }

  function OwnersOf(b: Box, m: MsgId): set<Owner> {
    set k | k in b.claims && k.msg == m :: k.owner
  }

  lemma OwnersCount(b: Box, m: MsgId)
    ensures |OwnersOf(b, m)| == |ClaimsOn(b, m)| && ClaimedBy(b, m, OwnersOf(b, m))
    ensures forall o :: ClaimKey(m, o) in ClaimsOn(b, m) <==> o in OwnersOf(b, m)
  {
    forall o ensures ClaimKey(m, o) in b.claims <==> o in OwnersOf(b, m) {
      if ClaimKey(m, o) in b.claims {
        assert ClaimKey(m, o).owner in OwnersOf(b, m);
      }
    }
    KeysForOwners(m, ClaimsOn(b, m), OwnersOf(b, m));
  }

  lemma {:induction false} KeysForOwners(m: MsgId, keys: set<ClaimKey>, owners: set<Owner>)
    requires forall k :: k in keys ==> k.msg == m && k.owner in owners
    requires forall o :: o in owners ==> ClaimKey(m, o) in keys
    ensures |keys| == |owners|
    decreases keys
  {
    if k :| k in keys {
      assert ClaimKey(m, k.owner) == k;
      KeysForOwners(m, keys - {k}, owners - {k.owner});
    } else {
      assert owners == {};
    }
  }

  /** One message's file has left `from` for `to`, nothing else moved, and of the
      claim files only `dropped` is gone. */
  predicate MovedOut(b: Box, b': Box, m: MsgId, archived: bool, dropped: ClaimKey) {
    && m in b.processing
    && b'.processing == b.processing - {m}
    && b'.archive == (if archived then b.archive[m := b.processing[m]] else b.archive)
    && b'.inbox == (if archived then b.inbox else b.inbox[m := b.processing[m]])
    && b'.corrupt == b.corrupt
    && b'.claims == b.claims - {dropped}
  }

  /** finalize succeeds if and only if the message is in processing and its
      caller is the one owner with a claim on it, whatever other messages are
      claimed; then the message is archived and that claim removed. Which error
      it reports otherwise, in order of the checks. */
  lemma FinalizeOutcome(b: Box, m: MsgId, owner: Owner)
    ensures var (out, b') := Finalized(b, m, owner);
      && (out == Done <==> m in b.processing && ClaimedBy(b, m, {owner}))
      && (out == NoClaim <==> ClaimedBy(b, m, {}))
      && (out == ManyClaims <==> ClaimedTwice(b, m))
      && (out == NotInProcessing <==> m !in b.processing && exists o :: ClaimedBy(b, m, {o}))
      && (out == OwnerMismatch <==> m in b.processing && exists o :: o != owner && ClaimedBy(b, m, {o}))
      && (if out == Done then MovedOut(b, b', m, true, ClaimKey(m, owner)) else b' == b)
  {
    OwnersCount(b, m);
    OwnersCases(b, m);
  }

  /** No claim, one, or two different ones. */
  lemma OwnersCases(b: Box, m: MsgId)
    ensures var os := OwnersOf(b, m);
      && (|os| == 0 <==> ClaimedBy(b, m, {}))
      && (|os| == 1 <==> exists o :: ClaimedBy(b, m, {o}))
      && (|os| > 1 <==> ClaimedTwice(b, m))
      && forall o :: ClaimedBy(b, m, {o}) <==> os == {o}
  {
    OwnersCount(b, m);
    var os := OwnersOf(b, m);
    if |os| == 1 {
      var o :| o in os;
      OneElement(os, o);
      assert ClaimedBy(b, m, {o});
    } else if |os| > 1 {
      var o :| o in os;
      assert |os - {o}| == |os| - 1;
      var p :| p in os - {o};
      assert ClaimKey(m, o) in b.claims && ClaimKey(m, p) in b.claims;
    }
    if o, p :| o != p && ClaimKey(m, o) in b.claims && ClaimKey(m, p) in b.claims {
      assert {o, p} <= os;
      TwoAtLeast(os, o, p);
    }
    forall o ensures ClaimedBy(b, m, {o}) <==> os == {o} {
      if ClaimedBy(b, m, {o}) {
        assert forall x :: x in os <==> x in {o};
      }
    }
  }

  lemma OneElement<T>(s: set<T>, x: T)
    requires |s| == 1 && x in s
    ensures s == {x}
  {
    assert |s - {x}| == 0;
  }

  lemma TwoAtLeast<T>(s: set<T>, x: T, y: T)
    requires x in s && y in s && x != y
    ensures |s| >= 2
  {
    assert |s - {x}| == |s| - 1 && y in s - {x};
  }

  /** release succeeds if and only if the message is in processing and nobody but
      the caller has a claim on it, even if the caller has none. */
  lemma ReleaseOutcome(b: Box, m: MsgId, owner: Owner)
    ensures var (out, b') := Released(b, m, owner);
      && (out == Done <==> m in b.processing && (ClaimedBy(b, m, {}) || ClaimedBy(b, m, {owner})))
      && (out == NotInProcessing <==> m !in b.processing)
      && (out == ManyClaims <==> m in b.processing && ClaimedTwice(b, m))
      && (out == OwnerMismatch <==> m in b.processing && exists o :: o != owner && ClaimedBy(b, m, {o}))
      && (if out == Done then MovedOut(b, b', m, false, ClaimKey(m, owner)) else b' == b)
  {
    OwnersCount(b, m);
    OwnersCases(b, m);
    if ClaimsOn(b, m) == {} {
      assert OwnersOf(b, m) == {};
    }
  }

  /** renew_claim answers true if and only if the message is in processing and
      the caller is the one owner with a claim on it; then that claim carries the
      new stamp, and nothing else changes. */
  lemma RenewOutcome(b: Box, m: MsgId, owner: Owner, now: int)
    ensures var (renewed, b') := Renewed(b, m, owner, now);
      && (renewed <==> m in b.processing && ClaimedBy(b, m, {owner}))
      && SamePlaces(b, b')
      && b'.claims == if renewed then b.claims[ClaimKey(m, owner) := now] else b.claims
  {
    OwnersCount(b, m);
    OwnersCases(b, m);
    if |OwnersOf(b, m)| == 1 && owner in OwnersOf(b, m) {
      OneElement(OwnersOf(b, m), owner);
    }
  }

  /** Reaping gives the message back if it is in processing, and drops exactly
      the expired claim. */
  lemma ReapOutcome(b: Box, k: ClaimKey)
    requires Disjoint(b)
    ensures var b' := Reaped(b, k);
      if k.msg in b.processing then MovedOut(b, b', k.msg, false, k)
      else SamePlaces(b, b') && b'.claims == b.claims - {k}
  {
  }

  // ==== Which messages a read hands out ====

  /** Well-formed for this agent: the file parses, passes the schema check, is
      addressed to the agent or to everyone, and is named after its id. */
  predicate WellFormed(f: File, agent: Owner, name: MsgId) {
    f.Parsed? && f.msg.schemaOk && f.msg.to in {One(agent), Everyone} && f.msg.id == name
  }

  /** The owner has no claim on the message, or one more than 3570 s old. */
  predicate FreeFor(b: Box, n: MsgId, owner: Owner, now: int) {
    ClaimKey(n, owner) in b.claims ==> now - b.claims[ClaimKey(n, owner)] > 3570
  }

  /** What an untargeted read hands out is well-formed for the agent and from a
      member of the roster, and was in the inbox under its id; and it hands out
      something if some such message is not skipped and not freshly claimed by the
      caller. Whatever it quarantines is ill-formed or from outside the roster. */
  lemma ReadHandsOut(b: Box, b': Box, agent: Owner, roster: set<Owner>, owner: Owner, skip: set<MsgId>,
                     first: int, last: int, r: Option<Message>)
    requires ReadResult(b, b', agent, roster, owner, skip, first, last, r)
    ensures r.Some? && ClaimKey(r.value.id, owner) in b.claims ==> last - b.claims[ClaimKey(r.value.id, owner)] > 3570
    ensures r.Some? ==>
      var n := r.value.id;
      && n in b.inbox && n !in skip && WellFormed(b.inbox[n], agent, n) && b.inbox[n].msg == r.value
      && r.value.sender in roster && n !in b'.inbox && n in b'.processing && b'.processing[n] == b.inbox[n]
    ensures forall n :: n in b.inbox && n !in skip && WellFormed(b.inbox[n], agent, n) && b.inbox[n].msg.sender in roster
                        && FreeFor(b, n, owner, first) ==>
      r.Some? && b.inbox[r.value.id].mtime <= b.inbox[n].mtime
    ensures forall n :: n in b.inbox && n !in b'.inbox ==>
      (r.Some? && n == r.value.id)
      || (n in b'.corrupt && !(WellFormed(b.inbox[n], agent, n) && b.inbox[n].msg.sender in roster))
  {
    forall n | n in b.inbox && n !in skip && WellFormed(b.inbox[n], agent, n) && b.inbox[n].msg.sender in roster
               && FreeFor(b, n, owner, first)
      ensures r.Some? && b.inbox[r.value.id].mtime <= b.inbox[n].mtime
    {
      assert Wanted(b, agent, roster, n, owner, skip, first);
    }
  }

  /** The same for a targeted read. */
  lemma TargetHandedOut(b: Box, b': Box, agent: Owner, roster: set<Owner>, owner: Owner, n: MsgId, at: int, r: Option<Message>)
    requires TargetedResult(b, b', agent, roster, owner, n, at, r)
    ensures r.Some? <==> n in b.inbox && WellFormed(b.inbox[n], agent, n) && b.inbox[n].msg.sender in roster
    ensures r.Some? ==> r.value == b.inbox[n].msg && n in b'.processing && b'.processing[n] == b.inbox[n]
                        && b'.inbox == b.inbox - {n} && b'.claims == b.claims[ClaimKey(n, owner) := at]
    ensures r.None? && n in b.inbox ==> n in b'.corrupt && b'.corrupt[n] == b.inbox[n] && b'.inbox == b.inbox - {n}
    ensures n !in b.inbox ==> b' == b
  {
  }

  // ---- finalize_from_inbox ----

  /** A direct finalize of a delivered message fails if and only if the message
      is gone, or is in processing under a claim of another owner; from the
      inbox it never looks at claims. It moves nothing but its message and
      leaves every claim file behind. */
  lemma DirectOutcome(b: Box, m: MsgId, owner: Owner)
    requires Disjoint(b)
    ensures var (out, b') := FinalizedDirect(b, m, owner);
      && (out != Done <==> (m !in b.inbox && m !in b.processing)
                           || (m in b.processing && exists k :: k in ClaimsOn(b, m) && k.owner != owner))
      && (out != Done ==> b' == b)
      && (out == Done ==> m in b'.archive && b'.inbox == b.inbox - {m} && b'.processing == b.processing - {m}
                          && b'.archive - {m} == b.archive - {m} && b'.claims == b.claims && b'.corrupt == b.corrupt)
  {
    assert Known(b, m) ==> InExactlyOnePlace(b, m);
    if m in b.inbox {
      assert b.processing - {m} == b.processing;
    } else if m in b.processing {
      assert b.inbox - {m} == b.inbox;
      forall k | k in ClaimsOn(b, m) && k.owner == owner ensures k == ClaimKey(m, owner) {}
    }
  }
}
