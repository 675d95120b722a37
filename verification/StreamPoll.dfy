/** The stat-cached mailbox poll of a stream subscription, against the full
    scan it stands for. */
module StreamPoll {
  import B = Basics
  import S = SendReplay
  import R = SendRuns

  type AgentId(==, !new)
  type Name(==, !new)
  type Sig(==, !new)       // (st_mtime_ns, st_size)
  type Body(!new)

  /** A cursor text: empty, "epoch/seq", "epoch", or not numeric. */
  datatype Cursor = Blank | Pair(epoch: int, seqNo: int) | EpochOnly(epoch: int) | NotNumeric

  datatype Key = Key(agent: AgentId, name: Name)

  /** What the file under a key holds while it has a given signature. */
  datatype Content = NotJson | Message(cursor: Cursor, body: Body)

  /** The signature identifies the content: it changes when the content does. */
  type Store = (Key, Sig) -> Content

  datatype FileEntry = FileEntry(name: Name, sig: Sig)

  datatype Inbox = Inbox(agent: AgentId, files: seq<FileEntry>)

  /** One stream event: which file it came from, in which version. */
  datatype Sent = Sent(key: Key, sig: Sig)

  type Cache = map<Key, Sig>

  // ---- cursors ----

  function Parse(c: Cursor): (int, int) {
    match c
    case Pair(e, s) => (e, s)
    case EpochOnly(e) => (e, 0)
    case _ => (0, 0)
  }

  /** _cursor_gt */
  predicate After(a: Cursor, b: Cursor) {
    var (e, s), (f, t) := Parse(a), Parse(b);
    e > f || (e == f && s > t)
  }

  predicate NotBefore(a: Cursor, b: Cursor) {
    a == b || After(a, b)
  }

  // ---- the uncached scan ----

  /** Worth sending to a subscription at `cursor`. */
  predicate Newer(c: Content, cursor: Cursor) {
    c.Message? && !c.cursor.Blank? && After(c.cursor, cursor)
  }

  function ScanFiles(store: Store, agent: AgentId, files: seq<FileEntry>, cursor: Cursor): seq<Sent> {
    if files == [] then []
    else
      var f := files[|files| - 1];
      ScanFiles(store, agent, files[..|files| - 1], cursor)
      + (if Newer(store(Key(agent, f.name), f.sig), cursor) then [Sent(Key(agent, f.name), f.sig)] else [])
  }

  /** What a scan without a cache sends. */
  function FullScan(store: Store, inboxes: seq<Inbox>, cursor: Cursor): seq<Sent> {
    if inboxes == [] then []
    else
      var last := inboxes[|inboxes| - 1];
      FullScan(store, inboxes[..|inboxes| - 1], cursor) + ScanFiles(store, last.agent, last.files, cursor)
  }

  // ---- the cached scan ----

  predicate Cached(cache: Cache, s: Sent) {
    s.key in cache && cache[s.key] == s.sig
  }

  function Uncached(sent: seq<Sent>, cache: Cache): seq<Sent> {
    if sent == [] then []
    else
      var last := sent[|sent| - 1];
      Uncached(sent[..|sent| - 1], cache) + (if Cached(cache, last) then [] else [last])
  }

  /** The cache after looking at every listed file of an inbox. */
  function Noted(cache: Cache, agent: AgentId, files: seq<FileEntry>): Cache {
    if files == [] then cache
    else
      var f := files[|files| - 1];
      Noted(cache, agent, files[..|files| - 1])[Key(agent, f.name) := f.sig]
  }

  /** ... and after dropping entries for files no longer listed. */
  function Trimmed(cache: Cache, agent: AgentId, files: seq<FileEntry>): Cache {
    map k | k in cache && !(k.agent == agent && forall f :: f in files ==> f.name != k.name) :: cache[k]
  }

  function Polled(cache: Cache, inboxes: seq<Inbox>): Cache {
    if inboxes == [] then cache
    else
      var last := inboxes[|inboxes| - 1];
      Trimmed(Noted(Polled(cache, inboxes[..|inboxes| - 1]), last.agent, last.files), last.agent, last.files)
  }

  /** The last event sent decides the new cursor. */
  function NewCursor(store: Store, cursor: Cursor, sent: seq<Sent>): Cursor {
    if sent == [] then cursor
    else
      var s := sent[|sent| - 1];
      if store(s.key, s.sig).Message? then store(s.key, s.sig).cursor else cursor
  }

  predicate ListedOnce(inboxes: seq<Inbox>) {
    && (forall i, j :: 0 <= i < j < |inboxes| ==> inboxes[i].agent != inboxes[j].agent)
    && forall i :: 0 <= i < |inboxes| ==> NamesOnce(inboxes[i].files)
  }

  predicate NamesOnce(files: seq<FileEntry>) {
    forall i, j :: 0 <= i < j < |files| ==> files[i].name != files[j].name
  }

  class StreamSubscription {
    var cursor: Cursor
    var statCache: Cache

    constructor (cursor: Cursor)
      ensures this.cursor == cursor && statCache == map[]
    {
      this.cursor := cursor;
      statCache := map[];
    }

    /** One inbox of _poll_mailbox: which events it sends. */
    method ScanInbox(store: Store, inbox: Inbox) returns (sent: seq<Sent>)
      requires NamesOnce(inbox.files)
      modifies this`statCache
      ensures sent == Uncached(ScanFiles(store, inbox.agent, inbox.files, cursor), old(statCache))
      ensures statCache == Trimmed(Noted(old(statCache), inbox.agent, inbox.files), inbox.agent, inbox.files)
    {
      var files := inbox.files;
      ghost var cache := statCache;
      sent := [];
      for i := 0 to |files|
        invariant sent == Uncached(ScanFiles(store, inbox.agent, files[..i], cursor), cache)
        invariant statCache == Noted(cache, inbox.agent, files[..i])
      {
        OneFile(store, inbox.agent, files, i, cursor, cache);
        var f := files[i];
        var key := Key(inbox.agent, f.name);
        if key in statCache && statCache[key] == f.sig {
          assert statCache == statCache[key := f.sig];
          continue;
        }
        statCache := statCache[key := f.sig];
        var msg := store(key, f.sig);
        if msg.NotJson? || msg.cursor.Blank? {
          continue;
        }
        if !After(msg.cursor, cursor) {
          continue;
        }
        sent := sent + [Sent(key, f.sig)];
      }
      assert files[..|files|] == files;
      var stale := set k | k in statCache && k.agent == inbox.agent && forall f :: f in files ==> f.name != k.name;
      assert statCache - stale == Trimmed(statCache, inbox.agent, files);
      statCache := statCache - stale;
    }

    /** _poll_mailbox over the listed inboxes. */
    method PollMailbox(store: Store, inboxes: seq<Inbox>) returns (sent: seq<Sent>)
      requires ListedOnce(inboxes)
      modifies this
      ensures sent == Uncached(FullScan(store, inboxes, old(cursor)), old(statCache))
      ensures statCache == Polled(old(statCache), inboxes)
      ensures cursor == NewCursor(store, old(cursor), sent)
    {
      sent := [];
      var lastCursor: Cursor := Blank;
      ghost var cache := statCache;
      for i := 0 to |inboxes|
        invariant cursor == old(cursor)
        invariant sent == Uncached(FullScan(store, inboxes[..i], cursor), cache)
        invariant statCache == Polled(cache, inboxes[..i])
        invariant sent == [] ==> lastCursor == Blank
        invariant sent != [] ==> lastCursor == NewCursor(store, cursor, sent) != Blank
      {
        OneInbox(store, inboxes, i, cursor, cache);
        var more := ScanInbox(store, inboxes[i]);
        LastSent(store, cursor, sent, more);
        sent := sent + more;
        if more != [] {
          lastCursor := store(more[|more| - 1].key, more[|more| - 1].sig).cursor;
        }
      }
      assert inboxes[..|inboxes|] == inboxes;
      if !lastCursor.Blank? {
        cursor := lastCursor;
      }
    }
  }

  /** The last event decides the cursor, and it has one. */
  lemma LastSent(store: Store, cursor: Cursor, sent: seq<Sent>, more: seq<Sent>)
    requires forall s :: s in more ==> Newer(store(s.key, s.sig), cursor)
    ensures if more == [] then sent + more == sent
      else
        var last := more[|more| - 1];
        store(last.key, last.sig).Message? && !store(last.key, last.sig).cursor.Blank?
        && NewCursor(store, cursor, sent + more) == store(last.key, last.sig).cursor
  {
    if more != [] {
      assert more[|more| - 1] in more;
    }
  }

  predicate SendsNewer(store: Store, cursor: Cursor, sent: seq<Sent>) {
    forall s :: s in sent ==> Newer(store(s.key, s.sig), cursor)
  }

  lemma {:induction false} NotedElsewhere(cache: Cache, agent: AgentId, files: seq<FileEntry>, k: Key)
    requires k.agent != agent || forall f :: f in files ==> f.name != k.name
    ensures k in Noted(cache, agent, files) <==> k in cache
    ensures k in cache ==> Noted(cache, agent, files)[k] == cache[k]
    decreases |files|
  {
    if files != [] {
      assert files == files[..|files| - 1] + [files[|files| - 1]];
      NotedElsewhere(cache, agent, files[..|files| - 1], k);
    }
  }

  /** One more listed file: what it adds to the events and to the cache. */
  lemma OneFile(store: Store, agent: AgentId, files: seq<FileEntry>, i: nat, cursor: Cursor, cache: Cache)
    requires NamesOnce(files) && i < |files|
    ensures var s := Sent(Key(agent, files[i].name), files[i].sig);
      && Cached(Noted(cache, agent, files[..i]), s) == Cached(cache, s)
      && Noted(cache, agent, files[..i + 1]) == Noted(cache, agent, files[..i])[s.key := s.sig]
      && Uncached(ScanFiles(store, agent, files[..i + 1], cursor), cache)
         == Uncached(ScanFiles(store, agent, files[..i], cursor), cache)
            + (if Newer(store(s.key, s.sig), cursor) && !Cached(cache, s) then [s] else [])
  {
    var s := Sent(Key(agent, files[i].name), files[i].sig);
    assert files[..i + 1][..i] == files[..i];
    NotedElsewhere(cache, agent, files[..i], s.key);
    var scan := ScanFiles(store, agent, files[..i], cursor);
    if Newer(store(s.key, s.sig), cursor) {
      assert ScanFiles(store, agent, files[..i + 1], cursor) == scan + [s];
      UncachedAppend(scan, s, cache);
    } else {
      assert ScanFiles(store, agent, files[..i + 1], cursor) == scan + [] == scan;
    }
  }

  lemma UncachedAppend(sent: seq<Sent>, s: Sent, cache: Cache)
    ensures Uncached(sent + [s], cache) == Uncached(sent, cache) + (if Cached(cache, s) then [] else [s])
  {
    assert (sent + [s])[..|sent|] == sent;
  }

  lemma {:induction false} UncachedConcat(a: seq<Sent>, b: seq<Sent>, cache: Cache)
    ensures Uncached(a + b, cache) == Uncached(a, cache) + Uncached(b, cache)
    decreases |b|
  {
    if b == [] {
      assert a + b == a;
    } else {
      var init, last := b[..|b| - 1], b[|b| - 1];
      assert a + b == (a + init) + [last];
      UncachedAppend(a + init, last, cache);
      UncachedConcat(a, init, cache);
    }
  }

  /** The cached scan leaves out exactly what is in the cache. */
  lemma {:induction false} UncachedKeeps(sent: seq<Sent>, cache: Cache)
    ensures forall s :: s in Uncached(sent, cache) <==> s in sent && !Cached(cache, s)
    decreases |sent|
  {
    if sent != [] {
      assert sent == sent[..|sent| - 1] + [sent[|sent| - 1]];
      UncachedKeeps(sent[..|sent| - 1], cache);
    }
  }

  lemma {:induction false} ScanSendsNewer(store: Store, agent: AgentId, files: seq<FileEntry>, cursor: Cursor)
    ensures SendsNewer(store, cursor, ScanFiles(store, agent, files, cursor))
    ensures forall s :: s in ScanFiles(store, agent, files, cursor) ==> s.key.agent == agent && FileEntry(s.key.name, s.sig) in files
    decreases |files|
  {
    if files != [] {
      assert files == files[..|files| - 1] + [files[|files| - 1]];
      ScanSendsNewer(store, agent, files[..|files| - 1], cursor);
    }
  }

  lemma {:induction false} PolledElsewhere(cache: Cache, inboxes: seq<Inbox>, k: Key)
    requires forall inbox :: inbox in inboxes ==> inbox.agent != k.agent
    ensures k in Polled(cache, inboxes) <==> k in cache
    ensures k in cache ==> Polled(cache, inboxes)[k] == cache[k]
    decreases |inboxes|
  {
    if inboxes != [] {
      var init, last := inboxes[..|inboxes| - 1], inboxes[|inboxes| - 1];
      assert inboxes == init + [last];
      PolledElsewhere(cache, init, k);
      NotedElsewhere(Polled(cache, init), last.agent, last.files, k);
    }
  }

  /** One more inbox: earlier ones do not touch its cache entries, and the last
      event it sends has a cursor. */
  lemma OneInbox(store: Store, inboxes: seq<Inbox>, i: nat, cursor: Cursor, cache: Cache)
    requires ListedOnce(inboxes) && i < |inboxes|
    ensures var inbox, before := inboxes[i], Polled(cache, inboxes[..i]);
      var more := Uncached(ScanFiles(store, inbox.agent, inbox.files, cursor), before);
      && Polled(cache, inboxes[..i + 1]) == Trimmed(Noted(before, inbox.agent, inbox.files), inbox.agent, inbox.files)
      && Uncached(FullScan(store, inboxes[..i + 1], cursor), cache) == Uncached(FullScan(store, inboxes[..i], cursor), cache) + more
      && forall s :: s in more ==> Newer(store(s.key, s.sig), cursor)
  {
    var inbox, before := inboxes[i], Polled(cache, inboxes[..i]);
    var scan := ScanFiles(store, inbox.agent, inbox.files, cursor);
    assert inboxes[..i + 1][..i] == inboxes[..i];
    UncachedConcat(FullScan(store, inboxes[..i], cursor), scan, cache);
    ScanSendsNewer(store, inbox.agent, inbox.files, cursor);
    forall s | s in scan ensures Cached(before, s) == Cached(cache, s) {
      PolledElsewhere(cache, inboxes[..i], s.key);
    }
    UncachedSame(scan, before, cache);
    UncachedKeeps(scan, before);
  }

  lemma {:induction false} UncachedSame(sent: seq<Sent>, c: Cache, d: Cache)
    requires forall s :: s in sent ==> Cached(c, s) == Cached(d, s)
    ensures Uncached(sent, c) == Uncached(sent, d)
    decreases |sent|
  {
    if sent != [] {
      assert sent == sent[..|sent| - 1] + [sent[|sent| - 1]];
      UncachedSame(sent[..|sent| - 1], c, d);
    }
  }

  // ---- whole runs: the cache against a scan that has none ----

  /** A subscription's own state. */
  datatype Sub = Sub(cursor: Cursor, cache: Cache)

  function Emitted(store: Store, sub: Sub, inboxes: seq<Inbox>): seq<Sent> {
    Uncached(FullScan(store, inboxes, sub.cursor), sub.cache)
  }

  function PollStep(store: Store, sub: Sub, inboxes: seq<Inbox>): Sub {
    Sub(NewCursor(store, sub.cursor, Emitted(store, sub, inboxes)), Polled(sub.cache, inboxes))
  }

  function Polls(store: Store, start: Cursor, history: seq<seq<Inbox>>): Sub {
    if history == [] then Sub(start, map[])
    else PollStep(store, Polls(store, start, history[..|history| - 1]), history[|history| - 1])
  }

  /** A subscription without a cache: it only remembers what it sent from files
      that have stayed as they were at every poll since. */
  datatype Plain = Plain(cursor: Cursor, standing: set<Sent>)

  function Unsent(scan: seq<Sent>, standing: set<Sent>): seq<Sent> {
    if scan == [] then []
    else
      var last := scan[|scan| - 1];
      Unsent(scan[..|scan| - 1], standing) + (if last in standing then [] else [last])
  }

  /** An inbox was looked at and no longer lists this version of the file. */
  predicate Gone(s: Sent, inboxes: seq<Inbox>) {
    exists inbox :: inbox in inboxes && inbox.agent == s.key.agent && FileEntry(s.key.name, s.sig) !in inbox.files
  }

  function PlainEmitted(store: Store, sub: Plain, inboxes: seq<Inbox>): seq<Sent> {
    Unsent(FullScan(store, inboxes, sub.cursor), sub.standing)
  }

  function PlainStep(store: Store, sub: Plain, inboxes: seq<Inbox>): Plain {
    var sent := PlainEmitted(store, sub, inboxes);
    Plain(NewCursor(store, sub.cursor, sent),
          (set s | s in sent) + (set s | s in sub.standing && !Gone(s, inboxes)))
  }

  function PlainPolls(store: Store, start: Cursor, history: seq<seq<Inbox>>): Plain {
    if history == [] then Plain(start, {})
    else PlainStep(store, PlainPolls(store, start, history[..|history| - 1]), history[|history| - 1])
  }

  predicate WellListed(history: seq<seq<Inbox>>) {
    forall inboxes :: inboxes in history ==> ListedOnce(inboxes)
  }

  /** The cache and the memory of sent events agree where it matters. */
  ghost predicate Agrees(store: Store, sub: Sub, plain: Plain) {
    && sub.cursor == plain.cursor
    && (forall s :: s in plain.standing ==> Cached(sub.cache, s))
    && forall s: Sent :: Cached(sub.cache, s) && Newer(store(s.key, s.sig), sub.cursor) ==> s in plain.standing
  }

  lemma {:induction false} SameEvents(scan: seq<Sent>, cache: Cache, standing: set<Sent>)
    requires forall s :: s in scan ==> (Cached(cache, s) <==> s in standing)
    ensures Uncached(scan, cache) == Unsent(scan, standing)
    decreases |scan|
  {
    if scan != [] {
      assert scan == scan[..|scan| - 1] + [scan[|scan| - 1]];
      SameEvents(scan[..|scan| - 1], cache, standing);
    }
  }

  lemma {:induction false} NotedListed(cache: Cache, agent: AgentId, files: seq<FileEntry>, f: FileEntry)
    requires NamesOnce(files) && f in files
    ensures Cached(Noted(cache, agent, files), Sent(Key(agent, f.name), f.sig))
    decreases |files|
  {
    var init, last := files[..|files| - 1], files[|files| - 1];
    assert files == init + [last];
    if f != last {
      NotedListed(cache, agent, init, f);
      var i :| 0 <= i < |init| && init[i] == f;
      assert files[i].name != files[|files| - 1].name;
    }
  }

  /** What the cache holds after one inbox: the listed version of each listed
      file, and nothing else of that agent. */
  lemma AfterInbox(cache: Cache, inbox: Inbox, s: Sent)
    requires NamesOnce(inbox.files)
    ensures var after := Trimmed(Noted(cache, inbox.agent, inbox.files), inbox.agent, inbox.files);
      Cached(after, s) <==>
        if s.key.agent == inbox.agent then FileEntry(s.key.name, s.sig) in inbox.files else Cached(cache, s)
  {
    if s.key.agent != inbox.agent {
      NotedElsewhere(cache, inbox.agent, inbox.files, s.key);
    } else if f :| f in inbox.files && f.name == s.key.name {
      NotedListed(cache, inbox.agent, inbox.files, f);
      if FileEntry(s.key.name, s.sig) in inbox.files {
        NotedListed(cache, inbox.agent, inbox.files, FileEntry(s.key.name, s.sig));
      }
    }
  }

  predicate Scanned(agent: AgentId, inboxes: seq<Inbox>) {
    exists inbox :: inbox in inboxes && inbox.agent == agent
  }

  predicate Lists(s: Sent, inboxes: seq<Inbox>) {
    exists inbox :: inbox in inboxes && inbox.agent == s.key.agent && FileEntry(s.key.name, s.sig) in inbox.files
  }

  /** What the cache holds after a poll. */
  lemma {:induction false} AfterPoll(cache: Cache, inboxes: seq<Inbox>, s: Sent)
    requires ListedOnce(inboxes)
    ensures Cached(Polled(cache, inboxes), s) <==>
      if Scanned(s.key.agent, inboxes) then Lists(s, inboxes) else Cached(cache, s)
    decreases |inboxes|
  {
    if inboxes != [] {
      var init, last := inboxes[..|inboxes| - 1], inboxes[|inboxes| - 1];
      assert inboxes == init + [last];
      assert last in inboxes;
      AfterPoll(cache, init, s);
      AfterInbox(Polled(cache, init), last, s);
      if last.agent == s.key.agent {
        forall inbox | inbox in init ensures inbox.agent != s.key.agent {
          var i :| 0 <= i < |init| && init[i] == inbox;
          assert inboxes[i].agent != inboxes[|inboxes| - 1].agent;
        }
      } else {
        assert Scanned(s.key.agent, inboxes) == Scanned(s.key.agent, init);
        assert Lists(s, inboxes) == Lists(s, init);
      }
    }
  }

  /** An uncached scan sends exactly the listed messages newer than the cursor. */
  lemma {:induction false} FullScanExactly(store: Store, inboxes: seq<Inbox>, cursor: Cursor, s: Sent)
    ensures s in FullScan(store, inboxes, cursor) <==> Lists(s, inboxes) && Newer(store(s.key, s.sig), cursor)
    decreases |inboxes|
  {
    if inboxes != [] {
      var init, last := inboxes[..|inboxes| - 1], inboxes[|inboxes| - 1];
      assert inboxes == init + [last];
      assert last in inboxes;
      FullScanExactly(store, init, cursor, s);
      ScanExactly(store, last.agent, last.files, cursor, s);
      assert Lists(s, inboxes) <==> Lists(s, init) || (last.agent == s.key.agent && FileEntry(s.key.name, s.sig) in last.files);
    }
  }

  lemma {:induction false} ScanExactly(store: Store, agent: AgentId, files: seq<FileEntry>, cursor: Cursor, s: Sent)
    ensures s in ScanFiles(store, agent, files, cursor) <==>
      s.key.agent == agent && FileEntry(s.key.name, s.sig) in files && Newer(store(s.key, s.sig), cursor)
    decreases |files|
  {
    if files != [] {
      var f := files[|files| - 1];
      assert files == files[..|files| - 1] + [f];
      ScanExactly(store, agent, files[..|files| - 1], cursor, s);
    }
  }

  /** The mailbox cursor of a subscription never goes back in one poll. */
  lemma CursorMovesOn(store: Store, sub: Sub, inboxes: seq<Inbox>)
    ensures NotBefore(PollStep(store, sub, inboxes).cursor, sub.cursor)
  {
    var sent := Emitted(store, sub, inboxes);
    if sent != [] {
      var s := sent[|sent| - 1];
      UncachedKeeps(FullScan(store, inboxes, sub.cursor), sub.cache);
      assert s in sent;
      FullScanExactly(store, inboxes, sub.cursor, s);
    }
  }

  lemma NewerEarlier(c: Content, now: Cursor, earlier: Cursor)
    requires NotBefore(now, earlier) && Newer(c, now)
    ensures Newer(c, earlier)
  {}

  lemma StepAgrees(store: Store, sub: Sub, plain: Plain, inboxes: seq<Inbox>)
    requires ListedOnce(inboxes) && Agrees(store, sub, plain)
    ensures Emitted(store, sub, inboxes) == PlainEmitted(store, plain, inboxes)
    ensures Agrees(store, PollStep(store, sub, inboxes), PlainStep(store, plain, inboxes))
  {
    var scan := FullScan(store, inboxes, sub.cursor);
    forall s | s in scan ensures Cached(sub.cache, s) <==> s in plain.standing {
      FullScanExactly(store, inboxes, sub.cursor, s);
    }
    SameEvents(scan, sub.cache, plain.standing);
    var sent := Emitted(store, sub, inboxes);
    UncachedKeeps(scan, sub.cache);
    var sub', plain' := PollStep(store, sub, inboxes), PlainStep(store, plain, inboxes);
    forall s | s in plain'.standing ensures Cached(sub'.cache, s) {
      AfterPoll(sub.cache, inboxes, s);
      FullScanExactly(store, inboxes, sub.cursor, s);
      StandingListed(s, inboxes);
    }
    CursorMovesOn(store, sub, inboxes);
    forall s: Sent | Cached(sub'.cache, s) && Newer(store(s.key, s.sig), sub'.cursor)
      ensures s in plain'.standing
    {
      AfterPoll(sub.cache, inboxes, s);
      FullScanExactly(store, inboxes, sub.cursor, s);
      NewerEarlier(store(s.key, s.sig), sub'.cursor, sub.cursor);
      StandingListed(s, inboxes);
      if Lists(s, inboxes) {
        ListedNotGone(s, inboxes);
      }
    }
  }

  lemma StandingListed(s: Sent, inboxes: seq<Inbox>)
    ensures !Gone(s, inboxes) && Scanned(s.key.agent, inboxes) ==> Lists(s, inboxes)
    ensures Lists(s, inboxes) ==> Scanned(s.key.agent, inboxes)
    ensures !Scanned(s.key.agent, inboxes) ==> !Gone(s, inboxes)
  {}

  lemma ListedNotGone(s: Sent, inboxes: seq<Inbox>)
    requires ListedOnce(inboxes) && Lists(s, inboxes)
    ensures !Gone(s, inboxes)
  {
    var a :| a in inboxes && a.agent == s.key.agent && FileEntry(s.key.name, s.sig) in a.files;
    var i :| 0 <= i < |inboxes| && inboxes[i] == a;
    forall b | b in inboxes && b.agent == s.key.agent ensures b == a {
      var j :| 0 <= j < |inboxes| && inboxes[j] == b;
      assert i == j;
    }
  }

  lemma {:induction false} RunAgrees(store: Store, start: Cursor, history: seq<seq<Inbox>>)
    requires WellListed(history)
    ensures Agrees(store, Polls(store, start, history), PlainPolls(store, start, history))
    decreases |history|
  {
    if history != [] {
      var init, last := history[..|history| - 1], history[|history| - 1];
      assert last in history;
      RunAgrees(store, start, init);
      StepAgrees(store, Polls(store, start, init), PlainPolls(store, start, init), last);
    }
  }

  /** After any run of polls over any listings, a poll sends what a scan without
      a cache sends, in the same order, minus what this subscription already
      sent from a file that has stayed listed unchanged ever since. */
  lemma CacheAgreesWithScan(store: Store, start: Cursor, history: seq<seq<Inbox>>, inboxes: seq<Inbox>)
    requires WellListed(history) && ListedOnce(inboxes)
    ensures Emitted(store, Polls(store, start, history), inboxes)
         == Unsent(FullScan(store, inboxes, Polls(store, start, history).cursor), PlainPolls(store, start, history).standing)
    ensures forall s :: s in FullScan(store, inboxes, Polls(store, start, history).cursor) ==>
      s in Emitted(store, Polls(store, start, history), inboxes) || EverSent(store, start, history, s)
  {
    RunAgrees(store, start, history);
    var sub, plain := Polls(store, start, history), PlainPolls(store, start, history);
    StepAgrees(store, sub, plain, inboxes);
    UncachedKeeps(FullScan(store, inboxes, sub.cursor), sub.cache);
    forall s | s in FullScan(store, inboxes, sub.cursor) && s !in Emitted(store, sub, inboxes)
      ensures EverSent(store, start, history, s)
    {
      FullScanExactly(store, inboxes, sub.cursor, s);
      StandingWasSent(store, start, history, s);
    }
  }

  /** Poll number i of the run sent this event. */
  predicate SentBy(store: Store, start: Cursor, history: seq<seq<Inbox>>, s: Sent, i: nat)
    requires i < |history|
  {
    s in Emitted(store, Polls(store, start, history[..i]), history[i])
  }

  /** Some poll of the run sent this event. */
  predicate EverSent(store: Store, start: Cursor, history: seq<seq<Inbox>>, s: Sent) {
    exists i: nat :: i < |history| && SentBy(store, start, history, s, i)
  }

  lemma {:induction false} StandingWasSent(store: Store, start: Cursor, history: seq<seq<Inbox>>, s: Sent)
    requires WellListed(history)
    requires s in PlainPolls(store, start, history).standing
    ensures EverSent(store, start, history, s)
    decreases |history|
  {
    var n := |history| - 1;
    var init, last := history[..n], history[n];
    assert last in history;
    RunAgrees(store, start, init);
    StepAgrees(store, Polls(store, start, init), PlainPolls(store, start, init), last);
    if s in Emitted(store, Polls(store, start, init), last) {
      assert SentBy(store, start, history, s, n);
    } else {
      StandingWasSent(store, start, init, s);
      SentEarlier(store, start, history, s);
    }
  }

  lemma SentEarlier(store: Store, start: Cursor, history: seq<seq<Inbox>>, s: Sent)
    requires history != [] && EverSent(store, start, history[..|history| - 1], s)
    ensures EverSent(store, start, history, s)
  {
    var init := history[..|history| - 1];
    var i: nat :| i < |init| && SentBy(store, start, init, s, i);
    assert history[..i] == init[..i];
    assert SentBy(store, start, history, s, i);
  }

  /** Over a whole run the cursor never goes back. */
  lemma {:induction false} CursorNeverGoesBack(store: Store, start: Cursor, history: seq<seq<Inbox>>, i: nat)
    requires i <= |history|
    ensures NotBefore(Polls(store, start, history).cursor, Polls(store, start, history[..i]).cursor)
    decreases |history|
  {
    if i == |history| {
      assert history[..i] == history;
    } else {
      var init := history[..|history| - 1];
      assert init[..i] == history[..i];
      CursorNeverGoesBack(store, start, init, i);
      CursorMovesOn(store, Polls(store, start, init), history[|history| - 1]);
    }
  }

  /** After a poll, every cache entry of a scanned inbox is the listed version
      of a listed file, and every listed file has one. */
  lemma CacheIsTheListing(store: Store, sub: Sub, inboxes: seq<Inbox>, inbox: Inbox, name: Name, sig: Sig)
    requires ListedOnce(inboxes) && inbox in inboxes
    ensures Cached(PollStep(store, sub, inboxes).cache, Sent(Key(inbox.agent, name), sig))
       <==> FileEntry(name, sig) in inbox.files
  {
    var s := Sent(Key(inbox.agent, name), sig);
    AfterPoll(sub.cache, inboxes, s);
    assert Scanned(inbox.agent, inboxes);
    var i :| 0 <= i < |inboxes| && inboxes[i] == inbox;
    forall b | b in inboxes && b.agent == inbox.agent ensures b == inbox {
      var j :| 0 <= j < |inboxes| && inboxes[j] == b;
      assert i == j;
    }
  }

  // ==== What the cursor order and the order of events are ====

  /** A stamp of the session's stream cursor, as the text a file carries. */
  function Text(c: S.Cursor): Cursor {
    Pair(c.epoch, c.seqNo)
  }

  /** The order of stamps is that of the session: by millisecond, then by number
      within it. A cursor without a number counts as number 0, and an empty or
      garbled one as 0/0, so it is before every stamp of a positive time. */
  lemma AfterIsSessionOrder(a: S.Cursor, b: S.Cursor)
    ensures After(Text(a), Text(b)) <==> R.Before(b, a)
    ensures forall c :: (After(EpochOnly(a.epoch), c) <==> After(Pair(a.epoch, 0), c))
                        && (After(c, EpochOnly(a.epoch)) <==> After(c, Pair(a.epoch, 0)))
    ensures forall c: Cursor :: c.Blank? || c.NotNumeric? ==>
      (After(Text(a), c) <==> a.epoch > 0 || (a.epoch == 0 && a.seqNo > 0)) && !After(c, c)
  {
  }

  /** Of the messages a session stamped one after another, a scan from one stamp
      sends exactly those listed that were stamped later. */
  lemma ScanSendsLaterStamps(store: Store, inboxes: seq<Inbox>, start: B.Option<S.Cursor>, clock: seq<int>,
                             i: nat, j: nat, s: Sent)
    requires R.NeverBack(clock) && i < |clock| && j < |clock| && |R.Stamps(start, clock)| == |clock|
    requires store(s.key, s.sig).Message? && store(s.key, s.sig).cursor == Text(R.Stamps(start, clock)[j])
    ensures s in FullScan(store, inboxes, Text(R.Stamps(start, clock)[i])) <==> j > i && Lists(s, inboxes)
  {
    var cs := R.Stamps(start, clock);
    FullScanExactly(store, inboxes, Text(cs[i]), s);
    AfterIsSessionOrder(cs[j], cs[i]);
    if i < j {
      R.LaterStampsAfter(start, clock, i, j);
    } else if j < i {
      R.LaterStampsAfter(start, clock, j, i);
    }
  }

  /** A file that is not JSON, or has no stamp yet, is never sent. */
  lemma UnstampedNeverSent(store: Store, inboxes: seq<Inbox>, cursor: Cursor, s: Sent)
    requires store(s.key, s.sig).NotJson? || store(s.key, s.sig).cursor.Blank?
    ensures s !in FullScan(store, inboxes, cursor)
  {
    FullScanExactly(store, inboxes, cursor, s);
  }

  /** Every listed version, inbox by inbox and in listing order. */
  function Listing(inboxes: seq<Inbox>): seq<Sent> {
    if inboxes == [] then [] else Versions(inboxes[0].agent, inboxes[0].files) + Listing(inboxes[1..])
  }

  function Versions(agent: AgentId, files: seq<FileEntry>): seq<Sent> {
    seq(|files|, i requires 0 <= i < |files| => Sent(Key(agent, files[i].name), files[i].sig))
  }

  /** Those worth sending, in the order of the sequence. */
  function Worth(store: Store, all: seq<Sent>, cursor: Cursor): seq<Sent> {
    if all == [] then []
    else (if Newer(store(all[0].key, all[0].sig), cursor) then [all[0]] else []) + Worth(store, all[1..], cursor)
  }

  lemma WorthFirst(store: Store, s: Sent, rest: seq<Sent>, cursor: Cursor)
    ensures Worth(store, [s] + rest, cursor) ==
      (if Newer(store(s.key, s.sig), cursor) then [s] else []) + Worth(store, rest, cursor)
  {
    assert ([s] + rest)[1..] == rest;
  }

  lemma {:induction false} WorthConcat(store: Store, a: seq<Sent>, b: seq<Sent>, cursor: Cursor)
    ensures Worth(store, a + b, cursor) == Worth(store, a, cursor) + Worth(store, b, cursor)
    decreases |a|
  {
    if a == [] {
      assert a + b == b;
    } else {
      WorthConcat(store, a[1..], b, cursor);
      WorthFirst(store, a[0], a[1..] + b, cursor);
      WorthFirst(store, a[0], a[1..], cursor);
      assert a == [a[0]] + a[1..] && a + b == [a[0]] + (a[1..] + b);
    }
  }

  lemma {:induction false} ScanIsWorth(store: Store, agent: AgentId, files: seq<FileEntry>, cursor: Cursor)
    ensures ScanFiles(store, agent, files, cursor) == Worth(store, Versions(agent, files), cursor)
    decreases |files|
  {
    if files != [] {
      var init, f := files[..|files| - 1], files[|files| - 1];
      var s := Sent(Key(agent, f.name), f.sig);
      ScanIsWorth(store, agent, init, cursor);
      assert Versions(agent, files) == Versions(agent, init) + [s];
      WorthConcat(store, Versions(agent, init), [s], cursor);
      assert [s][1..] == [] && Worth(store, [], cursor) == [];
    }
  }

  lemma {:induction false} ListingConcat(a: seq<Inbox>, b: seq<Inbox>)
    ensures Listing(a + b) == Listing(a) + Listing(b)
    decreases |a|
  {
    if a == [] {
      assert a + b == b;
    } else {
      assert (a + b)[1..] == a[1..] + b;
      ListingConcat(a[1..], b);
    }
  }

  /** An uncached scan sends what is worth sending in the order of the listings. */
  lemma {:induction false} FullScanInOrder(store: Store, inboxes: seq<Inbox>, cursor: Cursor)
    ensures FullScan(store, inboxes, cursor) == Worth(store, Listing(inboxes), cursor)
    decreases |inboxes|
  {
    if inboxes != [] {
      var init, last := inboxes[..|inboxes| - 1], inboxes[|inboxes| - 1];
      FullScanInOrder(store, init, cursor);
      ScanIsWorth(store, last.agent, last.files, cursor);
      assert inboxes == init + [last];
      ListingConcat(init, [last]);
      assert [last][1..] == [] && Listing([last]) == Versions(last.agent, last.files) + [];
      assert Versions(last.agent, last.files) + [] == Versions(last.agent, last.files);
      WorthConcat(store, Listing(init), Versions(last.agent, last.files), cursor);
    }
  }

  /** After a poll the subscription stands at the stamp of the last message it
      sent, or where it stood if it sent none. */
  lemma PollEndsAtLastSent(store: Store, sub: Sub, inboxes: seq<Inbox>)
    ensures var sent := Emitted(store, sub, inboxes);
      var cursor := PollStep(store, sub, inboxes).cursor;
      if sent == [] then cursor == sub.cursor
      else
        var last := store(sent[|sent| - 1].key, sent[|sent| - 1].sig);
        last.Message? && last.cursor == cursor
  {
    var sent := Emitted(store, sub, inboxes);
    if sent != [] {
      var s := sent[|sent| - 1];
      UncachedKeeps(FullScan(store, inboxes, sub.cursor), sub.cache);
      assert s in sent;
      FullScanExactly(store, inboxes, sub.cursor, s);
    }
  }
}
