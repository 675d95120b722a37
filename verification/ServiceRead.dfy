/** MailboxService.read: parking messages whose ack has no route, and claiming
    exactly the message that was inspected. */
module ServiceRead {
  import opened Basics
  import opened MailboxFs
  import opened MailboxStore

  /** Park markers: the sender each one names, or none when unreadable. */
  type Parks = map<MsgId, Option<Owner>>

  datatype Snap = Snap(box: Box, parked: Parks)

  datatype ReadOutcome = Empty | AckRouteUnresolved(msg: Message) | Claimed(msg: Message, receiptDue: bool)

  /** Demands an ack that could not be delivered. */
  predicate NoRoute(f: File, roster: set<Owner>) {
    f.Parsed? && f.msg.requireAck && !f.msg.receipt && f.msg.sender !in roster
  }

  /** The markers left once those of roster members are removed. */
  function StillParked(parked: Parks, roster: set<Owner>): Parks {
    map m | m in parked && !(parked[m].Some? && parked[m].value in roster) :: parked[m]
  }

  /** What a read does with the file it inspected. */
  function Handled(s: Snap, agent: Owner, roster: set<Owner>, owner: Owner, n: MsgId, now: int): (Snap, ReadOutcome)
    requires n in s.box.inbox
  {
    var f := s.box.inbox[n];
    if NoRoute(f, roster) then (s.(parked := s.parked[n := Some(f.msg.sender)]), AckRouteUnresolved(f.msg))
    else if !Acceptable(f, agent, roster, n) then (s.(box := Quarantine(s.box, n)), Empty)
    else
      (s.(box := Take(s.box.(claims := s.box.claims[ClaimKey(n, owner) := now]), n)),
       Claimed(f.msg, f.msg.requireAck && !f.msg.receipt))
  }

  /** The answer a file gets, whenever it is inspected. */
  function Answer(f: File, agent: Owner, roster: set<Owner>, n: MsgId): ReadOutcome {
    if NoRoute(f, roster) then AckRouteUnresolved(f.msg)
    else if Acceptable(f, agent, roster, n) then Claimed(f.msg, f.msg.requireAck && !f.msg.receipt)
    else Empty
  }

  function AfterRead(s: Snap, agent: Owner, roster: set<Owner>, owner: Owner, pick: Option<MsgId>, now: int)
    : (Snap, ReadOutcome)
  {
    if s.box.inbox == map[] then (s, Empty)
    else
      var s1 := s.(parked := StillParked(s.parked, roster));
      if pick.None? || pick.value !in s.box.inbox then (s1, Empty)
      else Handled(s1, agent, roster, owner, pick.value, now)
  }

  /** The messages a read may look at. */
  function Eligible(s: Snap, roster: set<Owner>): set<MsgId> {
    s.box.inbox.Keys - StillParked(s.parked, roster).Keys
  }

  /** The file a read inspects: the one asked for, or the oldest not parked. */
  ghost predicate RightPick(s: Snap, roster: set<Owner>, target: Option<MsgId>, pick: Option<MsgId>) {
    match target
    case Some(n) => pick == if n in s.box.inbox then target else None
    case None =>
      if Eligible(s, roster) == {} then pick == None
      else pick.Some? && Oldest(s.box.inbox, Eligible(s, roster), pick.value)
  }

  class MailboxService {
    const store: MailboxStore
    var parked: Parks

    constructor (store: MailboxStore)
      ensures this.store == store && parked == map[]
    {
      this.store := store;
      parked := map[];
    }

    function Contents(): Snap
      reads this, store
    {
      Snap(store.Contents(), parked)
    }

    /** Removes the markers of senders that joined the roster. */
    method UnparkResolvable(roster: set<Owner>)
      modifies this
      ensures parked == StillParked(old(parked), roster)
    {
      var ids := parked.Keys;
      var all := parked;
      while ids != {}
        invariant ids <= all.Keys
        invariant forall m :: m in parked <==> m in all && (m in ids || m in StillParked(all, roster))
        invariant forall m :: m in parked ==> parked[m] == all[m]
        decreases ids
      {
        var m :| m in ids;
        ids := ids - {m};
        if parked[m].Some? && parked[m].value in roster {
          parked := parked - {m};
        }
      }
    }

    /** `pick` is the file it inspects, `at` the time of its claim. */
    method Read(owner: Owner, target: Option<MsgId>, roster: set<Owner>, clock: nat -> int)
      returns (r: ReadOutcome, ghost pick: Option<MsgId>, ghost at: int)
      requires Disjoint(store.Contents()) && NeverBack(clock)
      requires forall n :: RightPick(Contents(), roster, target, Some(n))
                           && Spins(store.Contents(), store.agent, roster, n, owner, clock(0)) ==>
        Passes(clock, store.claims[ClaimKey(n, owner)])
      modifies this, store
      ensures Disjoint(store.Contents()) && exists i: nat :: at == clock(i)
      ensures RightPick(old(Contents()), roster, target, pick)
      ensures (Contents(), r) == AfterRead(old(Contents()), store.agent, roster, owner, pick, at)
    {
      r, pick, at := Empty, None, clock(0);
      if store.inbox == map[] {
        return;
      }
      UnparkResolvable(roster);
      var first := target;
      if target.None? {
        first := store.Pick(parked.Keys);
      } else if target.value !in store.inbox {
        first := None;
      }
      if first.None? {
        return;
      }
      pick := first;
      var n := first.value;
      var f := store.inbox[n];
      if f.Parsed? && f.msg.requireAck && !f.msg.receipt && f.msg.sender !in roster {
        parked := parked[n := Some(f.msg.sender)];
        return AckRouteUnresolved(f.msg), pick, at;
      }
      var claimed;
      claimed, at := store.Read(owner, parked.Keys, Some(n), roster, clock);
      if claimed.Some? {
        r := Claimed(claimed.value, claimed.value.requireAck && !claimed.value.receipt);
      }
    }
  }

  /** A claim never bypasses the ack discipline: the receipt a claimed message
      calls for has a roster member to go to. */
  lemma ReceiptHasRoute(s: Snap, agent: Owner, roster: set<Owner>, owner: Owner, pick: Option<MsgId>, now: int)
    ensures var (s', r) := AfterRead(s, agent, roster, owner, pick, now);
      && (r.Claimed? ==> r.msg.sender in roster && r.msg.id in s'.box.processing && r.msg.id !in s'.box.inbox)
      && (r.AckRouteUnresolved? ==> r.msg.sender !in roster && s'.box == s.box)
  {}

  /** What a read answers for the file it inspects, and where it leaves it: a
      message that asks for a receipt its sender cannot get is parked in place,
      whatever else is wrong with it; of the others, one that is well-formed for
      the agent and from the roster is claimed, and a receipt is due exactly if it
      asked for one; everything else is quarantined. */
  lemma ReadAnswers(s: Snap, agent: Owner, roster: set<Owner>, owner: Owner, n: MsgId, now: int)
    requires n in s.box.inbox
    ensures var f := s.box.inbox[n];
      var (s', r) := AfterRead(s, agent, roster, owner, Some(n), now);
      var asks := f.Parsed? && f.msg.requireAck && !f.msg.receipt;
      if asks && f.msg.sender !in roster then
        && r == AckRouteUnresolved(f.msg) && s'.box == s.box
        && n in s'.parked && s'.parked[n] == Some(f.msg.sender)
      else if WellFormed(f, agent, n) && f.msg.sender in roster then
        && r == Claimed(f.msg, asks)
        && n !in s'.box.inbox && n in s'.box.processing && s'.box.processing[n] == f
        && s'.box.claims == s.box.claims[ClaimKey(n, owner) := now]
      else r == Empty && n !in s'.box.inbox && n in s'.box.corrupt && s'.box.corrupt[n] == f
    ensures var s' := AfterRead(s, agent, roster, owner, Some(n), now).0;
      && (forall m :: m != n ==> (m in s'.box.inbox <==> m in s.box.inbox))
      && (forall m :: m != n ==> (m in s'.parked <==> m in s.parked && (s.parked[m] == None || s.parked[m].value !in roster)))
  {
  }

  // ---- runs of reads ----

  /** A run of calls: the states before, between and after them, the files
      they inspected and the times of their claims. */
  datatype Calls = Calls(states: seq<Snap>, picks: seq<Option<MsgId>>, times: seq<int>)

  predicate Sized(c: Calls) {
    |c.states| == |c.picks| + 1 && |c.times| == |c.picks|
  }

  /** Call number i inspected the file it should and did what a read does. */
  ghost predicate OneCall(agent: Owner, roster: set<Owner>, owner: Owner, c: Calls, i: nat)
    requires Sized(c) && i < |c.picks|
  {
    && RightPick(c.states[i], roster, None, c.picks[i])
    && c.states[i + 1] == AfterRead(c.states[i], agent, roster, owner, c.picks[i], c.times[i]).0
  }

  ghost predicate IsRun(s: Snap, agent: Owner, roster: set<Owner>, owner: Owner, c: Calls) {
    Sized(c) && c.states[0] == s && forall i: nat :: i < |c.picks| ==> OneCall(agent, roster, owner, c, i)
  }

  function End(c: Calls): Snap
    requires Sized(c)
  {
    c.states[|c.picks|]
  }

  // ---- where one message is, and where a read puts it ----

  datatype View = View(inbox: Option<File>, processing: Option<File>, corrupt: Option<File>,
                       parked: Option<Option<Owner>>, claimed: bool)

  function Lookup<K, V>(dir: map<K, V>, k: K): Option<V> {
    if k in dir then Some(dir[k]) else None
  }

  function ViewOf(s: Snap, roster: set<Owner>, owner: Owner, m: MsgId): View {
    View(Lookup(s.box.inbox, m), Lookup(s.box.processing, m), Lookup(s.box.corrupt, m),
         Lookup(StillParked(s.parked, roster), m), ClaimKey(m, owner) in s.box.claims)
  }

  /** Parked in place, claimed into processing, or quarantined. */
  function Sorted(v: View, agent: Owner, roster: set<Owner>, m: MsgId): View
    requires v.inbox.Some?
  {
    var f := v.inbox.value;
    if NoRoute(f, roster) then v.(parked := Some(Some(f.msg.sender)))
    else if Acceptable(f, agent, roster, m) then v.(inbox := None, processing := Some(f), claimed := true)
    else v.(inbox := None, corrupt := Some(f))
  }

  function OthersClaims(s: Snap, owner: Owner): map<ClaimKey, int> {
    map k | k in s.box.claims && k.owner != owner :: s.box.claims[k]
  }

  /** From s to s' exactly the messages d were sorted. */
  ghost predicate Classified(s: Snap, s': Snap, agent: Owner, roster: set<Owner>, owner: Owner, d: set<MsgId>) {
    && d <= Eligible(s, roster)
    && (forall m {:trigger ViewOf(s', roster, owner, m)} :: ViewOf(s', roster, owner, m) ==
          if m in d then Sorted(ViewOf(s, roster, owner, m), agent, roster, m) else ViewOf(s, roster, owner, m))
    && s'.box.archive == s.box.archive
    && OthersClaims(s', owner) == OthersClaims(s, owner)
  }

  lemma EligibleView(s: Snap, roster: set<Owner>, owner: Owner, m: MsgId)
    ensures m in Eligible(s, roster) <==> ViewOf(s, roster, owner, m).inbox.Some? && ViewOf(s, roster, owner, m).parked.None?
  {}

  lemma ReadSorts(s: Snap, agent: Owner, roster: set<Owner>, owner: Owner, n: MsgId, now: int, m: MsgId)
    requires n in Eligible(s, roster)
    ensures var s' := AfterRead(s, agent, roster, owner, Some(n), now).0;
      ViewOf(s', roster, owner, m) ==
        if m == n then Sorted(ViewOf(s, roster, owner, m), agent, roster, m) else ViewOf(s, roster, owner, m)
  {}

  lemma ReadKeepsOthers(s: Snap, agent: Owner, roster: set<Owner>, owner: Owner, pick: Option<MsgId>, now: int)
    ensures var s' := AfterRead(s, agent, roster, owner, pick, now).0;
      s'.box.archive == s.box.archive && OthersClaims(s', owner) == OthersClaims(s, owner)
  {}

  lemma EligibleLeft(s: Snap, s': Snap, agent: Owner, roster: set<Owner>, owner: Owner, d: set<MsgId>)
    requires Classified(s, s', agent, roster, owner, d)
    ensures Eligible(s', roster) == Eligible(s, roster) - d
    ensures forall m :: m in Eligible(s', roster) ==> s'.box.inbox[m] == s.box.inbox[m]
  {
    forall m ensures m in Eligible(s', roster) <==> m in Eligible(s, roster) - d {
      EligibleView(s, roster, owner, m);
      EligibleView(s', roster, owner, m);
      assert ViewOf(s', roster, owner, m) ==
        if m in d then Sorted(ViewOf(s, roster, owner, m), agent, roster, m) else ViewOf(s, roster, owner, m);
    }
    forall m | m in Eligible(s', roster) ensures s'.box.inbox[m] == s.box.inbox[m] {
      assert ViewOf(s', roster, owner, m) == ViewOf(s, roster, owner, m);
    }
  }

  lemma ClassifyOne(s: Snap, mid: Snap, agent: Owner, roster: set<Owner>, owner: Owner, d: set<MsgId>, n: MsgId, now: int)
    requires Classified(s, mid, agent, roster, owner, d) && n in Eligible(mid, roster)
    ensures Classified(s, AfterRead(mid, agent, roster, owner, Some(n), now).0, agent, roster, owner, d + {n})
    ensures AfterRead(mid, agent, roster, owner, Some(n), now).1 == Answer(s.box.inbox[n], agent, roster, n)
  {
    EligibleLeft(s, mid, agent, roster, owner, d);
    ReadKeepsOthers(mid, agent, roster, owner, Some(n), now);
    forall m {
      ReadSorts(mid, agent, roster, owner, n, now, m);
    }
  }

  /** The messages the first n calls inspected. */
  function Picked(c: Calls, n: nat): set<MsgId>
    requires n <= |c.picks|
  {
    set i: nat | i < n && c.picks[i].Some? :: c.picks[i].value
  }

  /** Call number i inspected a message no earlier one did, none of those left
      being older, and gave it the answer it deserves. */
  ghost predicate ReadFine(s: Snap, agent: Owner, roster: set<Owner>, owner: Owner, c: Calls, i: nat)
    requires Sized(c) && i < |c.picks|
  {
    && c.picks[i].Some? && Oldest(s.box.inbox, Eligible(s, roster) - Picked(c, i), c.picks[i].value)
    && AfterRead(c.states[i], agent, roster, owner, c.picks[i], c.times[i]).1
       == Answer(s.box.inbox[c.picks[i].value], agent, roster, c.picks[i].value)
  }

  lemma SmallerLeavesSome(a: set<MsgId>, b: set<MsgId>)
    requires a <= b && |a| < |b|
    ensures b - a != {}
  {
    assert b == a + (b - a);
  }

  /** One more read, while a message is left. */
  lemma OneMoreRead(s: Snap, mid: Snap, agent: Owner, roster: set<Owner>, owner: Owner, d: set<MsgId>, pick: Option<MsgId>, now: int)
    requires Classified(s, mid, agent, roster, owner, d) && |d| < |Eligible(s, roster)|
    requires RightPick(mid, roster, None, pick)
    ensures pick.Some? && Oldest(s.box.inbox, Eligible(s, roster) - d, pick.value)
    ensures Classified(s, AfterRead(mid, agent, roster, owner, pick, now).0, agent, roster, owner, d + {pick.value})
    ensures AfterRead(mid, agent, roster, owner, pick, now).1 == Answer(s.box.inbox[pick.value], agent, roster, pick.value)
  {
    EligibleLeft(s, mid, agent, roster, owner, d);
    SmallerLeavesSome(d, Eligible(s, roster));
    ClassifyOne(s, mid, agent, roster, owner, d, pick.value, now);
  }

  ghost predicate AllFine(s: Snap, agent: Owner, roster: set<Owner>, owner: Owner, c: Calls, n: nat)
    requires Sized(c) && n <= |c.picks|
  {
    forall i: nat :: i < n ==> ReadFine(s, agent, roster, owner, c, i)
  }

  lemma PickedGrows(c: Calls, n: nat)
    requires n < |c.picks| && c.picks[n].Some?
    ensures Picked(c, n + 1) == Picked(c, n) + {c.picks[n].value}
  {
  }

  /** As many reads as there are messages not parked, or fewer. */
  lemma {:induction false} ReadsMoveOn(s: Snap, agent: Owner, roster: set<Owner>, owner: Owner, c: Calls, n: nat)
    returns (d: set<MsgId>)
    requires IsRun(s, agent, roster, owner, c) && n <= |c.picks| <= |Eligible(s, roster)|
    ensures AllFine(s, agent, roster, owner, c, n) && d == Picked(c, n) && |d| == n
    ensures Classified(s, c.states[n], agent, roster, owner, d)
    decreases n
  {
    if n == 0 {
      d := {};
    } else {
      d := ReadsMoveOn(s, agent, roster, owner, c, n - 1);
      d := MovesOnce(s, agent, roster, owner, c, n - 1, d);
    }
  }

  lemma MovesOnce(s: Snap, agent: Owner, roster: set<Owner>, owner: Owner, c: Calls, n: nat, d: set<MsgId>)
    returns (d': set<MsgId>)
    requires Sized(c) && n < |c.picks| && OneCall(agent, roster, owner, c, n)
    requires AllFine(s, agent, roster, owner, c, n) && d == Picked(c, n) && |d| == n < |Eligible(s, roster)|
    requires Classified(s, c.states[n], agent, roster, owner, d)
    ensures AllFine(s, agent, roster, owner, c, n + 1) && d' == Picked(c, n + 1) && |d'| == n + 1
    ensures Classified(s, c.states[n + 1], agent, roster, owner, d')
  {
    OneMoreRead(s, c.states[n], agent, roster, owner, d, c.picks[n], c.times[n]);
    PickedGrows(c, n);
    d' := d + {c.picks[n].value};
  }

  lemma FullSubset(a: set<MsgId>, b: set<MsgId>)
    requires a <= b && |a| == |b|
    ensures a == b
  {
    assert b == a + (b - a);
    assert |b| == |a| + |b - a|;
  }

  /** n reads of an inbox with n messages not parked claim exactly the
      acceptable ones, park exactly those whose ack has no route, and
      quarantine the rest, taking them oldest first; messages already parked
      stay where they are, and one more read finds nothing. */
  lemma ReadsClassify(s: Snap, agent: Owner, roster: set<Owner>, owner: Owner, c: Calls)
    requires IsRun(s, agent, roster, owner, c) && |c.picks| == |Eligible(s, roster)|
    ensures Classified(s, End(c), agent, roster, owner, Eligible(s, roster)) && Eligible(End(c), roster) == {}
    ensures forall i: nat :: i < |c.picks| ==> ReadFine(s, agent, roster, owner, c, i)
  {
    var d := ReadsMoveOn(s, agent, roster, owner, c, |c.picks|);
    FullSubset(d, Eligible(s, roster));
    EligibleLeft(s, End(c), agent, roster, owner, Eligible(s, roster));
  }

  ghost predicate NoOwnClaims(s: Snap, owner: Owner) {
    forall m :: m in s.box.inbox ==> ClaimKey(m, owner) !in s.box.claims
  }

  /** An owner that starts without claims on the inbox can make all these reads:
      none of them ever meets a claim of its own to wait for. */
  lemma ReadsNeverSpin(s: Snap, mid: Snap, agent: Owner, roster: set<Owner>, owner: Owner, d: set<MsgId>, n: MsgId, now: int)
    requires NoOwnClaims(s, owner) && Classified(s, mid, agent, roster, owner, d)
    ensures NoOwnClaims(mid, owner) && !Spins(mid.box, agent, roster, n, owner, now)
  {
    forall m | m in mid.box.inbox ensures ClaimKey(m, owner) !in mid.box.claims {
      var v := ViewOf(s, roster, owner, m);
      assert ViewOf(mid, roster, owner, m) == if m in d then Sorted(v, agent, roster, m) else v;
    }
  }

  /** A message parked under one roster is left in the inbox by all later reads
      under it; once the roster changes, reading everything again claims it if
      its sender is now a member and it is acceptable, and leaves it parked if
      its sender still is not. */
  lemma ParkedUntilSenderJoins(s: Snap, agent: Owner, roster: set<Owner>, joined: set<Owner>, owner: Owner,
                               c: Calls, later: Calls, m: MsgId)
    requires IsRun(s, agent, roster, owner, c) && |c.picks| == |Eligible(s, roster)|
    requires m in Eligible(s, roster) && NoRoute(s.box.inbox[m], roster)
    requires IsRun(End(c), agent, joined, owner, later) && |later.picks| == |Eligible(End(c), joined)|
    ensures var f := s.box.inbox[m];
      && m in End(c).box.inbox && End(c).box.inbox[m] == f
      && if f.msg.sender !in joined then m in End(later).box.inbox && m in End(later).parked
         else if Acceptable(f, agent, joined, m) then m in End(later).box.processing && ClaimKey(m, owner) in End(later).box.claims
         else m in End(later).box.corrupt
  {
    var mid, end := End(c), End(later);
    ReadsClassify(s, agent, roster, owner, c);
    ReadsClassify(mid, agent, joined, owner, later);
    ParkedStays(s, mid, agent, roster, joined, owner, m);
    assert ViewOf(end, joined, owner, m) ==
      if m in Eligible(mid, joined) then Sorted(ViewOf(mid, joined, owner, m), agent, joined, m)
      else ViewOf(mid, joined, owner, m);
  }

  lemma ParkedStays(s: Snap, mid: Snap, agent: Owner, roster: set<Owner>, joined: set<Owner>, owner: Owner, m: MsgId)
    requires Classified(s, mid, agent, roster, owner, Eligible(s, roster))
    requires m in Eligible(s, roster) && NoRoute(s.box.inbox[m], roster)
    ensures m in mid.box.inbox && mid.box.inbox[m] == s.box.inbox[m]
    ensures m in mid.parked && mid.parked[m] == Some(s.box.inbox[m].msg.sender)
    ensures m in Eligible(mid, joined) <==> s.box.inbox[m].msg.sender in joined
  {
    assert ViewOf(mid, roster, owner, m) == Sorted(ViewOf(s, roster, owner, m), agent, roster, m);
  }
}
