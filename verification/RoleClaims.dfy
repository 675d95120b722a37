/** Exclusive role claims with a time to live: session_claim, session_release
    and the pruning of expired claims. */
module RoleClaims {
  import opened Basics

  type Role(==, !new)   // the pair (session_id, agent_id)
  type Owner(==, !new)

  datatype RoleClaim = RoleClaim(owner: Owner, claimedAt: real, expiresAt: real)

  type Claims = map<Role, RoleClaim>

  datatype Reply =
    | Granted(expiresAt: real)
    | Held(holder: Owner, until: real)
    | BadRequest
    | NoClaim
    | NotAuthorized(holder: Owner)
    | Freed
    | Quiet

  const CLAIM_TTL_MAX: real := 86400.0

  // ---- what the calls do ----

  /** None stands for an empty parameter. */
  datatype Op =
    | Claim(role: Option<Role>, owner: Option<Owner>, ttl: real, now: real)
    | Release(freed: Role, releaser: Option<Owner>)
    | Prune(now: real)

  function Claimed(c: Claims, role: Option<Role>, owner: Option<Owner>, ttl: real, now: real): (Reply, Claims) {
    if role.None? || owner.None? || ttl <= 0.0 || ttl > CLAIM_TTL_MAX then (BadRequest, c)
    else if role.value in c && c[role.value].owner != owner.value && c[role.value].expiresAt > now
    then (Held(c[role.value].owner, c[role.value].expiresAt), c)
    else (Granted(now + ttl), c[role.value := RoleClaim(owner.value, now, now + ttl)])
  }

  function Released(c: Claims, role: Role, owner: Option<Owner>): (Reply, Claims) {
    if role !in c then (NoClaim, c)
    else if owner.Some? && c[role].owner != owner.value then (NotAuthorized(c[role].owner), c)
    else (Freed, c - {role})
  }

  function Pruned(c: Claims, now: real): Claims {
    map r | r in c && c[r].expiresAt > now :: c[r]
  }

  function Do(c: Claims, op: Op): (Reply, Claims) {
    match op
    case Claim(role, owner, ttl, now) => Claimed(c, role, owner, ttl, now)
    case Release(role, owner) => Released(c, role, owner)
    case Prune(now) => (Quiet, Pruned(c, now))
  }

  class RoleRegistry {
    var claims: Claims

    constructor ()
      ensures claims == map[]
    {
      claims := map[];
    }

    method SessionClaim(role: Option<Role>, owner: Option<Owner>, ttl: real, now: real) returns (r: Reply)
      modifies this
      ensures (r, claims) == Claimed(old(claims), role, owner, ttl, now)
    {
      if role.None? || owner.None? {
        return BadRequest;
      }
      if ttl <= 0.0 || ttl > CLAIM_TTL_MAX {
        return BadRequest;
      }
      if role.value in claims && claims[role.value].owner != owner.value {
        if claims[role.value].expiresAt > now {
          return Held(claims[role.value].owner, claims[role.value].expiresAt);
        }
      }
      claims := claims[role.value := RoleClaim(owner.value, now, now + ttl)];
      return Granted(claims[role.value].expiresAt);
    }

    method SessionRelease(role: Role, owner: Option<Owner>) returns (r: Reply)
      modifies this
      ensures (r, claims) == Released(old(claims), role, owner)
    {
      if role !in claims {
        return NoClaim;
      }
      if owner.Some? && claims[role].owner != owner.value {
        return NotAuthorized(claims[role].owner);
      }
      claims := claims - {role};
      return Freed;
    }

    method PruneExpired(now: real)
      modifies this
      ensures claims == Pruned(old(claims), now)
    {
      var rest := set r | r in claims && claims[r].expiresAt <= now;
      ghost var expired := rest;
      while rest != {}
        invariant rest <= expired && claims == old(claims) - (expired - rest)
        decreases rest
      {
        var k :| k in rest;
        claims := claims - {k};
        rest := rest - {k};
      }
    }
  }

  // ---- runs ----

  function Run(c: Claims, ops: seq<Op>): Claims
    decreases |ops|
  {
    if ops == [] then c else Run(Do(c, ops[0]).1, ops[1..])
  }

  function Replies(c: Claims, ops: seq<Op>): seq<Reply>
    decreases |ops|
  {
    if ops == [] then [] else [Do(c, ops[0]).0] + Replies(Do(c, ops[0]).1, ops[1..])
  }

  /** Sampled times never go back, in the order of the locked sections. */
  ghost predicate ClockFrom(t: real, ops: seq<Op>)
    decreases |ops|
  {
    ops == [] ||
    (match ops[0]
     case Release(_, _) => ClockFrom(t, ops[1..])
     case Claim(_, _, _, now) => t <= now && ClockFrom(now, ops[1..])
     case Prune(now) => t <= now && ClockFrom(now, ops[1..]))
  }

  /** The owner gives up or renews the role itself; an empty owner may release anything. */
  predicate GivesUp(op: Op, role: Role, owner: Owner) {
    || (op.Release? && op.freed == role && (op.releaser == None || op.releaser == Some(owner)))
    || (op.Claim? && op.role == Some(role) && op.owner == Some(owner))
  }

  predicate Keeps(ops: seq<Op>, role: Role, owner: Owner) {
    forall i :: 0 <= i < |ops| ==> !GivesUp(ops[i], role, owner)
  }

  /** Exclusion: after a claim that was granted until X, as long as the owner
      neither releases nor re-claims the role, every other owner's claim sampled
      before X is refused in the owner's name, whatever else runs in between. */
  lemma Exclusive(c: Claims, t: real, role: Role, a: Owner, ttl: real, ops: seq<Op>, b: Owner, ttlB: real, nowB: real)
    requires 0.0 < ttl <= CLAIM_TTL_MAX && 0.0 < ttlB <= CLAIM_TTL_MAX && b != a
    requires Claimed(c, Some(role), Some(a), ttl, t).0.Granted?
    requires ClockFrom(t, ops + [Claim(Some(role), Some(b), ttlB, nowB)]) && nowB < t + ttl
    requires Keeps(ops, role, a)
    ensures var c1 := Run(Claimed(c, Some(role), Some(a), ttl, t).1, ops);
      Claimed(c1, Some(role), Some(b), ttlB, nowB) == (Held(a, t + ttl), c1)
  {
    GrantedIsRecorded(c, role, a, ttl, t);
    HeldUntilThen(c[role := RoleClaim(a, t, t + ttl)], t, role, RoleClaim(a, t, t + ttl), ops, b, ttlB, nowB);
  }

  lemma GrantedIsRecorded(c: Claims, role: Role, a: Owner, ttl: real, t: real)
    requires 0.0 < ttl <= CLAIM_TTL_MAX && Claimed(c, Some(role), Some(a), ttl, t).0.Granted?
    ensures Claimed(c, Some(role), Some(a), ttl, t).1 == c[role := RoleClaim(a, t, t + ttl)]
  {
  }

  lemma HeldUntilThen(c: Claims, t: real, role: Role, held: RoleClaim, ops: seq<Op>, b: Owner, ttlB: real, nowB: real)
    requires role in c && c[role] == held && nowB < held.expiresAt && 0.0 < ttlB <= CLAIM_TTL_MAX && b != held.owner
    requires ClockFrom(t, ops + [Claim(Some(role), Some(b), ttlB, nowB)])
    requires Keeps(ops, role, held.owner)
    ensures Claimed(Run(c, ops), Some(role), Some(b), ttlB, nowB) == (Held(held.owner, held.expiresAt), Run(c, ops))
  {
    StaysHeld(c, t, role, held, ops, b, ttlB, nowB);
    RefusedByLiveClaim(Run(c, ops), role, held, b, ttlB, nowB);
  }

  lemma RefusedByLiveClaim(c: Claims, role: Role, held: RoleClaim, b: Owner, ttlB: real, nowB: real)
    requires role in c && c[role] == held && held.owner != b && held.expiresAt > nowB && 0.0 < ttlB <= CLAIM_TTL_MAX
    ensures Claimed(c, Some(role), Some(b), ttlB, nowB) == (Held(held.owner, held.expiresAt), c)
  {
  }

  lemma {:induction false} StaysHeld(c: Claims, t: real, role: Role, held: RoleClaim, ops: seq<Op>, b: Owner, ttlB: real, nowB: real)
    requires role in c && c[role] == held && nowB < held.expiresAt
    requires ClockFrom(t, ops + [Claim(Some(role), Some(b), ttlB, nowB)])
    requires Keeps(ops, role, held.owner)
    ensures role in Run(c, ops) && Run(c, ops)[role] == held
    decreases |ops|
  {
    if ops != [] {
      var last := [Claim(Some(role), Some(b), ttlB, nowB)];
      assert (ops + last)[0] == ops[0] && (ops + last)[1..] == ops[1..] + last;
      var t' := if ops[0].Release? then t else ops[0].now;
      assert !GivesUp(ops[0], role, held.owner);
      ClockReaches(t', ops[1..], last[0]);
      StaysHeld(Do(c, ops[0]).1, t', role, held, ops[1..], b, ttlB, nowB);
    }
  }

  lemma {:induction false} ClockReaches(t: real, ops: seq<Op>, last: Op)
    requires last.Claim? && ClockFrom(t, ops + [last])
    ensures t <= last.now
    decreases |ops|
  {
    if ops != [] {
      assert (ops + [last])[0] == ops[0] && (ops + [last])[1..] == ops[1..] + [last];
      ClockReaches(if ops[0].Release? then t else ops[0].now, ops[1..], last);
    }
  }

  // ---- pruning is invisible to claims ----

  function WithoutPrunes(ops: seq<Op>): seq<Op> {
    if ops == [] then []
    else (if ops[0].Prune? then [] else [ops[0]]) + WithoutPrunes(ops[1..])
  }

  /** The replies to the claims, in order. */
  function ClaimReplies(c: Claims, ops: seq<Op>): seq<Reply>
    decreases |ops|
  {
    if ops == [] then []
    else (if ops[0].Claim? then [Do(c, ops[0]).0] else []) + ClaimReplies(Do(c, ops[0]).1, ops[1..])
  }

  /** p is c without some of the claims that have expired by t. */
  predicate SameLive(p: Claims, c: Claims, t: real) {
    && (forall r :: r in p ==> r in c && c[r] == p[r])
    && (forall r :: r in c && r !in p ==> c[r].expiresAt <= t)
  }

  /** Pruning at any moments leaves the outcome of every claim as it is in the
      run without pruning. */
  lemma {:induction false} PruningInvisible(p: Claims, c: Claims, t: real, ops: seq<Op>)
    requires SameLive(p, c, t) && ClockFrom(t, ops)
    ensures ClaimReplies(p, ops) == ClaimReplies(c, WithoutPrunes(ops))
    decreases |ops|
  {
    if ops != [] {
      var rest := WithoutPrunes(ops[1..]);
      var t' := if ops[0].Release? then t else ops[0].now;
      if ops[0].Prune? {
        PruningInvisible(Do(p, ops[0]).1, c, t', ops[1..]);
        assert WithoutPrunes(ops) == rest;
      } else {
        assert WithoutPrunes(ops) == [ops[0]] + rest && ([ops[0]] + rest)[1..] == rest;
        assert SameLive(Do(p, ops[0]).1, Do(c, ops[0]).1, t');
        PruningInvisible(Do(p, ops[0]).1, Do(c, ops[0]).1, t', ops[1..]);
      }
    }
  }

  // ---- exactly when exclusion holds, whatever the clock samples ----

  /** Ends the lease of `held` on the role, in the order of the locked sections:
      a prune or another owner's valid claim, sampled at its expiry or later. */
  predicate Ends(op: Op, role: Role, held: RoleClaim) {
    || (op.Prune? && held.expiresAt <= op.now)
    || (op.Claim? && op.role == Some(role) && op.owner.Some? && op.owner != Some(held.owner)
        && 0.0 < op.ttl <= CLAIM_TTL_MAX && held.expiresAt <= op.now)
  }

  predicate NeverEnds(ops: seq<Op>, role: Role, held: RoleClaim) {
    forall i :: 0 <= i < |ops| ==> !Ends(ops[i], role, held)
  }

  predicate HoldsNow(c: Claims, role: Role, held: RoleClaim) {
    role in c && c[role] == held
  }

  lemma OneOpExactly(c: Claims, role: Role, held: RoleClaim, op: Op)
    requires HoldsNow(c, role, held) && !GivesUp(op, role, held.owner)
    ensures HoldsNow(Do(c, op).1, role, held) <==> !Ends(op, role, held)
    ensures role in Do(c, op).1 ==> Do(c, op).1[role] == held || Do(c, op).1[role].owner != held.owner
  {
  }

  /** Nobody else's operation gives the role back to the owner. */
  lemma {:induction false} LostForGood(c: Claims, role: Role, a: Owner, ops: seq<Op>)
    requires role in c ==> c[role].owner != a
    requires Keeps(ops, role, a)
    ensures role in Run(c, ops) ==> Run(c, ops)[role].owner != a
    decreases |ops|
  {
    if ops != [] {
      assert !GivesUp(ops[0], role, a);
      LostForGood(Do(c, ops[0]).1, role, a, ops[1..]);
    }
  }

  /** As long as its owner neither releases nor re-claims the role, a lease is
      still the entry after any operations, with any clock samples in any order,
      if and only if none of them ends it. */
  lemma {:induction false} HoldsExactly(c: Claims, role: Role, held: RoleClaim, ops: seq<Op>)
    requires HoldsNow(c, role, held) && Keeps(ops, role, held.owner)
    ensures HoldsNow(Run(c, ops), role, held) <==> NeverEnds(ops, role, held)
    decreases |ops|
  {
    if ops != [] {
      var c1 := Do(c, ops[0]).1;
      assert !GivesUp(ops[0], role, held.owner);
      OneOpExactly(c, role, held, ops[0]);
      if HoldsNow(c1, role, held) {
        HoldsExactly(c1, role, held, ops[1..]);
        assert NeverEnds(ops, role, held) <==> NeverEnds(ops[1..], role, held) by {
          assert forall i :: 0 <= i < |ops| - 1 ==> ops[1..][i] == ops[i + 1];
        }
      } else {
        LostForGood(c1, role, held.owner, ops[1..]);
      }
    }
  }

  /** The clock is sampled before the lock is taken, so samples need not follow
      the order of the locked sections. Another owner's claim sampled before the
      lease runs out is refused in the holder's name if and only if no prune and
      no other claim that was sampled at the expiry or later got the lock first. */
  lemma LateLockBreaksExclusion(c: Claims, role: Role, held: RoleClaim, ops: seq<Op>, b: Owner, ttlB: real, nowB: real)
    requires HoldsNow(c, role, held) && Keeps(ops, role, held.owner)
    requires b != held.owner && 0.0 < ttlB <= CLAIM_TTL_MAX && nowB < held.expiresAt
    ensures Claimed(Run(c, ops), Some(role), Some(b), ttlB, nowB).0 == Held(held.owner, held.expiresAt)
       <==> NeverEnds(ops, role, held)
  {
    HoldsExactly(c, role, held, ops);
    if !NeverEnds(ops, role, held) {
      var i :| 0 <= i < |ops| && Ends(ops[i], role, held);
      EndedIsLost(c, role, held, ops, i);
    }
  }

  lemma {:induction false} EndedIsLost(c: Claims, role: Role, held: RoleClaim, ops: seq<Op>, i: nat)
    requires i < |ops| && Ends(ops[i], role, held) && Keeps(ops, role, held.owner)
    requires role in c ==> c[role] == held || c[role].owner != held.owner
    ensures role in Run(c, ops) ==> Run(c, ops)[role].owner != held.owner
    decreases |ops|
  {
    assert !GivesUp(ops[0], role, held.owner);
    var c1 := Do(c, ops[0]).1;
    if HoldsNow(c, role, held) {
      OneOpExactly(c, role, held, ops[0]);
    }
    if i == 0 || (role in c1 ==> c1[role].owner != held.owner) {
      LostForGood(c1, role, held.owner, ops[1..]);
    } else {
      EndedIsLost(c1, role, held, ops[1..], i - 1);
    }
  }

  // ---- what each call answers and leaves ----

  predicate Valid(role: Option<Role>, owner: Option<Owner>, ttl: real) {
    role.Some? && owner.Some? && 0.0 < ttl <= 86400.0
  }

  /** A valid claim is granted, for the full time to live, exactly when the role
      is free, is the caller's already, or its lease has run out by the sampled
      time; otherwise it is refused in the holder's name and nothing changes. */
  lemma ClaimGrantedWhen(c: Claims, role: Option<Role>, owner: Option<Owner>, ttl: real, now: real)
    ensures var (reply, c') := Claimed(c, role, owner, ttl, now);
      && (reply == BadRequest <==> !Valid(role, owner, ttl))
      && (Valid(role, owner, ttl) ==>
            && (reply.Granted? <==> role.value !in c || c[role.value].owner == owner.value || c[role.value].expiresAt <= now)
            && (reply.Granted? || reply == Held(c[role.value].owner, c[role.value].expiresAt)))
      && (reply.Granted? ==>
            && reply.expiresAt == now + ttl
            && role.value in c' && c'[role.value] == RoleClaim(owner.value, now, now + ttl)
            && c' - {role.value} == c - {role.value})
      && (!reply.Granted? ==> c' == c)
  {
    if role.Some? && owner.Some? {
      assert c[role.value := RoleClaim(owner.value, now, now + ttl)] - {role.value} == c - {role.value};
    }
  }

  /** An owner's own claim on its role is always granted and starts its lease
      anew, from whatever time it samples. */
  lemma OwnClaimRestamps(c: Claims, role: Role, ttl: real, now: real)
    requires role in c && 0.0 < ttl <= CLAIM_TTL_MAX
    ensures Claimed(c, Some(role), Some(c[role].owner), ttl, now)
         == (Granted(now + ttl), c[role := RoleClaim(c[role].owner, now, now + ttl)])
  {
  }

  /** A release succeeds exactly when the role is claimed and the caller is its
      owner or anonymous; it then removes that claim and no other. */
  lemma ReleaseFreesWhen(c: Claims, role: Role, owner: Option<Owner>)
    ensures var (reply, c') := Released(c, role, owner);
      && (reply == Freed <==> role in c && (owner.None? || owner.value == c[role].owner))
      && (reply == Freed ==> role !in c' && c' == c - {role})
      && (reply != Freed ==> c' == c)
      && (reply == NoClaim <==> role !in c)
  {
  }

  /** After a release anybody can have the role at once, however long the
      released lease still had to run. */
  lemma ReleasedRoleIsFree(c: Claims, role: Role, releaser: Option<Owner>, b: Owner, ttl: real, now: real)
    requires Released(c, role, releaser).0 == Freed && 0.0 < ttl <= CLAIM_TTL_MAX
    ensures var c' := Run(c, [Release(role, releaser), Claim(Some(role), Some(b), ttl, now)]);
      && Claimed(Released(c, role, releaser).1, Some(role), Some(b), ttl, now).0 == Granted(now + ttl)
      && role in c' && c'[role] == RoleClaim(b, now, now + ttl)
  {
    ReleaseFreesWhen(c, role, releaser);
    var ops := [Release(role, releaser), Claim(Some(role), Some(b), ttl, now)];
    var last := [Claim(Some(role), Some(b), ttl, now)];
    assert ops[1..] == last && last[1..] == [];
    var freed := Released(c, role, releaser).1;
    assert Run(c, ops) == Run(freed, last);
    assert Run(freed, last) == Run(Claimed(freed, Some(role), Some(b), ttl, now).1, []);
  }

  /** What a prune leaves. */
  lemma PrunedAreExpired(c: Claims, now: real, role: Role)
    ensures role in Pruned(c, now) <==> role in c && c[role].expiresAt > now
    ensures role in Pruned(c, now) ==> Pruned(c, now)[role] == c[role]
  {
  }

  // ---- who holds a role, read off the calls ----

  /** An operation that leaves the role with a claim of its own. */
  predicate Takes(c: Claims, op: Op, role: Role) {
    op.Claim? && op.role == Some(role) && Do(c, op).0.Granted?
  }

  /** An operation that leaves the role free. */
  predicate Frees(c: Claims, op: Op, role: Role) {
    && role in c
    && match op
       case Claim(_, _, _, _) => false
       case Release(r, o) => r == role && (o.None? || o.value == c[role].owner)
       case Prune(now) => c[role].expiresAt <= now
  }

  /** Every operation leaves a role claimed anew, free, or as it was. */
  lemma RoleAfter(c: Claims, op: Op, role: Role)
    ensures var c' := Do(c, op).1;
      if Takes(c, op, role) then role in c' && c'[role] == RoleClaim(op.owner.value, op.now, op.now + op.ttl)
      else if Frees(c, op, role) then role !in c'
      else (role in c' <==> role in c) && (role in c ==> c'[role] == c[role])
  {
  }
}
