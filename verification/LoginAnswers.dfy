/** How every login ends, said of the rows alone; what the cache keeps; and what
    issuing, revoking, disabling and unbinding mean for the next login. */
module LoginAnswers {
  import opened Wrappers
  import opened Strings
  import opened Login
  import opened LoginRuns

  // ------------------------------------------------------------------- scopes

  /** A `*` granted stands for any segment, and nothing else does; so scopes
      compose, and asking for any needs a grant of any. */
  lemma CoversLaws(d: string, i: string, a: string, want: Scope)
    requires i != "*" && a != "*"
    ensures Covers(Scope(d, "*", "*"), want) <==> d == want.domain
    ensures Covers(Scope(d, i, "*"), want) <==> d == want.domain && i == want.inst
    ensures Covers(Scope(d, "*", a), want) <==> d == want.domain && a == want.action
    ensures Covers(Scope(d, i, a), want) <==> Scope(d, i, a) == want
    ensures forall s :: Covers(s, Scope(d, "*", a)) ==> s.inst == "*"
    ensures forall s :: Covers(s, Scope(d, i, "*")) ==> s.action == "*"
  {
  }

  lemma CoversCompose(r: Scope, s: Scope, want: Scope)
    requires Covers(r, s) && Covers(s, want)
    ensures Covers(r, want)
  {
  }

  // ----------------------------------------------------------------- outcomes

  /** The door leads to the principal: named outright, or bound to the username. */
  predicate LeadsTo(db: Db, t: string, d: Door, p: Principal) {
    || d == Known(p)
    || (d.Named? && d.username.Some? && (t, d.username.value) in db.bindings
        && db.bindings[(t, d.username.value)] == p)
  }

  /** The credential the attempt is for. */
  predicate IsFor(w: World, db: Db, a: Attempt, p: Principal, c: Credential) {
    && a.tenant.Some? && LeadsTo(db, a.tenant.value, a.door, p)
    && var slot := Slot(a.tenant.value, p, w.shortId(a.password));
    slot in db.credentials && db.credentials[slot] == c
  }

  predicate MaySignIn(db: Db, t: string, p: Principal) {
    p.Other? || ((t, p.id) in db.users && db.users[(t, p.id)])
  }

  ghost predicate Opens(c: Credential, want: Scope) {
    exists s :: s in c.scopes && Covers(s, want)
  }

  lemma RowExactly(w: World, db: Db, a: Attempt, p: Principal, c: Credential)
    ensures IsFor(w, db, a, p, c) <==> a.tenant.Some? && RowOf(w, db, a) == Some((a.tenant.value, p, c))
  {
  }

  ghost predicate HasRow(w: World, db: Db, a: Attempt) {
    exists p, c :: IsFor(w, db, a, p, c)
  }

  /** The outcome of a full check, for a credential that is there and for none. */
  lemma OutcomeExactly(w: World, db: Db, a: Attempt, p: Principal, c: Credential)
    ensures a.tenant.None? ==> Verified(w, db, a) == Error
    ensures a.tenant.Some? && !HasRow(w, db, a) ==> Verified(w, db, a) == Failed
    ensures IsFor(w, db, a, p, c) ==>
      Verified(w, db, a) ==
        if w.verify(c.hash, a.password).None? then Error
        else if w.verify(c.hash, a.password) == Some(false) then Failed
        else if !Opens(c, a.want) then OutOfScope
        else if !MaySignIn(db, a.tenant.value, p) then Disabled
        else OK(p, c.id)
  {
    RowExactly(w, db, a, p, c);
    AnyScope(c.scopes, a.want);
    if a.tenant.Some? && RowOf(w, db, a).Some? {
      var (t, q, d) := RowOf(w, db, a).value;
      RowExactly(w, db, a, q, d);
    }
  }

  // ---------------------------------------------------------------- the cache

  function Alive(es: Entries, now: int): set<Digest> { set k | k in es && es[k] >= now }

  /** A put keeps its key until its time is over, and every other unexpired key as
      long as there is room for them; when even those fill the cache it starts
      anew. */
  lemma PutKeepsAlive(es: Entries, max: int, ttl: int, key: Digest, now: int)
    ensures
      var to := Stored(es, max, ttl, key, now);
      && key in to && to[key] == now + ttl
      && (|es| < max ==> forall k :: k in es && k != key ==> k in to && to[k] == es[k])
      && (|es| >= max && |Alive(es, now)| < max ==>
            forall k :: k != key ==> (k in to <==> k in Alive(es, now)) && (k in to ==> to[k] == es[k]))
      && (|es| >= max && |Alive(es, now)| >= max ==> to.Keys == {key})
      && (forall k :: k in to && k != key ==> k in es && to[k] == es[k])
  {
    assert Unexpired(es, now).Keys == Alive(es, now);
    assert |Unexpired(es, now)| == |Unexpired(es, now).Keys|;
  }

  /** A lookup drops an expired key, and nothing else. */
  lemma LookKeepsAlive(es: Entries, key: Digest, now: int, k: Digest)
    ensures k in Looked(es, key, now) <==> k in es && !(k == key && es[k] < now)
    ensures k in Looked(es, key, now) ==> Looked(es, key, now)[k] == es[k]
  {
  }

  /** A password once checked is not checked again within the time to live: the
      next login with it is answered from the cache. */
  lemma CheckIsRemembered(w: World, lim: Limits, steps: seq<Step>, a: Attempt, now: int, later: int,
                          p: Principal, c: Credential)
    requires
      var s := Run(w, lim, steps);
      && IsFor(w, s.db, a, p, c) && w.verify(c.hash, a.password) == Some(true)
      && !Cached(w, s.entries, s.db, a, now) && later <= now + lim.ttl
    ensures
      var s' := Run(w, lim, steps + [Try(a, now, true)]);
      Cached(w, s'.entries, s'.db, a, later)
  {
    var s, all := Run(w, lim, steps), steps + [Try(a, now, true)];
    assert all[..|steps|] == steps;
    RowExactly(w, s.db, a, p, c);
    var key := LoginKey(c.id, c.hash, a.password);
    PutKeepsAlive(Looked(s.entries, key, now), lim.max, lim.ttl, key, now);
  }

  // ------------------------------------------------------- what changes of rows do

  /** Never signed in, by the cache or without it. */
  predicate Out(o: Outcome) { !o.OK? }

  /** After a revocation no login with that credential succeeds, remembered or
      not. */
  lemma RevokedIsOut(w: World, lim: Limits, steps: seq<Step>, slot: Slot, a: Attempt, now: int, allowed: bool)
    requires a.tenant == Some(slot.tenant) && w.shortId(a.password) == slot.shortId
    requires LeadsTo(Run(w, lim, steps).db, slot.tenant, a.door, slot.principal)
    ensures
      var s := Run(w, lim, steps + [Revoke(slot)]);
      Answer(w, s.entries, s.db, a, now, allowed) == if allowed then Failed else Throttled
  {
    var all := steps + [Revoke(slot)];
    assert all[..|steps|] == steps;
  }

  /** After a user is disabled or dropped no login as them succeeds. */
  lemma DisabledIsOut(w: World, lim: Limits, steps: seq<Step>, t: string, u: string, drop: bool, a: Attempt, now: int,
                      allowed: bool)
    requires a.tenant == Some(t) && LeadsTo(Run(w, lim, steps).db, t, a.door, User(u))
    ensures
      var s := Run(w, lim, steps + [if drop then DropUser(t, u) else SetUser(t, u, false)]);
      Out(Answer(w, s.entries, s.db, a, now, allowed))
  {
    var all := steps + [if drop then DropUser(t, u) else SetUser(t, u, false)];
    assert all[..|steps|] == steps;
  }

  /** After a username is unbound no login under it succeeds. */
  lemma UnboundIsOut(w: World, lim: Limits, steps: seq<Step>, t: string, n: string, a: Attempt, now: int, allowed: bool)
    requires a.tenant == Some(t) && a.door == Named(Some(n))
    ensures
      var s := Run(w, lim, steps + [Unbind(t, n)]);
      Answer(w, s.entries, s.db, a, now, allowed) == if allowed then Failed else Throttled
  {
    var all := steps + [Unbind(t, n)];
    assert all[..|steps|] == steps;
  }

  /** A credential just issued opens what its scopes cover to an active principal. */
  lemma IssuedIsIn(w: World, lim: Limits, steps: seq<Step>, slot: Slot, c: Credential, a: Attempt, now: int)
    requires Issued(steps) && NulFree(c.id) && NulFree(c.hash)
    requires a.tenant == Some(slot.tenant) && w.shortId(a.password) == slot.shortId
    requires LeadsTo(Run(w, lim, steps).db, slot.tenant, a.door, slot.principal)
    requires MaySignIn(Run(w, lim, steps).db, slot.tenant, slot.principal)
    requires w.verify(c.hash, a.password) == Some(true) && Opens(c, a.want)
    ensures
      var s := Run(w, lim, steps + [Issue(slot, c)]);
      Answer(w, s.entries, s.db, a, now, true) == OK(slot.principal, c.id)
  {
    var all := steps + [Issue(slot, c)];
    assert all[..|steps|] == steps;
    assert Issued(all);
    CacheIsTransparent(w, lim, all, a, now, true);
    OutcomeExactly(w, Run(w, lim, all).db, a, slot.principal, c);
  }
}
