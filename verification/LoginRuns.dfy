/** Whole runs of one node: credentials issued and revoked, users enabled and
    disabled, usernames bound and unbound, between logins that share a cache. */
module LoginRuns {
  import opened Wrappers
  import opened Login
  import opened Strings

  datatype Step =
    | Issue(slot: Slot, cred: Credential)
    | Revoke(slot: Slot)
    | SetUser(tenant: string, user: string, active: bool)
    | DropUser(tenant: string, user: string)
    | Bind(tenant: string, username: string, principal: Principal)
    | Unbind(tenant: string, username: string)
    | Try(attempt: Attempt, now: int, allowed: bool)

  datatype State = State(db: Db, entries: Entries)

  datatype Limits = Limits(max: int, ttl: int)

  function Next(w: World, lim: Limits, s: State, step: Step): State {
    match step
    case Issue(slot, c) => s.(db := s.db.(credentials := s.db.credentials[slot := c]))
    case Revoke(slot) => s.(db := s.db.(credentials := s.db.credentials - {slot}))
    case SetUser(t, u, active) => s.(db := s.db.(users := s.db.users[(t, u) := active]))
    case DropUser(t, u) => s.(db := s.db.(users := s.db.users - {(t, u)}))
    case Bind(t, n, p) => s.(db := s.db.(bindings := s.db.bindings[(t, n) := p]))
    case Unbind(t, n) => s.(db := s.db.(bindings := s.db.bindings - {(t, n)}))
    case Try(a, now, allowed) => s.(entries := After(w, s.entries, lim.max, lim.ttl, s.db, a, now, allowed))
  }

  function Run(w: World, lim: Limits, steps: seq<Step>): State {
    if steps == [] then State(Db(map[], map[], map[]), map[])
    else Next(w, lim, Run(w, lim, steps[..|steps| - 1]), steps[|steps| - 1])
  }

  /** The chassis generates credential ids and hashes, without a NUL. */
  ghost predicate Issued(steps: seq<Step>) {
    forall i :: 0 <= i < |steps| && steps[i].Issue? ==>
      NulFree(steps[i].cred.id) && NulFree(steps[i].cred.hash)
  }

  ghost predicate Inv(w: World, lim: Limits, s: State) {
    Clean(s.db) && Truthful(w, s.entries) && (1 <= lim.max ==> |s.entries| <= lim.max)
  }

  lemma LookedSize(es: Entries, key: Digest, now: int)
    ensures |Looked(es, key, now)| <= |es|
  {
    if key in es {
      assert (es - {key}).Keys == es.Keys - {key};
      assert |es - {key}| == |(es - {key}).Keys| && |es| == |es.Keys|;
    }
  }

  lemma TryInv(w: World, lim: Limits, s: State, a: Attempt, now: int, allowed: bool)
    requires Inv(w, lim, s)
    ensures Inv(w, lim, Next(w, lim, s, Try(a, now, allowed)))
  {
    var row := RowOf(w, s.db, a);
    if row.Some? {
      var (t, p, c) := row.value;
      var key := LoginKey(c.id, c.hash, a.password);
      LookedSize(s.entries, key, now);
      assert c == s.db.credentials[Slot(t, p, w.shortId(a.password))];
      if w.verify(c.hash, a.password) == Some(true) {
        assert Proof(w, key, c.id, c.hash, a.password);
        assert Proven(w, key);
        if 1 <= lim.max { StoredSize(Looked(s.entries, key, now), lim.max, lim.ttl, key, now); }
      }
    }
  }

  lemma {:induction false} RunInv(w: World, lim: Limits, steps: seq<Step>)
    requires Issued(steps)
    ensures Inv(w, lim, Run(w, lim, steps))
  {
    if steps != [] {
      var pre, step := steps[..|steps| - 1], steps[|steps| - 1];
      RunInv(w, lim, pre);
      if step.Try? { TryInv(w, lim, Run(w, lim, pre), step.attempt, step.now, step.allowed); }
    }
  }

  /** After any run, a login answered from the cache ends as a full password
      check against the rows as they are now would, and a login not answered
      from it differs from that at most by being throttled. */
  lemma CacheIsTransparent(w: World, lim: Limits, steps: seq<Step>, a: Attempt, now: int, allowed: bool)
    requires Issued(steps)
    ensures
      var s := Run(w, lim, steps);
      Answer(w, s.entries, s.db, a, now, allowed) ==
        if Cached(w, s.entries, s.db, a, now) || allowed || a.tenant.None? then Verified(w, s.db, a) else Throttled
  {
    var s := Run(w, lim, steps);
    RunInv(w, lim, steps);
    Transparent(w, s.entries, s.db, a, now, allowed);
  }

  /** Nobody signs in but with a live credential, its password, a covering
      scope and an active user, whatever the cache holds. */
  lemma SignedIn(w: World, lim: Limits, steps: seq<Step>, a: Attempt, now: int, allowed: bool, p: Principal, id: string)
    requires Issued(steps)
    requires var s := Run(w, lim, steps); Answer(w, s.entries, s.db, a, now, allowed) == OK(p, id)
    ensures
      var db := Run(w, lim, steps).db;
      && a.tenant.Some? && Who(db, a.tenant.value, a.door) == Some(p)
      && var slot := Slot(a.tenant.value, p, w.shortId(a.password));
      && slot in db.credentials && db.credentials[slot].id == id
      && w.verify(db.credentials[slot].hash, a.password) == Some(true)
      && Covered(db.credentials[slot].scopes, a.want)
      && Active(db, a.tenant.value, p)
  {
    CacheIsTransparent(w, lim, steps, a, now, allowed);
    OkExactly(w, Run(w, lim, steps).db, a, p, id);
  }

  /** A check that put this key into the cache. */
  ghost predicate Checked(w: World, lim: Limits, steps: seq<Step>, i: nat, key: Digest) {
    && i < |steps| && steps[i].Try? && steps[i].allowed
    && var db := Run(w, lim, steps[..i]).db; var row := RowOf(w, db, steps[i].attempt);
    && row.Some? && var c := row.value.2;
    && key == LoginKey(c.id, c.hash, steps[i].attempt.password)
    && w.verify(c.hash, steps[i].attempt.password) == Some(true)
  }

  /** Whatever is remembered was checked on this node, and expires the time to
      live after that check. */
  lemma {:induction false} RememberedWasChecked(w: World, lim: Limits, steps: seq<Step>, key: Digest) returns (i: nat)
    requires key in Run(w, lim, steps).entries
    ensures Checked(w, lim, steps, i, key) && Run(w, lim, steps).entries[key] == steps[i].now + lim.ttl
  {
    var pre := steps[..|steps| - 1];
    var was, is_ := Run(w, lim, pre).entries, Run(w, lim, steps).entries;
    if key in was && was[key] == is_[key] {
      i := RememberedWasChecked(w, lim, pre, key);
      assert pre[..i] == steps[..i];
    } else {
      i := |pre|;
      EntryChange(w, lim, Run(w, lim, pre), steps[i], key);
    }
  }

  lemma EntryChange(w: World, lim: Limits, s: State, step: Step, key: Digest)
    requires var to := Next(w, lim, s, step).entries;
      key in to && (key !in s.entries || s.entries[key] != to[key])
    ensures step.Try? && step.allowed && Next(w, lim, s, step).entries[key] == step.now + lim.ttl
    ensures var row := RowOf(w, s.db, step.attempt);
      && row.Some? && key == LoginKey(row.value.2.id, row.value.2.hash, step.attempt.password)
      && w.verify(row.value.2.hash, step.attempt.password) == Some(true)
  {
  }

  /** So a login skips the password check only within the time to live of a
      check of the same credential, hash and password. */
  lemma CachedWasChecked(w: World, lim: Limits, steps: seq<Step>, a: Attempt, now: int) returns (i: nat)
    requires var s := Run(w, lim, steps); Cached(w, s.entries, s.db, a, now)
    ensures
      var c := RowOf(w, Run(w, lim, steps).db, a).value.2;
      Checked(w, lim, steps, i, LoginKey(c.id, c.hash, a.password)) && now <= steps[i].now + lim.ttl
  {
    var c := RowOf(w, Run(w, lim, steps).db, a).value.2;
    i := RememberedWasChecked(w, lim, steps, LoginKey(c.id, c.hash, a.password));
  }
}
