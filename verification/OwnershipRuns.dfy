/** Serial runs of the identity store: who owns a principal never changes, and
    grants stay unique and bounded. */
module OwnershipRuns {
  import opened Ownership
  import opened Wrappers

  datatype Step =
    | NewUser(tenant: string, stack: string, address: Address, display: string, uid: string, id: string, at: int)
    | NewBinding(tenant: string, stack: string, principal: Principal, address: Address, id: string, at: int)
    | NewCredential(tenant: string, stack: string, principal: Principal, shortId: string, id: string, at: int)
    | EndCredential(tenant: string, stack: string, id: string)
    | Disable(tenant: string, stack: string, uid: string, disabled: bool)
    | NewGrant(tenant: string, stack: string, principal: Principal, resource: Resource, verbs: seq<string>,
               id: string, retry: string)
    | EndGrant(tenant: string, stack: string, id: string)

  /** `base` is the base of the stack the step acts for. */
  function Answer(db: Db, s: Step, base: string): Reply {
    match s
    case NewUser(t, _, a, display, uid, id, at) => CreateUser(db, t, base, a, display, uid, id, at)
    case NewBinding(t, _, p, a, id, at) => Bind(db, t, base, p, a, id, at)
    case NewCredential(t, _, p, shortId, id, at) => Issue(db, t, base, p, shortId, id, at)
    case EndCredential(t, _, id) => RevokeCredential(db, t, base, id)
    case Disable(t, _, uid, disabled) => SetUserDisabled(db, t, base, uid, disabled)
    case NewGrant(t, _, p, res, verbs, id, retry) => PutGrant(db, t, base, p, res, verbs, id, retry)
    case EndGrant(t, _, id) => RevokeGrant(db, t, base, id)
  }

  function After(db: Db, s: Step, base: string): Db {
    match Answer(db, s, base) case Done(to) => to case Refused(_) => db
  }

  function Next(db: Db, s: Step): Db { After(db, s, BaseStack(s.stack)) }

  const EMPTY := Db(map[], [], [])

  function Run(db: Db, steps: seq<Step>): Db {
    if steps == [] then db else Next(Run(db, steps[..|steps| - 1]), steps[|steps| - 1])
  }

  // -------------------------------------------------------------- one owner each

  predicate RowOwned(db: Db, r: Row) { OwnerOf(db, r.tenant, r.principal) == By(r.createdBy) }

  predicate GrantOwned(db: Db, g: Grant) { OwnerOf(db, g.tenant, g.principal) == By(g.createdBy) }

  /** Every row carries the stack that owns its principal. */
  ghost predicate Owned(db: Db) {
    && (forall r {:trigger RowOwned(db, r)} :: r in db.rows ==> RowOwned(db, r))
    && (forall g {:trigger GrantOwned(db, g)} :: g in db.grants ==> GrantOwned(db, g))
  }

  /** Whatever had an owner keeps it. */
  ghost predicate Sticky(db: Db, to: Db) {
    forall t, p {:trigger OwnerOf(to, t, p)} :: OwnerOf(db, t, p).By? ==> OwnerOf(to, t, p) == OwnerOf(db, t, p)
  }

  lemma EarliestPush(rows: seq<Row>, r: Row, t: string, p: Principal)
    ensures var e := Earliest(rows, t, p);
      Earliest(rows + [r], t, p) == if Of(r, t, p) && (e.None? || Before(r, e.value)) then Some(r) else e
  {
    assert (rows + [r])[..|rows|] == rows;
  }

  /** A new row of a principal its writer may write keeps every owner. */
  lemma AddRowKeeps(db: Db, r: Row)
    requires Owned(db) && OwnerOf(db, r.tenant, r.principal) in {Nobody, By(r.createdBy)}
    ensures var to := db.(rows := db.rows + [r]); Owned(to) && Sticky(db, to)
  {
    var to := db.(rows := db.rows + [r]);
    forall t, p ensures OwnerOf(to, t, p) ==
      if p.Other? && Of(r, t, p) then By(r.createdBy) else OwnerOf(db, t, p)
    {
      EarliestPush(db.rows, r, t, p);
    }
    forall x | x in to.rows ensures RowOwned(to, x) {
      if x in db.rows { assert RowOwned(db, x); }
    }
    forall g | g in to.grants ensures GrantOwned(to, g) { assert GrantOwned(db, g); }
  }

  /** Users created are the new owner's. */
  lemma AddUserKeeps(db: Db, uid: string, u: UserRow)
    requires Owned(db) && uid !in db.users
    ensures var to := db.(users := db.users[uid := u]); Owned(to) && Sticky(db, to)
  {
    var to := db.(users := db.users[uid := u]);
    assert Sticky(db, to);
    forall r | r in to.rows ensures RowOwned(to, r) { assert RowOwned(db, r); }
    forall g | g in to.grants ensures GrantOwned(to, g) { assert GrantOwned(db, g); }
  }

  /** The columns that decide ownership are the same. */
  predicate SameOwner(r: Row, r': Row) {
    r' == r.(verified := r'.verified, live := r'.live)
  }

  lemma {:induction false} EarliestAfter(rows: seq<Row>, i: nat, r: Row, t: string, p: Principal)
    requires i < |rows| && SameOwner(rows[i], r)
    ensures var e, e' := Earliest(rows, t, p), Earliest(rows[i := r], t, p);
      e.Some? == e'.Some? && (e.Some? ==> SameOwner(e.value, e'.value))
  {
    var n := |rows| - 1;
    if i < n {
      assert rows[i := r][..n] == rows[..n][i := r];
      EarliestAfter(rows[..n], i, r, t, p);
    } else {
      assert rows[i := r][..n] == rows[..n];
    }
  }

  lemma ChangeRowKeeps(db: Db, i: nat, r: Row)
    requires Owned(db) && i < |db.rows| && SameOwner(db.rows[i], r)
    ensures var to := db.(rows := db.rows[i := r]); Owned(to) && Sticky(db, to)
  {
    var to := db.(rows := db.rows[i := r]);
    forall t, p ensures OwnerOf(to, t, p) == OwnerOf(db, t, p) { EarliestAfter(db.rows, i, r, t, p); }
    forall x | x in to.rows ensures RowOwned(to, x) {
      var j :| 0 <= j < |to.rows| && to.rows[j] == x;
      assert RowOwned(db, db.rows[j]);
    }
    forall g | g in to.grants ensures GrantOwned(to, g) { assert GrantOwned(db, g); }
  }

  lemma UpgradeKeeps(db: Db, i: nat, verified: bool)
    requires Owned(db) && i < |db.rows|
    ensures Owned(Upgraded(db, i, verified)) && Sticky(db, Upgraded(db, i, verified))
  {
    ChangeRowKeeps(db, i, db.rows[i].(verified := true));
  }

  lemma StatusKeeps(db: Db, uid: string, active: bool)
    requires Owned(db) && uid in db.users
    ensures var to := db.(users := db.users[uid := db.users[uid].(active := active)]); Owned(to) && Sticky(db, to)
  {
    var to := db.(users := db.users[uid := db.users[uid].(active := active)]);
    forall t, p ensures OwnerOf(to, t, p) == OwnerOf(db, t, p) { }
    forall r | r in to.rows ensures RowOwned(to, r) { assert RowOwned(db, r); }
    forall g | g in to.grants ensures GrantOwned(to, g) { assert GrantOwned(db, g); }
  }

  lemma GrantsKeep(db: Db, gs: seq<Grant>)
    requires Owned(db) && forall g :: g in gs ==> GrantOwned(db, g)
    ensures var to := db.(grants := gs); Owned(to) && Sticky(db, to)
  {
    var to := db.(grants := gs);
    forall t, p ensures OwnerOf(to, t, p) == OwnerOf(db, t, p) { }
    forall r | r in to.rows ensures RowOwned(to, r) { assert RowOwned(db, r); }
    forall g | g in to.grants ensures GrantOwned(to, g) { assert GrantOwned(db, g); }
  }

  lemma EndedOwned(db: Db, i: nat)
    requires Owned(db) && i < |db.grants|
    ensures forall g :: g in Ended(db.grants, i) ==> GrantOwned(db, g)
  {
    forall g | g in Ended(db.grants, i) ensures GrantOwned(db, g) {
      var j :| 0 <= j < |db.grants| && Ended(db.grants, i)[j] == g;
      assert GrantOwned(db, db.grants[j]);
    }
  }

  lemma PutOnceKeeps(db: Db, t: string, base: string, p: Principal, res: Resource, verbs: seq<string>, id: string)
    requires Owned(db) && OwnerOf(db, t, p) == By(base)
    ensures var r := PutOnce(db, t, base, p, res, verbs, id); r.Done? ==> Owned(r.db) && Sticky(db, r.db)
  {
    var i := LiveGrant(db.grants, t, p, res);
    if i.Some? { EndedOwned(db, i.value); }
    var r := PutOnce(db, t, base, p, res, verbs, id);
    if r.Done? {
      assert GrantOwned(db, Grant(id, t, p, res, verbs, base, true));
      assert forall g :: g in db.grants ==> GrantOwned(db, g);
      GrantsKeep(db, r.db.grants);
    }
  }

  lemma NewUserKeeps(db: Db, s: Step, base: string)
    requires Owned(db) && s.NewUser?
    ensures var r := Answer(db, s, base); r.Done? ==> Owned(r.db) && Sticky(db, r.db)
  {
    var r := Answer(db, s, base);
    var i := Bearer(db.rows, s.tenant, s.address.subject);
    if i.Some? {
      UpgradeKeeps(db, i.value, s.address.verified);
    } else if r.Done? {
      var u := UserRow(s.tenant, s.display, base, true);
      AddUserKeeps(db, s.uid, u);
      AddRowKeeps(db.(users := db.users[s.uid := u]),
                  Row(s.id, s.tenant, User(s.uid), base, s.at, Binding(s.address.subject), s.address.verified, true));
    }
  }

  lemma NewBindingKeeps(db: Db, s: Step, base: string)
    requires Owned(db) && s.NewBinding?
    ensures var r := Answer(db, s, base); r.Done? ==> Owned(r.db) && Sticky(db, r.db)
  {
    var r := Answer(db, s, base);
    var i := Bearer(db.rows, s.tenant, s.address.subject);
    if i.Some? {
      UpgradeKeeps(db, i.value, s.address.verified);
    } else if r.Done? {
      var what := Binding(s.address.subject);
      AddRowKeeps(db, Row(s.id, s.tenant, s.principal, base, s.at, what, s.address.verified, true));
    }
  }

  lemma NewCredentialKeeps(db: Db, s: Step, base: string)
    requires Owned(db) && s.NewCredential?
    ensures var r := Answer(db, s, base); r.Done? ==> Owned(r.db) && Sticky(db, r.db)
  {
    if Answer(db, s, base).Done? {
      AddRowKeeps(db, Row(s.id, s.tenant, s.principal, base, s.at, Credential(s.shortId), false, true));
    }
  }

  lemma StepOwned(db: Db, s: Step, base: string)
    requires Owned(db)
    ensures Owned(After(db, s, base)) && Sticky(db, After(db, s, base))
  {
    match s
    case NewUser(_, _, _, _, _, _, _) => NewUserKeeps(db, s, base);
    case NewBinding(_, _, _, _, _, _) => NewBindingKeeps(db, s, base);
    case NewCredential(_, _, _, _, _, _) => NewCredentialKeeps(db, s, base);
    case EndCredential(t, stack, id) =>
      var i := Locate(db.rows, t, id);
      if i.Some? { ChangeRowKeeps(db, i.value, db.rows[i.value].(live := false)); }
    case Disable(t, stack, uid, disabled) =>
      if uid in db.users { StatusKeeps(db, uid, !disabled); }
    case NewGrant(t, stack, p, res, verbs, id, retry) =>
      if PutError(db, t, base, p).None? {
        PutOnceKeeps(db, t, base, p, res, verbs, id);
        PutOnceKeeps(db, t, base, p, res, verbs, retry);
      }
    case EndGrant(t, stack, id) =>
      var i := LocateGrant(db.grants, t, id);
      if i.Some? { EndedOwned(db, i.value); GrantsKeep(db, Ended(db.grants, i.value)); }
  }

  lemma {:induction false} RunOwned(db: Db, steps: seq<Step>)
    requires Owned(db)
    ensures Owned(Run(db, steps)) && Sticky(db, Run(db, steps))
  {
    if steps != [] {
      var pre := Run(db, steps[..|steps| - 1]);
      RunOwned(db, steps[..|steps| - 1]);
      StepOwned(pre, steps[|steps| - 1], BaseStack(steps[|steps| - 1].stack));
      forall t, p | OwnerOf(db, t, p).By? ensures OwnerOf(Run(db, steps), t, p) == OwnerOf(db, t, p) {
        assert OwnerOf(pre, t, p) == OwnerOf(db, t, p);
      }
    }
  }

  /** All rows of a principal carry one creator: its bindings, its credentials,
      its grants and, for a user, its users row. */
  lemma OneCreator(steps: seq<Step>, t: string, p: Principal, r: Row)
    requires var db := Run(EMPTY, steps); r in db.rows && Of(r, t, p)
    ensures
      var db := Run(EMPTY, steps);
      && (forall x :: x in db.rows && Of(x, t, p) ==> x.createdBy == r.createdBy)
      && (forall g :: g in db.grants && g.tenant == t && g.principal == p ==> g.createdBy == r.createdBy)
      && (p.User? ==> p.uid in db.users && db.users[p.uid].tenant == t && db.users[p.uid].createdBy == r.createdBy)
  {
    var db := Run(EMPTY, steps);
    RunOwned(EMPTY, steps);
    assert RowOwned(db, r);
    forall x | x in db.rows && Of(x, t, p) ensures x.createdBy == r.createdBy { assert RowOwned(db, x); }
    forall g | g in db.grants && g.tenant == t && g.principal == p ensures g.createdBy == r.createdBy {
      assert GrantOwned(db, g);
    }
  }

  /** Forever: what runs later does not change who owns a principal, not even
      revoking its last row. */
  lemma OwnerForever(steps: seq<Step>, more: seq<Step>, t: string, p: Principal)
    requires OwnerOf(Run(EMPTY, steps), t, p).By?
    ensures OwnerOf(Run(Run(EMPTY, steps), more), t, p) == OwnerOf(Run(EMPTY, steps), t, p)
  {
    RunOwned(EMPTY, steps);
    RunOwned(Run(EMPTY, steps), more);
  }

  /** The principal a step writes to. */
  function Target(db: Db, s: Step): Option<Principal> {
    match s
    case NewUser(t, _, a, _, _, _, _) =>
      (match Bearer(db.rows, t, a.subject) case None => None case Some(i) => Some(db.rows[i].principal))
    case NewBinding(_, _, p, _, _, _) => Some(p)
    case NewCredential(_, _, p, _, _, _) => Some(p)
    case EndCredential(t, _, id) =>
      (match Locate(db.rows, t, id) case None => None case Some(i) => Some(db.rows[i].principal))
    case Disable(_, _, uid, _) => Some(User(uid))
    case NewGrant(_, _, p, _, _, _, _) => Some(p)
    case EndGrant(t, _, id) =>
      match LocateGrant(db.grants, t, id) case None => None case Some(i) => Some(db.grants[i].principal)
  }

  /** A step on behalf of a stack that is not the owner changes nothing. */
  lemma OthersAreRefused(db: Db, s: Step, base: string, p: Principal, owner: string)
    requires Target(db, s) == Some(p) && OwnerOf(db, s.tenant, p) == By(owner) && base != owner
    ensures Answer(db, s, base).Refused? && After(db, s, base) == db
  {
  }

  // ---------------------------------------------------------------- the grants

  /** Live grants on one resource: at most one per principal. */
  ghost predicate Unique(gs: seq<Grant>) {
    forall i, j :: 0 <= i < j < |gs| && gs[i].live && gs[j].live ==>
      gs[i].tenant != gs[j].tenant || gs[i].principal != gs[j].principal || gs[i].resource != gs[j].resource
  }

  ghost predicate Bounded(gs: seq<Grant>) {
    forall t, p {:trigger Held(gs, t, p)} :: Held(gs, t, p) <= MAX_GRANTS
  }

  lemma {:induction false} HeldAfterEnd(gs: seq<Grant>, i: nat, t: string, p: Principal)
    requires i < |gs|
    ensures Held(Ended(gs, i), t, p) == Held(gs, t, p) - if Holds(gs[i], t, p) then 1 else 0
  {
    var n := |gs| - 1;
    if i < n {
      assert Ended(gs, i)[..n] == Ended(gs[..n], i);
      HeldAfterEnd(gs[..n], i, t, p);
    } else {
      assert Ended(gs, i)[..n] == gs[..n];
    }
  }

  lemma HeldPush(gs: seq<Grant>, g: Grant, t: string, p: Principal)
    ensures Held(gs + [g], t, p) == Held(gs, t, p) + if Holds(g, t, p) then 1 else 0
  {
    assert (gs + [g])[..|gs|] == gs;
  }

  lemma EndedGood(gs: seq<Grant>, i: nat)
    requires i < |gs| && Unique(gs) && Bounded(gs)
    ensures Unique(Ended(gs, i)) && Bounded(Ended(gs, i))
  {
    forall t, p ensures Held(Ended(gs, i), t, p) <= MAX_GRANTS { HeldAfterEnd(gs, i, t, p); }
  }

  /** A grant on a resource not held, with room for one more. */
  lemma PushGood(gs: seq<Grant>, g: Grant)
    requires Unique(gs) && Bounded(gs) && g.live
    requires (forall x :: x in gs ==> !HoldsOn(x, g.tenant, g.principal, g.resource))
    requires Held(gs, g.tenant, g.principal) < MAX_GRANTS
    ensures Unique(gs + [g]) && Bounded(gs + [g])
  {
    forall t, p ensures Held(gs + [g], t, p) <= MAX_GRANTS { HeldPush(gs, g, t, p); }
    assert forall i :: 0 <= i < |gs| ==> !HoldsOn(gs[i], g.tenant, g.principal, g.resource);
  }

  /** Ending the one grant held on a resource leaves none. */
  lemma EndedFree(gs: seq<Grant>, i: nat, t: string, p: Principal, res: Resource)
    requires i < |gs| && Unique(gs) && HoldsOn(gs[i], t, p, res)
    ensures forall x :: x in Ended(gs, i) ==> !HoldsOn(x, t, p, res)
  {
    forall x | x in Ended(gs, i) ensures !HoldsOn(x, t, p, res) {
      var j :| 0 <= j < |gs| && Ended(gs, i)[j] == x;
    }
  }

  lemma PutOnceGood(db: Db, t: string, base: string, p: Principal, res: Resource, verbs: seq<string>, id: string)
    requires Unique(db.grants) && Bounded(db.grants)
    ensures var r := PutOnce(db, t, base, p, res, verbs, id); r.Done? ==> Unique(r.db.grants) && Bounded(r.db.grants)
  {
    var i, g := LiveGrant(db.grants, t, p, res), Grant(id, t, p, res, verbs, base, true);
    if i.Some? {
      EndedGood(db.grants, i.value);
      EndedFree(db.grants, i.value, t, p, res);
      HeldAfterEnd(db.grants, i.value, t, p);
      PushGood(Ended(db.grants, i.value), g);
    } else if Held(db.grants, t, p) < MAX_GRANTS {
      PushGood(db.grants, g);
    }
  }

  lemma StepGrants(db: Db, s: Step, base: string)
    requires Unique(db.grants) && Bounded(db.grants)
    ensures Unique(After(db, s, base).grants) && Bounded(After(db, s, base).grants)
  {
    if s.NewGrant? {
      if Answer(db, s, base).Done? {
        var id := PutIsOnce(db, s, base);
        PutOnceGood(db, s.tenant, base, s.principal, s.resource, s.verbs, id);
      }
    } else if s.EndGrant? {
      var i := LocateGrant(db.grants, s.tenant, s.id);
      if i.Some? { EndedGood(db.grants, i.value); }
    } else {
      assert After(db, s, base).grants == db.grants;
    }
  }

  /** Over every run at most one live grant per principal and resource, and at
      most MAX_GRANTS live grants per principal. */
  lemma {:induction false} GrantsUniqueAndBounded(steps: seq<Step>)
    ensures Unique(Run(EMPTY, steps).grants) && Bounded(Run(EMPTY, steps).grants)
  {
    if steps != [] {
      GrantsUniqueAndBounded(steps[..|steps| - 1]);
      StepGrants(Run(EMPTY, steps[..|steps| - 1]), steps[|steps| - 1], BaseStack(steps[|steps| - 1].stack));
    }
  }

  lemma PutOnceGrants(db: Db, t: string, base: string, p: Principal, res: Resource, verbs: seq<string>, id: string)
    ensures var r := PutOnce(db, t, base, p, res, verbs, id);
      r.Done? ==> var i := LiveGrant(r.db.grants, t, p, res); i.Some? && r.db.grants[i.value].verbs == verbs
  {
    var i, g := LiveGrant(db.grants, t, p, res), Grant(id, t, p, res, verbs, base, true);
    var gs := if i.Some? then Ended(db.grants, i.value) else db.grants;
    assert LiveGrant(gs + [g], t, p, res) == Some(|gs|) by { assert (gs + [g])[|gs|] == g; }
  }

  /** A put that succeeds leaves a live grant with the verbs asked for, whether
      it was there, replaced another or is new. */
  lemma PutGrants(db: Db, s: Step, base: string)
    requires s.NewGrant? && Answer(db, s, base).Done?
    ensures
      var gs := After(db, s, base).grants;
      var i := LiveGrant(gs, s.tenant, s.principal, s.resource);
      i.Some? && gs[i.value].verbs == s.verbs
  {
    var id := PutIsOnce(db, s, base);
    PutOnceGrants(db, s.tenant, base, s.principal, s.resource, s.verbs, id);
  }

  /** A put that succeeds did so in one of its passes. */
  lemma PutIsOnce(db: Db, s: Step, base: string) returns (id: string)
    requires s.NewGrant? && Answer(db, s, base).Done?
    ensures Answer(db, s, base) == PutOnce(db, s.tenant, base, s.principal, s.resource, s.verbs, id)
  {
    var first := PutOnce(db, s.tenant, base, s.principal, s.resource, s.verbs, s.id);
    id := if first == Refused(Conflict) then s.retry else s.id;
  }

  predicate Has(gs: seq<Grant>, t: string, p: Principal, res: Resource) {
    LiveGrant(gs, t, p, res).Some?
  }

  lemma HasMember(gs: seq<Grant>, g: Grant)
    requires g in gs && g.live
    ensures Has(gs, g.tenant, g.principal, g.resource)
  {
    assert HoldsOn(g, g.tenant, g.principal, g.resource);
  }

  /** A step that revokes the grant p holds on res, by a stack that may. */
  predicate Revokes(db: Db, s: Step, base: string, t: string, p: Principal, res: Resource) {
    s.EndGrant? && var i := LocateGrant(db.grants, s.tenant, s.id);
    && i.Some? && HoldsOn(db.grants[i.value], t, p, res) && Refusal(db, t, base, p).None?
  }

  /** A grant held is lost exactly to a revocation of it: no other step, and no
      change of verbs, leaves the principal without it. */
  lemma LostExactlyByRevoking(db: Db, s: Step, base: string, t: string, p: Principal, res: Resource)
    requires Has(db.grants, t, p, res) && Unique(db.grants)
    ensures !Has(After(db, s, base).grants, t, p, res) <==> Revokes(db, s, base, t, p, res)
  {
    var k := LiveGrant(db.grants, t, p, res).value;
    if s.EndGrant? {
      KeptByEnd(db, s, base, k);
      if Revokes(db, s, base, t, p, res) {
        EndedFree(db.grants, LocateGrant(db.grants, s.tenant, s.id).value, t, p, res);
      }
    } else if s.NewGrant? {
      KeptByPut(db, s, base, k);
    } else {
      assert After(db, s, base).grants == db.grants;
    }
  }

  lemma KeptByEnd(db: Db, s: Step, base: string, k: nat)
    requires s.EndGrant? && k < |db.grants| && db.grants[k].live
    ensures var g := db.grants[k];
      || Has(After(db, s, base).grants, g.tenant, g.principal, g.resource)
      || Revokes(db, s, base, g.tenant, g.principal, g.resource)
  {
    var to, g := After(db, s, base).grants, db.grants[k];
    if to == db.grants || LocateGrant(db.grants, s.tenant, s.id) != Some(k) {
      assert to[k] == g;
      HasMember(to, g);
    }
  }

  lemma KeptByPut(db: Db, s: Step, base: string, k: nat)
    requires s.NewGrant? && k < |db.grants| && db.grants[k].live
    ensures var g := db.grants[k]; Has(After(db, s, base).grants, g.tenant, g.principal, g.resource)
  {
    HasMember(db.grants, db.grants[k]);
    if Answer(db, s, base).Done? {
      var id := PutIsOnce(db, s, base);
      KeptByPutOnce(db, s.tenant, base, s.principal, s.resource, s.verbs, id, k);
    }
  }

  lemma KeptByPutOnce(db: Db, t: string, base: string, p: Principal, res: Resource, verbs: seq<string>, id: string,
                      k: nat)
    requires k < |db.grants| && db.grants[k].live
    ensures var g, r := db.grants[k], PutOnce(db, t, base, p, res, verbs, id);
      r.Done? ==> Has(r.db.grants, g.tenant, g.principal, g.resource)
  {
    var g, new_ := db.grants[k], Grant(id, t, p, res, verbs, base, true);
    var i := LiveGrant(db.grants, t, p, res);
    var gs := if i.Some? then Ended(db.grants, i.value) else db.grants;
    HasMember(db.grants, g);
    if i == Some(k) {
      HasMember(gs + [new_], new_);
    } else {
      assert (gs + [new_])[k] == g;
      HasMember(gs + [new_], g);
    }
  }
}
