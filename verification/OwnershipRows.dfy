/** What every run of the identity store keeps true of its rows, and what may
    become of a row once it is written. */
module OwnershipRows {
  import opened Ownership
  import opened OwnershipRuns
  import opened Wrappers

  // ------------------------------------------------------- what rows never share

  ghost predicate IdsOnce(rows: seq<Row>) {
    forall i, j :: 0 <= i < j < |rows| ==> rows[i].id != rows[j].id
  }

  /** A subject is bound to one principal of the tenant at a time. */
  ghost predicate BoundOnce(rows: seq<Row>) {
    forall i, j :: 0 <= i < j < |rows| && rows[i].live && rows[j].live && rows[i].what.Binding? ==>
      rows[i].what != rows[j].what || rows[i].tenant != rows[j].tenant
  }

  /** A short id names one credential of its principal, revoked ones included. */
  ghost predicate ShortOnce(rows: seq<Row>) {
    forall i, j :: 0 <= i < j < |rows| && rows[i].what.Credential? && rows[i].what == rows[j].what ==>
      rows[i].tenant != rows[j].tenant || rows[i].principal != rows[j].principal
  }

  ghost predicate FewCredentials(rows: seq<Row>) {
    forall t, p {:trigger Credentials(rows, t, p)} :: Credentials(rows, t, p) <= 64
  }

  ghost predicate GrantIdsOnce(gs: seq<Grant>) {
    forall i, j :: 0 <= i < j < |gs| ==> gs[i].id != gs[j].id
  }

  ghost predicate GoodRows(rows: seq<Row>) {
    IdsOnce(rows) && BoundOnce(rows) && ShortOnce(rows) && FewCredentials(rows)
  }

  ghost predicate Good(db: Db) {
    Owned(db) && GoodRows(db.rows) && GrantIdsOnce(db.grants) && Unique(db.grants)
  }

  predicate LiveCredential(r: Row, t: string, p: Principal) { Of(r, t, p) && r.what.Credential? && r.live }

  lemma CredentialsPush(rows: seq<Row>, r: Row, t: string, p: Principal)
    ensures Credentials(rows + [r], t, p) == Credentials(rows, t, p) + if LiveCredential(r, t, p) then 1 else 0
  {
    assert (rows + [r])[..|rows|] == rows;
  }

  lemma {:induction false} CredentialsAfter(rows: seq<Row>, i: nat, r: Row, t: string, p: Principal)
    requires i < |rows|
    ensures Credentials(rows[i := r], t, p) == Credentials(rows, t, p)
      - (if LiveCredential(rows[i], t, p) then 1 else 0) + if LiveCredential(r, t, p) then 1 else 0
  {
    var n := |rows| - 1;
    if i < n {
      assert rows[i := r][..n] == rows[..n][i := r];
      CredentialsAfter(rows[..n], i, r, t, p);
    } else {
      assert rows[i := r][..n] == rows[..n];
    }
  }

  lemma BearerNone(rows: seq<Row>, t: string, subject: string)
    ensures Bearer(rows, t, subject).None? <==> forall r :: r in rows ==> !Bears(r, t, subject)
  {
    if rows != [] {
      assert rows == rows[..|rows| - 1] + [rows[|rows| - 1]];
      BearerNone(rows[..|rows| - 1], t, subject);
    }
  }

  /** A row like another, at most ended or verified since. */
  predicate Later(r: Row, r': Row) {
    SameOwner(r, r') && (r'.live ==> r.live) && (r.verified ==> r'.verified)
  }

  lemma ChangeGood(rows: seq<Row>, i: nat, r: Row)
    requires GoodRows(rows) && i < |rows| && Later(rows[i], r)
    ensures GoodRows(rows[i := r])
  {
    var to := rows[i := r];
    forall t, p ensures Credentials(to, t, p) <= 64 { CredentialsAfter(rows, i, r, t, p); }
  }

  lemma PushIds(rows: seq<Row>, r: Row)
    requires IdsOnce(rows) && Unused(rows, r.id)
    ensures IdsOnce(rows + [r])
  {
    assert forall i :: 0 <= i < |rows| ==> rows[i] in rows;
  }

  lemma BindingPushGood(rows: seq<Row>, r: Row)
    requires GoodRows(rows) && Unused(rows, r.id) && r.what.Binding?
    requires Bearer(rows, r.tenant, r.what.subject).None?
    ensures GoodRows(rows + [r])
  {
    PushIds(rows, r);
    BearerNone(rows, r.tenant, r.what.subject);
    assert forall i :: 0 <= i < |rows| ==> !Bears(rows[i], r.tenant, r.what.subject);
    forall t, p ensures Credentials(rows + [r], t, p) <= 64 { CredentialsPush(rows, r, t, p); }
  }

  lemma CredentialPushGood(rows: seq<Row>, r: Row)
    requires GoodRows(rows) && Unused(rows, r.id) && r.what.Credential?
    requires ShortFree(rows, r.tenant, r.principal, r.what.shortId)
    requires Credentials(rows, r.tenant, r.principal) < 64
    ensures GoodRows(rows + [r])
  {
    PushIds(rows, r);
    assert forall i :: 0 <= i < |rows| && Of(rows[i], r.tenant, r.principal) ==> rows[i].what != r.what;
    forall t, p ensures Credentials(rows + [r], t, p) <= 64 { CredentialsPush(rows, r, t, p); }
  }

  lemma StepRows(db: Db, s: Step, base: string)
    requires GoodRows(db.rows)
    ensures GoodRows(After(db, s, base).rows)
  {
    match s
    case NewUser(t, _, a, _, uid, id, at) =>
      var i := Bearer(db.rows, t, a.subject);
      if i.Some? {
        ChangeGood(db.rows, i.value, db.rows[i.value].(verified := true));
      } else if Unused(db.rows, id) {
        BindingPushGood(db.rows, Row(id, t, User(uid), base, at, Binding(a.subject), a.verified, true));
      }
    case NewBinding(t, _, p, a, id, at) =>
      var i := Bearer(db.rows, t, a.subject);
      if i.Some? {
        ChangeGood(db.rows, i.value, db.rows[i.value].(verified := true));
      } else if Unused(db.rows, id) {
        BindingPushGood(db.rows, Row(id, t, p, base, at, Binding(a.subject), a.verified, true));
      }
    case NewCredential(t, _, p, shortId, id, at) =>
      if Answer(db, s, base).Done? {
        CredentialPushGood(db.rows, Row(id, t, p, base, at, Credential(shortId), false, true));
      }
    case EndCredential(t, _, id) =>
      var i := Locate(db.rows, t, id);
      if i.Some? { ChangeGood(db.rows, i.value, db.rows[i.value].(live := false)); }
    case _ => assert After(db, s, base).rows == db.rows;
  }

  lemma PushGrantIds(gs: seq<Grant>, to: seq<Grant>, g: Grant)
    requires GrantIdsOnce(gs) && FreshGrant(gs, g.id) && GrantsGrown(gs, to) && |gs| == |to|
    ensures GrantIdsOnce(to + [g])
  {
    assert forall i :: 0 <= i < |gs| ==> to[i].id == gs[i].id && gs[i] in gs;
  }

  lemma PutOnceIds(db: Db, t: string, base: string, p: Principal, res: Resource, verbs: seq<string>, id: string)
    requires GrantIdsOnce(db.grants)
    ensures var r := PutOnce(db, t, base, p, res, verbs, id); r.Done? ==> GrantIdsOnce(r.db.grants)
  {
    var i := LiveGrant(db.grants, t, p, res);
    var to := if i.Some? then Ended(db.grants, i.value) else db.grants;
    if FreshGrant(db.grants, id) { PushGrantIds(db.grants, to, Grant(id, t, p, res, verbs, base, true)); }
  }

  lemma StepGrantIds(db: Db, s: Step, base: string)
    requires GrantIdsOnce(db.grants)
    ensures GrantIdsOnce(After(db, s, base).grants)
  {
    if s.NewGrant? && Answer(db, s, base).Done? {
      var id := PutIsOnce(db, s, base);
      PutOnceIds(db, s.tenant, base, s.principal, s.resource, s.verbs, id);
    } else if !s.NewGrant? && !s.EndGrant? {
      assert After(db, s, base).grants == db.grants;
    }
  }

  /** Over every run ids name one row, a subject one principal, a short id one
      credential, and a principal has at most 64 live credentials. */
  lemma {:induction false} RunGood(steps: seq<Step>)
    ensures Good(Run(EMPTY, steps))
  {
    RunOwned(EMPTY, steps);
    GrantsUniqueAndBounded(steps);
    if steps != [] {
      var pre, s := Run(EMPTY, steps[..|steps| - 1]), steps[|steps| - 1];
      RunGood(steps[..|steps| - 1]);
      StepRows(pre, s, BaseStack(s.stack));
      StepGrantIds(pre, s, BaseStack(s.stack));
    }
  }

  // ------------------------------------------------------- what becomes of a row

  predicate GrantLater(g: Grant, g': Grant) { g' == g.(live := g'.live) && (g'.live ==> g.live) }

  predicate UserLater(u: UserRow, u': UserRow) { u' == u.(active := u'.active) }

  ghost predicate RowsGrown(rows: seq<Row>, to: seq<Row>) {
    |rows| <= |to| && forall i :: 0 <= i < |rows| ==> Later(rows[i], to[i])
  }

  ghost predicate GrantsGrown(gs: seq<Grant>, to: seq<Grant>) {
    |gs| <= |to| && forall i :: 0 <= i < |gs| ==> GrantLater(gs[i], to[i])
  }

  ghost predicate UsersGrown(users: map<string, UserRow>, to: map<string, UserRow>) {
    forall u :: u in users ==> u in to && UserLater(users[u], to[u])
  }

  ghost predicate Grown(db: Db, to: Db) {
    RowsGrown(db.rows, to.rows) && GrantsGrown(db.grants, to.grants) && UsersGrown(db.users, to.users)
  }

  lemma EndedGrown(gs: seq<Grant>, i: nat)
    requires i < |gs|
    ensures GrantsGrown(gs, Ended(gs, i)) && forall g :: GrantsGrown(gs, Ended(gs, i) + [g])
  {
  }

  lemma StepGrantsGrow(db: Db, s: Step, base: string)
    ensures GrantsGrown(db.grants, After(db, s, base).grants)
  {
    if s.NewGrant? && Answer(db, s, base).Done? {
      var id := PutIsOnce(db, s, base);
      var i := LiveGrant(db.grants, s.tenant, s.principal, s.resource);
      if i.Some? { EndedGrown(db.grants, i.value); }
    } else if s.EndGrant? {
      var i := LocateGrant(db.grants, s.tenant, s.id);
      if i.Some? { EndedGrown(db.grants, i.value); }
    } else {
      assert After(db, s, base).grants == db.grants;
    }
  }

  lemma StepRowsGrow(db: Db, s: Step, base: string)
    ensures RowsGrown(db.rows, After(db, s, base).rows)
  {
    if s.NewGrant? || s.EndGrant? { assert After(db, s, base).rows == db.rows; }
  }

  lemma StepUsersGrow(db: Db, s: Step, base: string)
    ensures UsersGrown(db.users, After(db, s, base).users)
  {
    if s.NewGrant? || s.EndGrant? { assert After(db, s, base).users == db.users; }
  }

  lemma GrownTransitive(a: Db, b: Db, c: Db)
    requires Grown(a, b) && Grown(b, c)
    ensures Grown(a, c)
  {
    forall i | 0 <= i < |a.rows| ensures Later(a.rows[i], c.rows[i]) {
      assert Later(a.rows[i], b.rows[i]) && Later(b.rows[i], c.rows[i]);
    }
    forall i | 0 <= i < |a.grants| ensures GrantLater(a.grants[i], c.grants[i]) {
      assert GrantLater(a.grants[i], b.grants[i]) && GrantLater(b.grants[i], c.grants[i]);
    }
    forall u | u in a.users ensures u in c.users && UserLater(a.users[u], c.users[u]) {
      assert UserLater(a.users[u], b.users[u]) && UserLater(b.users[u], c.users[u]);
    }
  }

  /** No row is ever deleted or rewritten: a binding may become verified, a
      credential or a grant revoked, a user disabled or enabled, and what is
      revoked stays so. */
  lemma {:induction false} RowsOnlyEnd(db: Db, steps: seq<Step>)
    ensures Grown(db, Run(db, steps))
  {
    if steps != [] {
      var pre, s := Run(db, steps[..|steps| - 1]), steps[|steps| - 1];
      RowsOnlyEnd(db, steps[..|steps| - 1]);
      StepRowsGrow(pre, s, BaseStack(s.stack));
      StepGrantsGrow(pre, s, BaseStack(s.stack));
      StepUsersGrow(pre, s, BaseStack(s.stack));
      GrownTransitive(db, pre, Run(db, steps));
    }
  }

  /** The step that sets the user's status, for the stack that created them. */
  predicate Sets(db: Db, s: Step, base: string, uid: string, disabled: bool) {
    && s.Disable? && s.uid == uid && s.disabled == disabled && base != "" && uid in db.users
    && db.users[uid].tenant == s.tenant && db.users[uid].createdBy == base
  }

  /** A user becomes disabled, or active again, exactly when the stack that
      created them says so. */
  lemma StatusExactly(db: Db, s: Step, base: string, uid: string)
    requires uid in db.users
    ensures var to := After(db, s, base);
      && uid in to.users
      && (to.users[uid].active <==>
            Sets(db, s, base, uid, false) || (db.users[uid].active && !Sets(db, s, base, uid, true)))
  {
    if s.NewGrant? && Answer(db, s, base).Done? {
      var id := PutIsOnce(db, s, base);
    }
  }
}
