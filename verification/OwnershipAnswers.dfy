/** When the identity store does what it is asked, what it then writes, and what
    it answers otherwise, said of the rows alone. */
module OwnershipAnswers {
  import opened Ownership
  import opened OwnershipRuns
  import opened OwnershipRows
  import opened Wrappers

  // -------------------------------------------------------------- who may write

  ghost predicate IsUser(db: Db, t: string, uid: string) { uid in db.users && db.users[uid].tenant == t }

  /** No row of the principal was written by another stack; a user has a users row. */
  ghost predicate Mine(db: Db, t: string, base: string, p: Principal) {
    && base != ""
    && (p.User? ==> IsUser(db, t, p.uid) && db.users[p.uid].createdBy == base)
    && (forall r :: r in db.rows && Of(r, t, p) ==> r.createdBy == base)
  }

  /** Some row of the principal, and so all of them, was written by `other`. */
  ghost predicate Theirs(db: Db, t: string, p: Principal, other: string) {
    || (p.User? && IsUser(db, t, p.uid) && db.users[p.uid].createdBy == other)
    || (p.Other? && exists r :: r in db.rows && Of(r, t, p) && r.createdBy == other)
  }

  lemma OwnerExactly(db: Db, t: string, p: Principal, o: string)
    requires Owned(db)
    ensures OwnerOf(db, t, p) == By(o) <==> Theirs(db, t, p, o)
    ensures OwnerOf(db, t, p) == Missing <==> p.User? && !IsUser(db, t, p.uid)
    ensures OwnerOf(db, t, p) == Nobody <==> p.Other? && forall r :: r in db.rows ==> !Of(r, t, p)
  {
    forall r | r in db.rows && Of(r, t, p) ensures OwnerOf(db, t, p) == By(r.createdBy) { assert RowOwned(db, r); }
  }

  /** A stack may write exactly what is its own, or nobody's yet. */
  lemma RefusalExactly(db: Db, t: string, base: string, p: Principal)
    requires Owned(db)
    ensures Refusal(db, t, base, p).None? <==> Mine(db, t, base, p)
    ensures base == "" ==> Refusal(db, t, base, p) == Some(NoStack)
    ensures base != "" && p.User? && !IsUser(db, t, p.uid) ==> Refusal(db, t, base, p) == Some(NotFound)
    ensures forall o :: base != "" && o != base && Theirs(db, t, p, o) ==> Refusal(db, t, base, p) == Some(NotOwner(o))
  {
    forall o ensures OwnerOf(db, t, p) == By(o) <==> Theirs(db, t, p, o) { OwnerExactly(db, t, p, o); }
    OwnerExactly(db, t, p, base);
    forall r | r in db.rows && Of(r, t, p) ensures OwnerOf(db, t, p) == By(r.createdBy) { assert RowOwned(db, r); }
  }

  /** An `Other` is active; a user is when their row says so. */
  ghost predicate MayAct(db: Db, t: string, p: Principal) {
    p.Other? || (IsUser(db, t, p.uid) && db.users[p.uid].active)
  }

  // ---------------------------------------------------------------- credentials

  function CredentialsOf(rows: seq<Row>, t: string, p: Principal): set<nat> {
    set i: nat | i < |rows| && LiveCredential(rows[i], t, p)
  }

  lemma {:induction false} CredentialsCounted(rows: seq<Row>, t: string, p: Principal)
    ensures Credentials(rows, t, p) == |CredentialsOf(rows, t, p)|
  {
    if rows == [] {
      assert CredentialsOf(rows, t, p) == {};
    } else {
      var n := |rows| - 1;
      CredentialsCounted(rows[..n], t, p);
      var last: set<nat> := if LiveCredential(rows[n], t, p) then {n} else {};
      assert CredentialsOf(rows, t, p) == CredentialsOf(rows[..n], t, p) + last;
    }
  }

  ghost predicate NewShort(rows: seq<Row>, t: string, p: Principal, shortId: string) {
    forall i :: 0 <= i < |rows| && rows[i].tenant == t && rows[i].principal == p ==> rows[i].what != Credential(shortId)
  }

  ghost predicate NewId(rows: seq<Row>, id: string) { forall i :: 0 <= i < |rows| ==> rows[i].id != id }

  /** A credential is issued exactly to an active principal of the stack, under a
      new short id and a new id, when fewer than 64 of its credentials live. */
  lemma IssueExactly(db: Db, t: string, base: string, p: Principal, shortId: string, id: string, at: int)
    requires Owned(db)
    ensures
      var r := Issue(db, t, base, p, shortId, id, at);
      && (r.Done? <==>
            && Mine(db, t, base, p) && MayAct(db, t, p) && |CredentialsOf(db.rows, t, p)| < 64
            && NewShort(db.rows, t, p, shortId) && NewId(db.rows, id))
      && (r.Done? ==>
            && r.db.users == db.users && r.db.grants == db.grants
            && r.db.rows == db.rows + [Row(id, t, p, base, at, Credential(shortId), false, true)])
      && (!Mine(db, t, base, p) ==> Some(r.error) == Refusal(db, t, base, p))
      && (Mine(db, t, base, p) && !MayAct(db, t, p) ==> r == Refused(Disabled))
      && (Mine(db, t, base, p) && MayAct(db, t, p) && |CredentialsOf(db.rows, t, p)| >= 64 ==> r == Refused(TooMany))
      && (Mine(db, t, base, p) && MayAct(db, t, p) && |CredentialsOf(db.rows, t, p)| < 64 && r.Refused? ==>
            r == Refused(Conflict))
  {
    RefusalExactly(db, t, base, p);
    CredentialsCounted(db.rows, t, p);
    SeenByIndex(db.rows, t, p, shortId, id);
  }

  lemma SeenByIndex(rows: seq<Row>, t: string, p: Principal, shortId: string, id: string)
    ensures NewShort(rows, t, p, shortId) <==> ShortFree(rows, t, p, shortId)
    ensures NewId(rows, id) <==> Unused(rows, id)
  {
    assert forall i :: 0 <= i < |rows| ==> rows[i] in rows;
  }

  /** The row of that id and tenant. */
  ghost predicate RowAt(rows: seq<Row>, k: nat, t: string, id: string) {
    k < |rows| && rows[k].id == id && rows[k].tenant == t
  }

  lemma {:induction false} LocateExactly(rows: seq<Row>, t: string, id: string)
    requires IdsOnce(rows)
    ensures forall k: nat :: RowAt(rows, k, t, id) <==> Locate(rows, t, id) == Some(k)
  {
    if rows != [] {
      var n := |rows| - 1;
      LocateExactly(rows[..n], t, id);
      forall k: nat ensures RowAt(rows, k, t, id) <==> Locate(rows, t, id) == Some(k) {
        assert k != n ==> (RowAt(rows, k, t, id) <==> RowAt(rows[..n], k, t, id));
      }
    }
  }

  /** A credential is revoked exactly by its principal's stack: its row, and
      nothing else, is dead then. */
  lemma RevokeCredentialExactly(db: Db, t: string, base: string, id: string, k: nat)
    requires Owned(db) && IdsOnce(db.rows)
    ensures
      var r := RevokeCredential(db, t, base, id);
      && (RowAt(db.rows, k, t, id) && db.rows[k].what.Credential? ==>
            var p := db.rows[k].principal;
            && (r.Done? <==> Mine(db, t, base, p))
            && (r.Refused? ==> Some(r.error) == Refusal(db, t, base, p))
            && (r.Done? ==>
                  && r.db.users == db.users && r.db.grants == db.grants && |r.db.rows| == |db.rows|
                  && r.db.rows[k] == db.rows[k].(live := false)
                  && forall j :: 0 <= j < |db.rows| && j != k ==> r.db.rows[j] == db.rows[j]))
      && ((forall j: nat :: RowAt(db.rows, j, t, id) ==> db.rows[j].what.Binding?) ==> r == Refused(NotFound))
  {
    LocateExactly(db.rows, t, id);
    if RowAt(db.rows, k, t, id) { RefusalExactly(db, t, base, db.rows[k].principal); }
  }

  // ---------------------------------------------------------- users and bindings

  /** A user is disabled, or enabled, exactly by the stack that created them, and
      nothing else of any row changes. */
  lemma SetDisabledExactly(db: Db, t: string, base: string, uid: string, disabled: bool)
    requires Owned(db)
    ensures
      var r := SetUserDisabled(db, t, base, uid, disabled);
      && (r.Done? <==> base != "" && IsUser(db, t, uid) && db.users[uid].createdBy == base)
      && (r.Done? ==>
            && r.db.rows == db.rows && r.db.grants == db.grants && r.db.users.Keys == db.users.Keys
            && r.db.users[uid] == db.users[uid].(active := !disabled)
            && (MayAct(r.db, t, User(uid)) <==> !disabled)
            && forall u :: u in db.users && u != uid ==> r.db.users[u] == db.users[u])
      && (base == "" ==> r == Refused(NoStack))
      && (base != "" && !IsUser(db, t, uid) ==> r == Refused(NotFound))
      && (base != "" && IsUser(db, t, uid) && db.users[uid].createdBy != base ==>
            r == Refused(NotOwner(db.users[uid].createdBy)))
  {
    RefusalExactly(db, t, base, User(uid));
  }

  ghost predicate BoundTo(rows: seq<Row>, k: nat, t: string, subject: string) {
    k < |rows| && rows[k].live && rows[k].tenant == t && rows[k].what == Binding(subject)
  }

  lemma {:induction false} BearerExactly(rows: seq<Row>, t: string, subject: string)
    requires BoundOnce(rows)
    ensures forall k: nat :: BoundTo(rows, k, t, subject) <==> Bearer(rows, t, subject) == Some(k)
  {
    if rows != [] {
      var n := |rows| - 1;
      BearerExactly(rows[..n], t, subject);
      forall k: nat ensures BoundTo(rows, k, t, subject) <==> Bearer(rows, t, subject) == Some(k) {
        assert k != n ==> (BoundTo(rows, k, t, subject) <==> BoundTo(rows[..n], k, t, subject));
      }
    }
  }

  ghost predicate Free(rows: seq<Row>, t: string, subject: string) { forall k: nat :: !BoundTo(rows, k, t, subject) }

  /** The rows are the same but that the k-th, a binding, is verified when asked. */
  ghost predicate Verifies(rows: seq<Row>, to: seq<Row>, k: nat, verified: bool) {
    && k < |rows| == |to| && to[k] == rows[k].(verified := rows[k].verified || verified)
    && forall j :: 0 <= j < |rows| && j != k ==> to[j] == rows[j]
  }

  /** A subject that is free is bound to the principal; one bound to it stays, and
      can only become verified; one bound to another is refused. */
  lemma BindExactly(db: Db, t: string, base: string, p: Principal, a: Address, id: string, at: int, k: nat)
    requires Owned(db) && BoundOnce(db.rows)
    ensures
      var r := Bind(db, t, base, p, a, id, at);
      && (!Mine(db, t, base, p) ==> r.Refused? && Some(r.error) == Refusal(db, t, base, p))
      && (Mine(db, t, base, p) && BoundTo(db.rows, k, t, a.subject) ==>
            if db.rows[k].principal == p
            then r.Done? && r.db == db.(rows := r.db.rows) && Verifies(db.rows, r.db.rows, k, a.verified)
            else r == Refused(Bound))
      && (Mine(db, t, base, p) && Free(db.rows, t, a.subject) ==>
            r == if NewId(db.rows, id)
                 then Done(db.(rows := db.rows + [Row(id, t, p, base, at, Binding(a.subject), a.verified, true)]))
                 else Refused(Conflict))
  {
    RefusalExactly(db, t, base, p);
    BearerExactly(db.rows, t, a.subject);
    SeenByIndex(db.rows, t, p, "", id);
  }

  /** Creating a user whose address is bound finds them when they are the
      stack's, and is refused otherwise; a free address makes a new active user
      of the stack, bound to it. */
  lemma CreateExactly(db: Db, t: string, base: string, a: Address, display: string, uid: string, id: string, at: int,
                      k: nat)
    requires Owned(db) && BoundOnce(db.rows)
    ensures
      var r := CreateUser(db, t, base, a, display, uid, id, at);
      && (base == "" ==> r == Refused(NoStack))
      && (base != "" && BoundTo(db.rows, k, t, a.subject) ==>
            if db.rows[k].principal.Other? then r == Refused(Bound)
            else if db.rows[k].createdBy == base
            then r.Done? && r.db == db.(rows := r.db.rows) && Verifies(db.rows, r.db.rows, k, a.verified)
            else r == Refused(NotOwner(db.rows[k].createdBy)))
      && (base != "" && Free(db.rows, t, a.subject) ==>
            r == if uid !in db.users && NewId(db.rows, id)
                 then Done(Db(db.users[uid := UserRow(t, display, base, true)],
                              db.rows + [Row(id, t, User(uid), base, at, Binding(a.subject), a.verified, true)],
                              db.grants))
                 else Refused(Conflict))
  {
    BearerExactly(db.rows, t, a.subject);
    SeenByIndex(db.rows, t, User(uid), "", id);
    if BoundTo(db.rows, k, t, a.subject) { assert RowOwned(db, db.rows[k]); }
  }

  // --------------------------------------------------------------------- grants

  predicate LiveFor(g: Grant, t: string, p: Principal) { g.live && g.tenant == t && g.principal == p }

  function GrantsOf(gs: seq<Grant>, t: string, p: Principal): set<nat> {
    set i: nat | i < |gs| && LiveFor(gs[i], t, p)
  }

  lemma {:induction false} GrantsCounted(gs: seq<Grant>, t: string, p: Principal)
    ensures Held(gs, t, p) == |GrantsOf(gs, t, p)|
  {
    if gs == [] {
      assert GrantsOf(gs, t, p) == {};
    } else {
      var n := |gs| - 1;
      GrantsCounted(gs[..n], t, p);
      var last: set<nat> := if LiveFor(gs[n], t, p) then {n} else {};
      assert GrantsOf(gs, t, p) == GrantsOf(gs[..n], t, p) + last;
    }
  }

  ghost predicate GrantOn(gs: seq<Grant>, k: nat, t: string, p: Principal, res: Resource) {
    k < |gs| && gs[k].live && gs[k].tenant == t && gs[k].principal == p && gs[k].resource == res
  }

  ghost predicate NoGrantOn(gs: seq<Grant>, t: string, p: Principal, res: Resource) {
    forall k: nat :: !GrantOn(gs, k, t, p, res)
  }

  lemma LiveGrantExactly(gs: seq<Grant>, t: string, p: Principal, res: Resource)
    requires Unique(gs)
    ensures forall k: nat :: GrantOn(gs, k, t, p, res) <==> LiveGrant(gs, t, p, res) == Some(k)
  {
    var i := LiveGrant(gs, t, p, res);
    forall k: nat ensures GrantOn(gs, k, t, p, res) <==> i == Some(k) {
      if GrantOn(gs, k, t, p, res) { assert HoldsOn(gs[k], t, p, res) && gs[k] in gs; }
    }
  }

  ghost predicate NewGrantId(gs: seq<Grant>, id: string) { forall i :: 0 <= i < |gs| ==> gs[i].id != id }

  /** Exactly when a grant may be written to the principal. */
  lemma PutAllowedExactly(db: Db, t: string, base: string, p: Principal)
    requires Owned(db)
    ensures PutError(db, t, base, p).None? <==> base != "" && Theirs(db, t, p, base) && MayAct(db, t, p)
    ensures base == "" ==> PutError(db, t, base, p) == Some(NoStack)
    ensures base != "" && (forall o :: !Theirs(db, t, p, o)) ==> PutError(db, t, base, p) == Some(NotFound)
    ensures forall o :: base != "" && Theirs(db, t, p, o) ==>
      (o != base ==> PutError(db, t, base, p) == Some(NotOwner(o)))
      && (o == base && !MayAct(db, t, p) ==> PutError(db, t, base, p) == Some(Disabled))
  {
    forall o ensures OwnerOf(db, t, p) == By(o) <==> Theirs(db, t, p, o) { OwnerExactly(db, t, p, o); }
  }

  /** The grants with the one on the resource, if any, ended and the new one added. */
  ghost predicate Replaces(gs: seq<Grant>, to: seq<Grant>, g: Grant) {
    && |to| == |gs| + 1 && to[|gs|] == g
    && forall i :: 0 <= i < |gs| ==>
      to[i] == if GrantOn(gs, i, g.tenant, g.principal, g.resource) then gs[i].(live := false) else gs[i]
  }

  /** One pass: a grant that says the same is kept, one that differs is replaced
      in one step whatever the count, and a new one needs fewer than 1024. */
  lemma PutOnceExactly(db: Db, t: string, base: string, p: Principal, res: Resource, verbs: seq<string>, id: string,
                       k: nat)
    requires Unique(db.grants)
    ensures
      var r := PutOnce(db, t, base, p, res, verbs, id);
      var gs := db.grants;
      var known := GrantOn(gs, k, t, p, res);
      && (known && gs[k].verbs == verbs ==> r == Done(db))
      && (known && gs[k].verbs != verbs ==> Written(r, db, Grant(id, t, p, res, verbs, base, true)))
      && (NoGrantOn(gs, t, p, res) && |GrantsOf(gs, t, p)| >= 1024 ==> r == Refused(TooMany))
      && (NoGrantOn(gs, t, p, res) && |GrantsOf(gs, t, p)| < 1024 ==>
            Written(r, db, Grant(id, t, p, res, verbs, base, true)))
  {
    LiveGrantExactly(db.grants, t, p, res);
    GrantsCounted(db.grants, t, p);
    FreshByIndex(db.grants, id);
  }

  lemma FreshByIndex(gs: seq<Grant>, id: string)
    ensures NewGrantId(gs, id) <==> FreshGrant(gs, id)
  {
    assert forall i :: 0 <= i < |gs| ==> gs[i] in gs;
  }

  ghost predicate Written(r: Reply, db: Db, g: Grant) {
    if NewGrantId(db.grants, g.id)
    then r.Done? && r.db == db.(grants := r.db.grants) && Replaces(db.grants, r.db.grants, g)
    else r == Refused(Conflict)
  }

  /** The whole put: an id that is taken gives way to the other. */
  lemma PutGrantExactly(db: Db, t: string, base: string, p: Principal, res: Resource, verbs: seq<string>, id: string,
                        id': string, k: nat)
    requires Owned(db) && Unique(db.grants)
    ensures
      var r := PutGrant(db, t, base, p, res, verbs, id, id');
      var gs := db.grants;
      var may := base != "" && Theirs(db, t, p, base) && MayAct(db, t, p);
      var to := if NewGrantId(gs, id) then id else id';
      && (!may ==> r.Refused? && Some(r.error) == PutError(db, t, base, p))
      && (may && GrantOn(gs, k, t, p, res) && gs[k].verbs == verbs ==> r == Done(db))
      && (may && GrantOn(gs, k, t, p, res) && gs[k].verbs != verbs ==>
            Written(r, db, Grant(to, t, p, res, verbs, base, true)))
      && (may && NoGrantOn(gs, t, p, res) ==>
            if |GrantsOf(gs, t, p)| >= 1024 then r == Refused(TooMany)
            else Written(r, db, Grant(to, t, p, res, verbs, base, true)))
  {
    PutAllowedExactly(db, t, base, p);
    PutOnceExactly(db, t, base, p, res, verbs, id, k);
    PutOnceExactly(db, t, base, p, res, verbs, id', k);
  }

  ghost predicate GrantAt(gs: seq<Grant>, k: nat, t: string, id: string) {
    k < |gs| && gs[k].id == id && gs[k].tenant == t
  }

  lemma {:induction false} LocateGrantExactly(gs: seq<Grant>, t: string, id: string)
    requires GrantIdsOnce(gs)
    ensures forall k: nat :: GrantAt(gs, k, t, id) <==> LocateGrant(gs, t, id) == Some(k)
  {
    if gs != [] {
      var n := |gs| - 1;
      LocateGrantExactly(gs[..n], t, id);
      forall k: nat ensures GrantAt(gs, k, t, id) <==> LocateGrant(gs, t, id) == Some(k) {
        assert k != n ==> (GrantAt(gs, k, t, id) <==> GrantAt(gs[..n], k, t, id));
      }
    }
  }

  /** A grant is revoked exactly by its principal's stack. */
  lemma RevokeGrantExactly(db: Db, t: string, base: string, id: string, k: nat)
    requires Owned(db) && GrantIdsOnce(db.grants)
    ensures
      var r := RevokeGrant(db, t, base, id);
      && (GrantAt(db.grants, k, t, id) ==>
            var p := db.grants[k].principal;
            && (r.Done? <==> Mine(db, t, base, p))
            && (r.Refused? ==> Some(r.error) == Refusal(db, t, base, p))
            && (r.Done? ==>
                  && r.db.users == db.users && r.db.rows == db.rows && |r.db.grants| == |db.grants|
                  && r.db.grants[k] == db.grants[k].(live := false)
                  && forall j :: 0 <= j < |db.grants| && j != k ==> r.db.grants[j] == db.grants[j]))
      && ((forall j: nat :: !GrantAt(db.grants, j, t, id)) ==> r == Refused(NotFound))
  {
    LocateGrantExactly(db.grants, t, id);
    if GrantAt(db.grants, k, t, id) { RefusalExactly(db, t, base, db.grants[k].principal); }
  }

  // ----------------------------------------------------------------------- runs

  /** After a credential is revoked its row is dead whatever follows, and its
      short id is never given to another credential of the principal. */
  lemma RevokedForever(steps: seq<Step>, s: Step, more: seq<Step>, k: nat)
    requires s.EndCredential? && RowAt(Run(EMPTY, steps).rows, k, s.tenant, s.id)
    requires Run(EMPTY, steps).rows[k].what.Credential?
    requires Answer(Run(EMPTY, steps), s, BaseStack(s.stack)).Done?
    ensures
      var r, to := Run(EMPTY, steps).rows[k], Run(Next(Run(EMPTY, steps), s), more);
      && k < |to.rows| && to.rows[k] == r.(live := false, verified := to.rows[k].verified)
      && forall j :: 0 <= j < |to.rows| && j != k && Of(to.rows[j], r.tenant, r.principal) ==> to.rows[j].what != r.what
  {
    var db := Run(EMPTY, steps);
    RunGood(steps);
    RevokeCredentialExactly(db, s.tenant, BaseStack(s.stack), s.id, k);
    RowsOnlyEnd(Next(db, s), more);
    var to := Run(Next(db, s), more);
    assert Later(Next(db, s).rows[k], to.rows[k]);
    RunJoin(EMPTY, steps + [s], more);
    assert (steps + [s])[..|steps|] == steps;
    RunGood(steps + [s] + more);
  }

  lemma {:induction false} RunJoin(db: Db, a: seq<Step>, b: seq<Step>)
    ensures Run(db, a + b) == Run(Run(db, a), b)
  {
    if b == [] {
      assert a + b == a;
    } else {
      assert (a + b)[..|a + b| - 1] == a + b[..|b| - 1];
      RunJoin(db, a, b[..|b| - 1]);
    }
  }
}
