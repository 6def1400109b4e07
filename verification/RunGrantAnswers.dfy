/** When each run-grant operation is let through, what it then writes, and why
    it is refused otherwise, said of the rows as they stand before the call. */
module RunGrantAnswers {
  import opened Wrappers
  import opened RunGrants
  import opened RunGrantStore
  import opened RunGrantRuns
  import opened RunGrantTheorems

  // ------------------------------------------------------- the unlocked checks

  predicate Letter(c: char) { 'A' <= c <= 'Z' || 'a' <= c <= 'z' || '0' <= c <= '9' || c == '_' }

  /** A letter, digit or underscore, then up to 127 more of those or of the marks
      a run name may hold. */
  predicate RunName(s: string) {
    && s != "" && Letter(s[0]) && |s[1..]| <= 127
    && forall c :: c in s[1..] ==> Letter(c) || c in {'.', '@', '+', ':', '/', '-'}
  }

  lemma RunNameIsValid(s: string)
    ensures RunName(s) <==> ValidRun(s)
  {
    if RunName(s) {
      forall i | 0 <= i < |s| ensures WordChar(s[i]) || s[i] in ".@+:/-" {
        if i > 0 { assert s[1..][i - 1] == s[i]; assert s[i] in s[1..]; }
      }
    }
    if ValidRun(s) {
      forall c | c in s[1..] ensures Letter(c) || c in {'.', '@', '+', ':', '/', '-'} {
        var i :| 0 <= i < |s[1..]| && s[1..][i] == c;
        assert s[i + 1] == c;
      }
    }
  }

  predicate WellFormed(q: MintRequest) {
    && q.tenant != "" && RunName(q.run) && q.generation >= 0 && q.stack != ""
    && 1 <= q.budget <= 1_000_000 && 1_000_000_000 <= q.ttl <= 86_400_000_000_000 && 1 <= |q.allow| <= 64
  }

  predicate Running(g: Grant, now: int) {
    g.revoked.None? && g.closed.None? && now < g.expires * 1_000_000_000
  }

  /** The grant may be narrowed into what is asked for. */
  predicate Narrowable(g: Grant, q: MintRequest, base: string, now: int) {
    && g.tenant == q.tenant && g.mintedBy == base && Running(g, now) && g.depth < 4 && g.run != q.run
    && forall r :: r in q.allow ==> r in g.allow
  }

  /** A mint passes its unlocked checks exactly when it is well formed, its stack
      owns an active principal that holds a standing grant to every resource
      asked for, and its parent, if it names one, may be narrowed into it. */
  lemma MintAllowedExactly(db: Db, q: MintRequest, now: int)
    ensures PrepareMint(db, q, now).Ok? <==>
      && WellFormed(q) && q.owner.Ok? && q.active
      && (forall r :: r in q.allow ==> r in q.held)
      && (q.parent.Some? ==>
            q.parent.value in db.grants && Narrowable(db.grants[q.parent.value], q, q.owner.value, now))
  {
    RunNameIsValid(q.run);
  }

  function Earlier(a: int, b: int): int { if a <= b then a else b }

  /** What such a mint goes on with: the request's own columns, one level below
      its parent, until its time to live is over or the parent's expiry. */
  lemma MintPrepared(db: Db, q: MintRequest, now: int)
    requires PrepareMint(db, q, now).Ok?
    ensures
      var p := PrepareMint(db, q, now).value;
      && p.tenant == q.tenant && p.principal == q.principal && p.mintedBy == q.owner.value && p.stack == q.stack
      && p.run == q.run && p.generation == q.generation && p.allow == q.allow && p.budget == q.budget
      && p.parent == q.parent && p.now == now
      && (q.parent.None? ==> p.depth == 0 && p.expires == now + q.ttl)
      && (q.parent.Some? ==>
            && q.parent.value in db.grants && p.depth == db.grants[q.parent.value].depth + 1
            && p.expires == Earlier(now + q.ttl, db.grants[q.parent.value].expires * 1_000_000_000))
  {
  }

  /** The first check that fails gives the answer. */
  lemma MintRefusedBecause(db: Db, q: MintRequest, now: int)
    requires PrepareMint(db, q, now).Err?
    ensures
      var e := PrepareMint(db, q, now).error;
      if !WellFormed(q) then
        e == if q.tenant != "" && RunName(q.run) && q.generation >= 0 && q.stack == "" then NoStack else Invalid
      else if q.owner.Err? then e == q.owner.error
      else if !q.active then e == Disabled
      else if exists r :: r in q.allow && r !in q.held then e == ExceedsStanding
      else
        && q.parent.Some?
        && var (gs, pa) := (db.grants, q.parent.value);
        if pa !in gs || gs[pa].tenant != q.tenant then e == ParentNotLive
        else if gs[pa].mintedBy != q.owner.value then e == NotOwner
        else if !Running(gs[pa], now) then e == ParentNotLive
        else if gs[pa].depth >= 4 then e == Depth
        else if gs[pa].run == q.run then e == Invalid
        else e == ExceedsParent(0) && exists r :: r in q.allow && r !in gs[pa].allow
  {
    RunNameIsValid(q.run);
  }

  // ----------------------------------------------------------- the transaction

  predicate Current(db: Db, p: Pending) {
    var key := RunKey(p.tenant, p.mintedBy, p.run);
    p.generation == 0 || key !in db.heads || db.heads[key].generation < p.generation
  }

  /** The parent, as the transaction finds it, can pay. */
  predicate Pays(db: Db, p: Pending) {
    p.parent.Some? ==>
      && p.parent.value in db.grants
      && var g := db.grants[p.parent.value];
      && g.tenant == p.tenant && Running(g, p.now) && g.spent + p.budget <= g.budget
  }

  lemma RunningIsLive(g: Grant, now: int)
    ensures Running(g, now) <==> Live(g, now)
    ensures Running(g, now) <==> LiveRow(g, Stamp(now))
  {
    LiveAgrees(g, now);
  }

  lemma PaysIsCanFund(db: Db, p: Pending)
    ensures Pays(db, p) <==> p.parent.None? || CanFund(db.grants, p, p.parent.value)
  {
    if p.parent.Some? && p.parent.value in db.grants { RunningIsLive(db.grants[p.parent.value], p.now); }
  }

  /** A mint commits exactly when its generation is current, its parent can pay
      and its id is new. */
  lemma MintCommitsExactly(db: Db, p: Pending, id: Id)
    requires TreeOk(db.grants) && FenceOk(db) && PendingOk(db.grants, p)
    ensures MintTx(db, p, id).1.Ok? <==> Current(db, p) && Pays(db, p) && id !in db.grants
  {
    PaysIsCanFund(db, p);
    if MintTx(db, p, id).1.Ok? {
      var gs := MintShape(db, p, id);
    } else if MintTx(db, p, id).1 == Err(StaleGeneration) {
      StaleMeansStale(db, p, id);
    }
  }

  lemma MintRefusedInTx(db: Db, p: Pending, id: Id)
    requires TreeOk(db.grants) && FenceOk(db) && PendingOk(db.grants, p) && MintTx(db, p, id).1.Err?
    ensures MintTx(db, p, id).0 == db
    ensures
      var e := MintTx(db, p, id).1.error;
      if !Current(db, p) then e == StaleGeneration
      else if !Pays(db, p) then
        var g := db.grants[p.parent.value];
        e == if Running(g, p.now) then ExceedsParent(if g.spent >= g.budget then 0 else g.budget - g.spent)
             else ParentNotLive
      else e == StaleGeneration && id in db.grants
  {
    PaysIsCanFund(db, p);
    MintCommitsExactly(db, p, id);
    if p.parent.Some? { RunningIsLive(db.grants[p.parent.value], p.now); }
  }

  /** The row a mint inserts, and the head it moves. */
  lemma MintWrites(db: Db, p: Pending, id: Id)
    requires TreeOk(db.grants) && PendingOk(db.grants, p) && MintTx(db, p, id).1.Ok?
    ensures
      var (db', r) := MintTx(db, p, id);
      var (g, key) := (r.value, RunKey(p.tenant, p.mintedBy, p.run));
      && id in db'.grants && db'.grants[id] == g
      && g.tenant == p.tenant && g.principal == p.principal && g.mintedBy == p.mintedBy && g.stack == p.stack
      && g.run == p.run && g.allow == p.allow && g.budget == p.budget && g.spent == 0
      && g.parent == p.parent && g.depth == p.depth
      && g.issued == p.now / 1_000_000_000 && g.expires == p.expires / 1_000_000_000
      && g.closed.None? && g.revoked.None?
      && g.generation == (if p.generation != 0 then p.generation
                          else if key in db.heads then db.heads[key].generation + 1 else 1)
      && db'.heads == db.heads[key := Head(g.generation, id)]
  {
    var gs := MintShape(db, p, id);
  }

  predicate Supplanted(gs: Table, p: Pending, x: Id)
    requires x in gs
  {
    gs[x].tenant == p.tenant && gs[x].mintedBy == p.mintedBy && gs[x].run == p.run
    && gs[x].revoked.None? && gs[x].closed.None?
  }

  ghost predicate UnderSupplanted(gs: Table, p: Pending, x: Id) {
    exists a :: a in gs && Supplanted(gs, p, a) && IsAncestor(gs, a, x)
  }

  /** Every other row: the parent pays; the run's un-ended grants and the un-ended
      ones below them are closed as superseded at that instant. */
  lemma MintRows(db: Db, p: Pending, id: Id, x: Id)
    requires TreeOk(db.grants) && PendingOk(db.grants, p) && x in db.grants && MintTx(db, p, id).1.Ok?
    ensures
      var (gs, out) := (db.grants, MintTx(db, p, id).0.grants);
      var paid := gs[x].(spent := gs[x].spent + if p.parent == Some(x) then p.budget else 0);
      && x in out
      && out[x] == if gs[x].revoked.None? && gs[x].closed.None? && (Supplanted(gs, p, x) || UnderSupplanted(gs, p, x))
                   then paid.(closed := Some(p.now / 1_000_000_000), closeReason := "superseded") else paid
  {
    var shape := MintShape(db, p, id);
    FundedRows(db.grants, p, x);
    BelowIsUnder(db.grants, p, x);
  }

  lemma FundedRows(gs: Table, p: Pending, x: Id)
    requires TreeOk(gs) && x in gs && p.budget >= 1 && (p.parent.Some? ==> p.parent.value in gs)
    ensures
      var (key, m) := (PendingKey(p), Close(Stamp(p.now), "superseded"));
      var (paid, out) := (Fund(gs, p), Supersede(Fund(gs, p), key, m));
      && x in out && x in paid
      && out[x] == if !Ended(gs[x]) && (x in OpenOf(gs, key) || Below(gs, x, OpenOf(gs, key)))
                   then Apply(m, paid[x]) else paid[x]
  {
    var key, paid := PendingKey(p), Fund(gs, p);
    FundGrows(gs, p);
    FundTree(gs, p);
    assert OpenOf(paid, key) == OpenOf(gs, key);
    SameBelow(gs, paid, x, OpenOf(gs, key));
    SupersedeMarks(paid, key, Close(Stamp(p.now), "superseded"), x);
  }

  lemma BelowIsUnder(gs: Table, p: Pending, x: Id)
    ensures Below(gs, x, OpenOf(gs, PendingKey(p))) <==> UnderSupplanted(gs, p, x)
  {
    var older := OpenOf(gs, PendingKey(p));
    if Below(gs, x, older) {
      var k: nat :| k > 0 && Up(gs, x, k).Some? && Up(gs, x, k).value in older;
      assert IsAncestor(gs, Up(gs, x, k).value, x) && Supplanted(gs, p, Up(gs, x, k).value);
    }
    if UnderSupplanted(gs, p, x) {
      var a :| a in gs && Supplanted(gs, p, a) && IsAncestor(gs, a, x);
      var k: nat :| k > 0 && Up(gs, x, k) == Some(a);
      assert a in older;
    }
  }

  lemma SupersedeMarks(gs: Table, key: RunKey, m: Mark, x: Id)
    requires TreeOk(gs) && x in gs
    ensures
      var (older, out) := (OpenOf(gs, key), Supersede(gs, key, m));
      x in out && out[x] == if !Ended(gs[x]) && (x in older || Below(gs, x, older)) then Apply(m, gs[x]) else gs[x]
  {
    var older := OpenOf(gs, key);
    var mid := Superseded(gs, older, m);
    SupersededGrows(gs, older, m);
    SameBelow(gs, mid, x, older);
    if Below(gs, x, older) { BelowTenant(gs, x, older, key.tenant); }
  }

  // ------------------------------------------------------------------- charges

  /** A charge is applied exactly when it is for at least one call, to a grant of
      the tenant that is running, and fits the budget if that is enforced. */
  lemma ChargedExactly(db: Db, tenant: string, id: Id, n: int, enforce: bool, now: int)
    ensures ChargeTx(db, tenant, id, n, enforce, now).1.None? <==>
      && tenant != "" && n >= 1 && id in db.grants && db.grants[id].tenant == tenant
      && Running(db.grants[id], now)
      && (enforce ==> db.grants[id].spent + n <= db.grants[id].budget)
  {
    if id in db.grants { RunningIsLive(db.grants[id], now); }
  }

  /** It adds to that grant's spent calls and to nothing else; refused, it
      changes nothing and says why. */
  lemma ChargeWrites(db: Db, tenant: string, id: Id, n: int, enforce: bool, now: int)
    ensures
      var (db', e) := ChargeTx(db, tenant, id, n, enforce, now);
      && db'.heads == db.heads && db'.grants.Keys == db.grants.Keys
      && (forall x :: x in db.grants ==>
            db'.grants[x] == db.grants[x].(spent := db.grants[x].spent + if x == id && e.None? then n else 0))
      && (e.Some? ==>
            e.value ==
              if tenant == "" || n < 1 then Invalid
              else if id !in db.grants || db.grants[id].tenant != tenant then NotFound
              else if !Running(db.grants[id], now) then RunNotLive else RunBudget)
  {
    if id in db.grants {
      RunningIsLive(db.grants[id], now);
      FlooredClock(db.grants[id], now);
    }
  }

  /** Asking at the whole second comes to the same. */
  lemma FlooredClock(g: Grant, now: int)
    ensures Live(g, Stamp(now) * NANOS) <==> Live(g, now)
  {
  }

  // ------------------------------------------------------------ close and revoke

  /** Which calls may end a grant: those for the stack that minted it, and only
      while there is something to end. */
  lemma EndAllowedExactly(db: Db, base: string, r: EndRequest)
    ensures PrepareEnd(db, base, r) == Ok(Some(r)) <==>
      && r.tenant != "" && base != "" && r.id in db.grants
      && db.grants[r.id].tenant == r.tenant && db.grants[r.id].mintedBy == base
      && db.grants[r.id].revoked.None? && (r.closing ==> db.grants[r.id].closed.None?)
  {
  }

  lemma EndRefusedBecause(db: Db, base: string, r: EndRequest)
    ensures
      var a := PrepareEnd(db, base, r);
      if r.tenant == "" then a == Err(Invalid)
      else if r.id !in db.grants || db.grants[r.id].tenant != r.tenant then a == Err(NotFound)
      else if base == "" then a == Err(NoStack)
      else if db.grants[r.id].mintedBy != base then a == Err(NotOwner)
      else a.Ok? && (a.value.None? || a.value == Some(r))
  {
  }

  /** Which columns a close or a revoke writes, and in which rows: the grant's
      own unless it is past that, and those of every un-ended grant below it. */
  lemma EndWrites(db: Db, r: EndRequest, now: int, x: Id)
    requires TreeOk(db.grants) && x in db.grants && r.id in db.grants && db.grants[r.id].tenant == r.tenant
    ensures
      var (gs, db') := (db.grants, EndTx(db, r, now));
      var written :=
        if r.closing then gs[x].(closed := Some(now / 1_000_000_000), closeReason := r.reason)
        else gs[x].(revoked := Some(now / 1_000_000_000));
      && db'.heads == db.heads && x in db'.grants
      && db'.grants[x] ==
           if x == r.id then (if gs[x].revoked.None? && (r.closing ==> gs[x].closed.None?) then written else gs[x])
           else if gs[x].revoked.None? && gs[x].closed.None? && IsAncestor(gs, r.id, x) then written
           else gs[x]
  {
    EndCascade(db, r, now, x);
    if x == r.id { NotBelowItself(db.grants, r, now); }
  }

  lemma NotBelowItself(gs: Table, r: EndRequest, now: int)
    requires TreeOk(gs) && r.id in gs
    ensures !Below(EndRoot(gs, r, now), r.id, {r.id})
  {
    var mid := EndRoot(gs, r, now);
    EndRootTree(gs, r, now);
    forall k: nat | k > 0 && Up(mid, r.id, k).Some? ensures Up(mid, r.id, k).value != r.id {
      ChainNarrows(mid, r.id, k);
    }
  }
}
