/** The store over the two run-grant tables, statement by statement. Each
    method is proved to do what the matching function of `RunGrants` says. */
module RunGrantStore {
  import opened Wrappers
  import opened RunGrants

  /** What no statement ever changes once a row is written. */
  predicate Frozen(g: Grant, g': Grant) {
    g' == g.(spent := g'.spent, closed := g'.closed, closeReason := g'.closeReason, revoked := g'.revoked)
  }

  /** Rows stay, keep their fixed columns, and stay ended once ended. */
  ghost predicate Grows(gs: Table, gs': Table) {
    && gs.Keys <= gs'.Keys
    && forall id :: id in gs ==>
         Frozen(gs[id], gs'[id]) && gs[id].spent <= gs'[id].spent && (Ended(gs[id]) ==> Ended(gs'[id]))
  }

  lemma SameRowsSameTree(gs: Table, gs': Table)
    requires TreeOk(gs) && Grows(gs, gs') && gs.Keys == gs'.Keys
    ensures TreeOk(gs')
  {
    forall id | id in gs' ensures NodeOk(gs', id) { assert NodeOk(gs, id); }
  }

  lemma FundGrows(gs: Table, p: Pending)
    requires p.parent.Some? ==> p.parent.value in gs
    requires p.budget >= 1
    ensures Grows(gs, Fund(gs, p)) && Fund(gs, p).Keys == gs.Keys
  {
  }

  lemma FundTree(gs: Table, p: Pending)
    requires TreeOk(gs) && p.budget >= 1 && (p.parent.Some? ==> p.parent.value in gs)
    ensures TreeOk(Fund(gs, p))
  {
    FundGrows(gs, p);
    SameRowsSameTree(gs, Fund(gs, p));
  }

  lemma SupersededTree(gs: Table, older: set<Id>, m: Mark)
    requires TreeOk(gs)
    ensures TreeOk(Superseded(gs, older, m))
  {
    SupersededGrows(gs, older, m);
    SameRowsSameTree(gs, Superseded(gs, older, m));
  }

  lemma EndRootTree(gs: Table, r: EndRequest, now: int)
    requires TreeOk(gs)
    ensures TreeOk(EndRoot(gs, r, now))
  {
    SameRowsSameTree(gs, EndRoot(gs, r, now));
  }

  lemma SupersededGrows(gs: Table, older: set<Id>, m: Mark)
    ensures Grows(gs, Superseded(gs, older, m)) && Superseded(gs, older, m).Keys == gs.Keys
  {
  }

  lemma EndedBelowGrows(gs: Table, tenant: string, roots: set<Id>, m: Mark)
    ensures Grows(gs, EndedBelow(gs, tenant, roots, m)) && EndedBelow(gs, tenant, roots, m).Keys == gs.Keys
  {
  }

  class Store {
    var grants: Table
    var heads: map<RunKey, Head>

    ghost function Tables(): Db
      reads this
    {
      Db(grants, heads)
    }

    constructor ()
      ensures Tables() == Db(map[], map[])
    {
      grants, heads := map[], map[];
    }

    /** The unlocked half of MintRunGrant. */
    method Prepare(q: MintRequest, now: int) returns (r: Result<Pending, Error>)
      ensures r == PrepareMint(Tables(), q, now)
    {
      if Shape(q).Some? { return Err(Shape(q).value); }
      if q.owner.Err? { return Err(q.owner.error); }
      if !q.active { return Err(Disabled); }
      for i := 0 to |q.allow|
        invariant forall j :: 0 <= j < i ==> q.allow[j] in q.held
      {
        if q.allow[i] !in q.held { return Err(ExceedsStanding); }
      }
      var expires := now + q.ttl;
      var parent := None;
      var depth := 0;
      if q.parent.Some? {
        var pa := q.parent.value;
        if pa !in grants || grants[pa].tenant != q.tenant { return Err(ParentNotLive); }
        var p := grants[pa];
        if p.mintedBy != q.owner.value { return Err(NotOwner); }
        if !Live(p, now) { return Err(ParentNotLive); }
        if p.depth + 1 > MAX_RUN_DEPTH { return Err(Depth); }
        if p.run == q.run { return Err(Invalid); }
        for i := 0 to |q.allow|
          invariant forall j :: 0 <= j < i ==> q.allow[j] in p.allow
        {
          if q.allow[i] !in p.allow { return Err(ExceedsParent(0)); }
        }
        if p.expires * NANOS < expires { expires := p.expires * NANOS; }
        parent, depth := Some(pa), p.depth + 1;
      }
      return Ok(Pending(q.tenant, q.principal, q.owner.value, q.stack, q.run, q.generation, q.allow,
                        q.budget, parent, depth, now, expires));
    }

    /** Close the run's open grants and every grant narrowed from them. */
    static method CloseOlder(gs: Table, key: RunKey, m: Mark) returns (closed: Table)
      requires TreeOk(gs)
      ensures closed == Supersede(gs, key, m)
    {
      var open := OpenOf(gs, key);
      var older := AppendIds([], open);
      closed := Superseded(gs, open, m);
      SupersededTree(gs, open, m);
      closed := EndDescendants(closed, key.tenant, older, m);
    }

    /** The transaction of a mint: head row first, then the parent's budget,
        then the run's older grants, then the new row. */
    method Insert(p: Pending, id: Id) returns (r: Result<Grant, Error>)
      requires TreeOk(grants) && p.budget >= 1
      modifies this
      ensures (Tables(), r) == MintTx(old(Tables()), p, id)
    {
      var key := PendingKey(p);
      var gs := grants;
      var generation := p.generation;
      if generation == 0 {
        generation := if key in heads then heads[key].generation + 1 else 1;
      } else if key in heads && !(heads[key].generation < generation) {
        return Err(StaleGeneration);
      }

      if p.parent.Some? {
        var pa := p.parent.value;
        if !CanFund(gs, p, pa) { return Err(RefusedParent(gs, p, pa)); }
        gs := gs[pa := gs[pa].(spent := gs[pa].spent + p.budget)];
      }
      FundTree(grants, p);
      gs := CloseOlder(gs, key, Close(Stamp(p.now), "superseded"));
      assert MintTx(Tables(), p, id) == InsertRow(Tables(), gs, p, id, generation);

      var g := NewGrant(p, generation);
      if Collides(gs, id, g) { return Err(StaleGeneration); }
      grants, heads := gs[id := g], heads[key := Head(generation, id)];
      return Ok(g);
    }

    /** One conditional UPDATE; the read after it only explains a refusal. */
    method Charge(tenant: string, id: Id, n: int, enforce: bool, now: int) returns (e: Option<Error>)
      modifies this`grants
      ensures (Tables(), e) == ChargeTx(old(Tables()), tenant, id, n, enforce, now)
    {
      if tenant == "" || n < 1 { return Some(Invalid); }
      var stamp := Stamp(now);
      if id in grants && grants[id].tenant == tenant && LiveRow(grants[id], stamp)
         && (!enforce || grants[id].spent + n <= grants[id].budget) {
        grants := grants[id := grants[id].(spent := grants[id].spent + n)];
        return None;
      }
      if id !in grants || grants[id].tenant != tenant { return Some(NotFound); }
      if !Live(grants[id], stamp * NANOS) { return Some(RunNotLive); }
      return Some(RunBudget);
    }

    /** The transaction of a close or a revoke; `did` is whether this call
        ended the grant named. */
    method End(r: EndRequest, now: int) returns (did: bool)
      requires TreeOk(grants)
      modifies this`grants
      ensures Tables() == EndTx(old(Tables()), r, now)
      ensures did <==> r.id in old(grants) && Endable(old(grants)[r.id], r)
    {
      var m := EndMark(r, now);
      var gs := grants;
      did := r.id in gs && Endable(gs[r.id], r);
      if did { gs := gs[r.id := Apply(m, gs[r.id])]; }
      EndRootTree(grants, r, now);
      assert Elements([r.id]) == {r.id};
      grants := EndDescendants(gs, r.tenant, [r.id], m);
    }
  }
}
