/** The promises of run grants, over every run: authority only narrows, ending
    is complete and final, generations fence, and budgets are conserved. */
module RunGrantTheorems {
  import opened Wrappers
  import opened RunGrants
  import opened RunGrantStore
  import opened RunGrantRuns

  /** Stored seconds and the exact clock agree on who is live. */
  lemma LiveAgrees(g: Grant, now: int)
    ensures LiveRow(g, Stamp(now)) <==> Live(g, now)
  {
  }

  // ----------------------------------------------------------- narrowing

  /** Along the whole chain of ancestors, not just to the parent. */
  lemma {:induction false} ChainNarrows(gs: Table, d: Id, k: nat)
    requires TreeOk(gs) && d in gs && Up(gs, d, k).Some?
    ensures
      var a := Up(gs, d, k).value;
      && a in gs
      && gs[a].tenant == gs[d].tenant && gs[a].mintedBy == gs[d].mintedBy
      && gs[d].depth == gs[a].depth + k && gs[d].depth <= MAX_RUN_DEPTH
      && gs[d].expires <= gs[a].expires
      && AllIn(gs[d].allow, gs[a].allow)
    decreases k
  {
    assert NodeOk(gs, d);
    if k > 0 { ChainNarrows(gs, gs[d].parent.value, k - 1); }
  }

  lemma AuthorityNarrows(steps: seq<Step>, d: Id, a: Id)
    requires
      var gs := Run(steps).db.grants;
      d in gs && IsAncestor(gs, a, d)
    ensures
      var gs := Run(steps).db.grants;
      && a in gs && AllIn(gs[d].allow, gs[a].allow)
      && gs[d].expires <= gs[a].expires
      && gs[a].depth < gs[d].depth <= MAX_RUN_DEPTH
      && gs[d].tenant == gs[a].tenant && gs[d].mintedBy == gs[a].mintedBy
  {
    RunInv(steps);
    var gs := Run(steps).db.grants;
    var k: nat :| k > 0 && Up(gs, d, k) == Some(a);
    ChainNarrows(gs, d, k);
  }

  // ------------------------------------------------- liveness down the tree

  predicate SealedRow(gs: Table, id: Id)
    requires id in gs
  {
    !Ended(gs[id]) && gs[id].parent.Some? ==> gs[id].parent.value in gs && !Ended(gs[gs[id].parent.value])
  }

  /** No un-ended grant hangs under an ended one. */
  ghost predicate Sealed(gs: Table) {
    forall id {:trigger SealedRow(gs, id)} :: id in gs ==> SealedRow(gs, id)
  }

  lemma {:induction false} SealedChain(gs: Table, d: Id, k: nat)
    requires Sealed(gs) && d in gs && !Ended(gs[d]) && Up(gs, d, k).Some?
    ensures Up(gs, d, k).value in gs && !Ended(gs[Up(gs, d, k).value])
    decreases k
  {
    assert SealedRow(gs, d);
    if k > 0 { SealedChain(gs, gs[d].parent.value, k - 1); }
  }

  /** Ancestry depends only on fixed columns. */
  lemma {:induction false} SameUp(gs: Table, gs': Table, d: Id, k: nat)
    requires TreeOk(gs) && Grows(gs, gs') && d in gs
    ensures Up(gs', d, k) == Up(gs, d, k)
    decreases k
  {
    assert NodeOk(gs, d) && Frozen(gs[d], gs'[d]);
    if k > 0 && gs[d].parent.Some? { SameUp(gs, gs', gs[d].parent.value, k - 1); }
  }

  lemma SameBelow(gs: Table, gs': Table, d: Id, roots: set<Id>)
    requires TreeOk(gs) && Grows(gs, gs') && d in gs
    ensures Below(gs', d, roots) <==> Below(gs, d, roots)
  {
    forall k: nat ensures Up(gs', d, k) == Up(gs, d, k) { SameUp(gs, gs', d, k); }
  }

  /** A child of a root, or of something below one, is below it. */
  lemma BelowChild(gs: Table, d: Id, roots: set<Id>)
    requires d in gs && gs[d].parent.Some?
    requires gs[d].parent.value in roots || Below(gs, gs[d].parent.value, roots)
    ensures Below(gs, d, roots)
  {
    var p := gs[d].parent.value;
    if p in roots {
      assert Up(gs, d, 1) == Up(gs, p, 0);
    } else {
      var k: nat :| k > 0 && Up(gs, p, k).Some? && Up(gs, p, k).value in roots;
      assert Up(gs, d, k + 1) == Up(gs, p, k);
    }
  }

  /** Ending `roots` and everything below keeps the tree sealed, and ends
      exactly those. */
  lemma SealedCut(gs: Table, mid: Table, tenant: string, roots: set<Id>, m: Mark)
    requires TreeOk(gs) && Sealed(gs)
    requires Grows(gs, mid) && mid.Keys == gs.Keys
    requires forall x :: x in gs ==> (Ended(mid[x]) <==> Ended(gs[x]) || x in roots)
    requires forall x :: x in gs && x in roots ==> gs[x].tenant == tenant
    ensures
      var out := EndedBelow(mid, tenant, roots, m);
      && Sealed(out)
      && forall x :: x in gs ==> (Ended(out[x]) <==> Ended(gs[x]) || x in roots || Below(gs, x, roots))
  {
    var out := EndedBelow(mid, tenant, roots, m);
    forall x | x in gs
      ensures Ended(out[x]) <==> Ended(gs[x]) || x in roots || Below(gs, x, roots)
    {
      SameBelow(gs, mid, x, roots);
      assert Frozen(gs[x], mid[x]);
      if Below(gs, x, roots) { BelowTenant(gs, x, roots, tenant); }
    }
    EndedBelowGrows(mid, tenant, roots, m);
    forall x | x in out ensures SealedRow(out, x) {
      assert SealedRow(gs, x) && NodeOk(gs, x);
      assert Frozen(gs[x], mid[x]) && Frozen(mid[x], out[x]);
      if gs[x].parent.Some? && (gs[x].parent.value in roots || Below(gs, gs[x].parent.value, roots)) {
        BelowChild(gs, x, roots);
      }
    }
  }

  lemma BelowTenant(gs: Table, x: Id, roots: set<Id>, tenant: string)
    requires TreeOk(gs) && x in gs && Below(gs, x, roots)
    requires forall r :: r in gs && r in roots ==> gs[r].tenant == tenant
    ensures gs[x].tenant == tenant
  {
    var k: nat :| k > 0 && Up(gs, x, k).Some? && Up(gs, x, k).value in roots;
    UpBound(gs, x, k);
  }

  /** The run name of the mint is already that of an ancestor of its parent. */
  ghost predicate ReusesAncestorRun(gs: Table, p: Pending) {
    && p.parent.Some?
    && exists a :: IsAncestor(gs, a, p.parent.value) && a in gs && gs[a].run == p.run
  }

  /** A committed mint keeps the tree sealed exactly when its run name is not
      that of a grant above its parent: otherwise it closes the parent and is
      then inserted, un-ended, under it. */
  lemma MintSealed(db: Db, p: Pending, id: Id)
    requires TreeOk(db.grants) && FenceOk(db) && PendingOk(db.grants, p) && Sealed(db.grants)
    requires MintTx(db, p, id).1.Ok?
    ensures Sealed(MintTx(db, p, id).0.grants) <==> !ReusesAncestorRun(db.grants, p)
  {
    var gs := MintShape(db, p, id);
    SupersedeSealed(db, p);
    if p.parent.Some? { ParentSurvives(db, p); }
    InsertSealed(gs, id, MintTx(db, p, id).1.value);
  }

  lemma InsertSealed(gs: Table, id: Id, g: Grant)
    requires Sealed(gs) && id !in gs && !Ended(g) && g.parent != Some(id)
    ensures Sealed(gs[id := g]) <==> (g.parent.Some? ==> g.parent.value in gs && !Ended(gs[g.parent.value]))
  {
    var gs' := gs[id := g];
    forall x | x in gs ensures SealedRow(gs', x) { assert SealedRow(gs, x); }
    assert Sealed(gs') <==> SealedRow(gs', id);
  }

  ghost function AfterSupersede(db: Db, p: Pending): Table
    requires p.parent.Some? ==> p.parent.value in db.grants
  {
    Supersede(Fund(db.grants, p), PendingKey(p), Close(Stamp(p.now), "superseded"))
  }

  lemma SupersedeSealed(db: Db, p: Pending)
    requires TreeOk(db.grants) && PendingOk(db.grants, p) && Sealed(db.grants)
    ensures
      var gs := db.grants;
      var older := OpenOf(gs, PendingKey(p));
      var out := AfterSupersede(db, p);
      && out.Keys == gs.Keys && Sealed(out)
      && forall x :: x in gs ==> (Ended(out[x]) <==> Ended(gs[x]) || x in older || Below(gs, x, older))
  {
    var gs, key, m := db.grants, PendingKey(p), Close(Stamp(p.now), "superseded");
    var paid := Fund(gs, p);
    FundGrows(gs, p);
    var older := OpenOf(paid, key);
    assert older == OpenOf(gs, key);
    var mid := Superseded(paid, older, m);
    SupersededGrows(paid, older, m);
    GrowsTransitive(gs, paid, mid);
    SealedCut(gs, mid, key.tenant, older, m);
    EndedBelowGrows(mid, key.tenant, older, m);
  }

  /** The parent is closed by the mint exactly when the run is reused above. */
  lemma ParentSurvives(db: Db, p: Pending)
    requires TreeOk(db.grants) && PendingOk(db.grants, p) && Sealed(db.grants)
    requires p.parent.Some? && !Ended(db.grants[p.parent.value])
    ensures
      var older := OpenOf(db.grants, PendingKey(p));
      ReusesAncestorRun(db.grants, p) <==> p.parent.value in older || Below(db.grants, p.parent.value, older)
  {
    var gs, pa := db.grants, p.parent.value;
    var older := OpenOf(gs, PendingKey(p));
    if ReusesAncestorRun(gs, p) {
      var a :| IsAncestor(gs, a, pa) && a in gs && gs[a].run == p.run;
      var k: nat :| k > 0 && Up(gs, pa, k) == Some(a);
      SealedChain(gs, pa, k);
      ChainNarrows(gs, pa, k);
      assert a in older;
    }
    if Below(gs, pa, older) {
      var k: nat :| k > 0 && Up(gs, pa, k).Some? && Up(gs, pa, k).value in older;
      assert IsAncestor(gs, Up(gs, pa, k).value, pa);
    }
  }

  ghost predicate Reuses(w: World, s: Step) {
    && s.CommitMint? && s.pid in w.mints && MintTx(w.db, w.mints[s.pid], s.id).1.Ok?
    && ReusesAncestorRun(w.db.grants, w.mints[s.pid])
  }

  lemma EndSealed(db: Db, r: EndRequest, now: int)
    requires TreeOk(db.grants) && Sealed(db.grants)
    ensures Sealed(EndTx(db, r, now).grants)
    ensures r.id in db.grants && db.grants[r.id].tenant == r.tenant ==>
              forall x :: x in db.grants ==>
                (Ended(EndTx(db, r, now).grants[x]) <==>
                   Ended(db.grants[x]) || x == r.id || IsAncestor(db.grants, r.id, x))
  {
    var gs, m := db.grants, EndMark(r, now);
    var mid := EndRoot(gs, r, now);
    if r.id in gs && gs[r.id].tenant == r.tenant {
      SealedCut(gs, mid, r.tenant, {r.id}, m);
      forall x | x in gs ensures Below(gs, x, {r.id}) <==> IsAncestor(gs, r.id, x) { BelowOne(gs, x, r.id); }
    } else {
      NothingBelow(gs, r, now);
    }
  }

  lemma BelowOne(gs: Table, x: Id, a: Id)
    ensures Below(gs, x, {a}) <==> IsAncestor(gs, a, x)
  {
    if Below(gs, x, {a}) {
      var k: nat :| k > 0 && Up(gs, x, k).Some? && Up(gs, x, k).value in {a};
      assert Up(gs, x, k) == Some(a);
    }
  }

  lemma NothingBelow(gs: Table, r: EndRequest, now: int)
    requires TreeOk(gs) && !(r.id in gs && gs[r.id].tenant == r.tenant)
    ensures EndedBelow(EndRoot(gs, r, now), r.tenant, {r.id}, EndMark(r, now)) == gs
  {
    forall x | x in gs && gs[x].tenant == r.tenant ensures !Below(gs, x, {r.id}) {
      if Below(gs, x, {r.id}) {
        var k: nat :| k > 0 && Up(gs, x, k).Some? && Up(gs, x, k).value in {r.id};
        UpBound(gs, x, k);
      }
    }
  }

  /** Step by step: only a mint that reuses an ancestor's run name unseals. */
  lemma StepSealed(w: World, s: Step)
    requires Inv(w) && Sealed(w.db.grants)
    ensures Sealed(Next(w, s).db.grants) <==> !Reuses(w, s)
  {
    match s
    case CommitMint(pid, id) =>
      if pid in w.mints && MintTx(w.db, w.mints[pid], id).1.Ok? { MintSealed(w.db, w.mints[pid], id); }
    case CommitEnd(pid) =>
      if pid in w.ends { EndSealed(w.db, w.ends[pid], w.now); }
    case Charge(tenant, id, n, enforce) =>
      ChargeSealed(w.db, tenant, id, n, enforce, w.now);
    case _ =>
  }

  lemma ChargeSealed(db: Db, tenant: string, id: Id, n: int, enforce: bool, now: int)
    requires Sealed(db.grants)
    ensures Sealed(ChargeTx(db, tenant, id, n, enforce, now).0.grants)
  {
    var gs' := ChargeTx(db, tenant, id, n, enforce, now).0.grants;
    forall x | x in gs' ensures SealedRow(gs', x) { assert SealedRow(db.grants, x); }
  }

  /** No mint of the run reuses the run name of a grant above its parent. */
  ghost predicate Distinct(steps: seq<Step>) {
    forall i :: 0 <= i < |steps| ==> !Reuses(Run(steps[..i]), steps[i])
  }

  lemma {:induction false} RunSealed(steps: seq<Step>)
    requires Distinct(steps)
    ensures Sealed(Run(steps).db.grants)
  {
    if steps != [] {
      var n := |steps| - 1;
      forall i | 0 <= i < n ensures !Reuses(Run(steps[..n][..i]), steps[..n][i]) {
        assert steps[..n][..i] == steps[..i];
      }
      RunSealed(steps[..n]);
      RunInv(steps[..n]);
      StepSealed(Run(steps[..n]), steps[n]);
    }
  }

  /** Exactly those runs stay sealed all the way. */
  lemma SealedExactly(steps: seq<Step>)
    ensures (forall i :: 0 <= i <= |steps| ==> Sealed(Run(steps[..i]).db.grants)) <==> Distinct(steps)
  {
    if Distinct(steps) {
      forall i | 0 <= i <= |steps| ensures Sealed(Run(steps[..i]).db.grants) {
        assert forall j :: 0 <= j < i ==> steps[..i][..j] == steps[..j];
        RunSealed(steps[..i]);
      }
    }
    if forall i :: 0 <= i <= |steps| ==> Sealed(Run(steps[..i]).db.grants) {
      forall i | 0 <= i < |steps| ensures !Reuses(Run(steps[..i]), steps[i]) {
        var pre := steps[..i];
        RunInv(pre);
        StepSealed(Run(pre), steps[i]);
        assert steps[..i + 1][..i] == pre;
        assert Sealed(Run(steps[..i + 1]).db.grants);
      }
    }
  }

  /** In every such run, a grant live at time t has every ancestor live at t. */
  lemma LiveAncestors(steps: seq<Step>, d: Id, a: Id, t: int)
    requires Distinct(steps)
    requires
      var gs := Run(steps).db.grants;
      d in gs && IsAncestor(gs, a, d) && Live(gs[d], t)
    ensures a in Run(steps).db.grants && Live(Run(steps).db.grants[a], t)
  {
    var gs := Run(steps).db.grants;
    RunInv(steps);
    RunSealed(steps);
    var k: nat :| k > 0 && Up(gs, d, k) == Some(a);
    ChainNarrows(gs, d, k);
    SealedChain(gs, d, k);
  }

  // ------------------------------------------------------ ending is complete

  /** Closing or revoking ends the grant and every grant below it, even below
      one that had ended before, and touches nothing else. */
  lemma EndCascade(db: Db, r: EndRequest, now: int, x: Id)
    requires TreeOk(db.grants) && x in db.grants
    requires r.id in db.grants && db.grants[r.id].tenant == r.tenant
    ensures
      var (gs, out) := (db.grants, EndTx(db, r, now).grants);
      && x in out
      && (x == r.id || IsAncestor(gs, r.id, x) ==> Ended(out[x]))
      && (x != r.id && (Ended(gs[x]) || !IsAncestor(gs, r.id, x)) ==> out[x] == gs[x])
      && (x != r.id && !Ended(gs[x]) && IsAncestor(gs, r.id, x) ==> out[x] == Apply(EndMark(r, now), gs[x]))
  {
    var gs := db.grants;
    var mid := EndRoot(gs, r, now);
    SameBelow(gs, mid, x, {r.id});
    BelowOne(gs, x, r.id);
    if Below(gs, x, {r.id}) { BelowTenant(gs, x, {r.id}, r.tenant); }
  }

  /** A mint ends the run's open grants and every grant below them; other
      rows change only in that the parent pays. */
  lemma MintCascade(db: Db, p: Pending, id: Id, x: Id)
    requires TreeOk(db.grants) && PendingOk(db.grants, p) && x in db.grants
    requires MintTx(db, p, id).1.Ok?
    ensures
      var (gs, out) := (db.grants, MintTx(db, p, id).0.grants);
      var older := OpenOf(gs, PendingKey(p));
      && x in out
      && (x in older || Below(gs, x, older) ==> Ended(out[x]))
      && (Some(x) != p.parent && x !in older && (Ended(gs[x]) || !Below(gs, x, older)) ==> out[x] == gs[x])
  {
    var gs, key, m := db.grants, PendingKey(p), Close(Stamp(p.now), "superseded");
    var out := MintShape(db, p, id);
    var paid := Fund(gs, p);
    FundGrows(gs, p);
    FundTree(gs, p);
    assert OpenOf(paid, key) == OpenOf(gs, key);
    SameBelow(gs, paid, x, OpenOf(gs, key));
    SupersedeCascade(paid, key, m, x);
  }

  lemma SupersedeCascade(gs: Table, key: RunKey, m: Mark, x: Id)
    requires TreeOk(gs) && x in gs
    ensures
      var (older, out) := (OpenOf(gs, key), Supersede(gs, key, m));
      && x in out
      && (x in older || Below(gs, x, older) ==> Ended(out[x]))
      && (x !in older && (Ended(gs[x]) || !Below(gs, x, older)) ==> out[x] == gs[x])
  {
    var older := OpenOf(gs, key);
    var mid := Superseded(gs, older, m);
    SupersededGrows(gs, older, m);
    SameBelow(gs, mid, x, older);
    if Below(gs, x, older) { BelowTenant(gs, x, older, key.tenant); }
  }

  // --------------------------------------------------------- generations

  /** A committed mint is newer than every grant its run ever had. */
  lemma MintIsNewest(db: Db, p: Pending, id: Id, x: Id)
    requires TreeOk(db.grants) && FenceOk(db) && PendingOk(db.grants, p)
    requires MintTx(db, p, id).1.Ok? && x in db.grants && KeyOf(db.grants[x]) == PendingKey(p)
    ensures db.grants[x].generation < MintTx(db, p, id).1.value.generation
    ensures p.generation != 0 ==> MintTx(db, p, id).1.value.generation == p.generation
  {
    assert FenceRow(db, x);
    var gs := MintShape(db, p, id);
  }

  /** The head row makes a duplicate generation impossible: a mint is stale
      only when the run is already at its generation, or its id is taken. */
  lemma StaleMeansStale(db: Db, p: Pending, id: Id)
    requires TreeOk(db.grants) && FenceOk(db) && PendingOk(db.grants, p)
    requires MintTx(db, p, id).1 == Err(StaleGeneration)
    ensures id in db.grants
         || (p.generation != 0 && PendingKey(p) in db.heads && db.heads[PendingKey(p)].generation >= p.generation)
  {
    var gen := NextGeneration(db.heads, PendingKey(p), p.generation);
    if gen.Some? && id !in db.grants {
      var m := Close(Stamp(p.now), "superseded");
      FundGrows(db.grants, p);
      SupersedeGrows(Fund(db.grants, p), PendingKey(p), m);
      var gs := AfterSupersede(db, p);
      GrowsTransitive(db.grants, Fund(db.grants, p), gs);
      forall x | x in gs && KeyOf(gs[x]) == PendingKey(p) ensures gs[x].generation != gen.value {
        assert Frozen(db.grants[x], gs[x]) && FenceRow(db, x);
      }
    }
  }

  /** In every reachable state the head names the run's newest grant, and no
      other grant of the run is un-ended. */
  lemma HeadIsNewest(steps: seq<Step>, x: Id)
    requires x in Run(steps).db.grants
    ensures
      var db := Run(steps).db;
      var key := KeyOf(db.grants[x]);
      && key in db.heads && db.heads[key].grant in db.grants
      && KeyOf(db.grants[db.heads[key].grant]) == key
      && (x != db.heads[key].grant ==>
            Ended(db.grants[x]) && db.grants[x].generation < db.grants[db.heads[key].grant].generation)
  {
    RunInv(steps);
    var db := Run(steps).db;
    assert FenceRow(db, x);
    assert FenceHead(db, KeyOf(db.grants[x]));
  }

  /** A superseded, closed or revoked grant is never live again. */
  lemma EndedForGood(steps: seq<Step>, more: seq<Step>, x: Id, t: int)
    requires x in Run(steps).db.grants && Ended(Run(steps).db.grants[x])
    ensures x in Run(steps + more).db.grants && !Live(Run(steps + more).db.grants[x], t)
  {
    RunGrows(steps, more);
  }
}
