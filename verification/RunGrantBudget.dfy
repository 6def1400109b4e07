/** Budget conservation over the grant tree, for every run. */
module RunGrantBudget {
  import opened Wrappers
  import opened Sums
  import opened RunGrants
  import opened RunGrantStore
  import opened RunGrantRuns
  import opened RunGrantTheorems

  /** What the step charged to the grant itself. */
  function Charged(w: World, s: Step, id: Id): int {
    if s.Charge? && s.id == id && ChargeTx(w.db, s.tenant, s.id, s.n, s.enforce, w.now).1.None? then s.n else 0
  }

  /** Everything the run ever charged to the grant itself. */
  ghost function Own(steps: seq<Step>, id: Id): int {
    if steps == [] then 0
    else Own(steps[..|steps| - 1], id) + Charged(Run(steps[..|steps| - 1]), steps[|steps| - 1], id)
  }

  function Kids(gs: Table, id: Id): set<Id> {
    set c | c in gs && gs[c].parent == Some(id)
  }

  function Budgets(gs: Table): map<Id, int> {
    map c | c in gs :: gs[c].budget
  }

  /** The budgets of all the children ever minted from the grant. */
  ghost function GivenAway(gs: Table, id: Id): int {
    Sum(Kids(gs, id), Budgets(gs))
  }

  lemma SameGivenAway(gs: Table, gs': Table, id: Id)
    requires Grows(gs, gs') && gs'.Keys == gs.Keys
    ensures GivenAway(gs', id) == GivenAway(gs, id)
  {
    forall c | c in gs ensures gs'[c].parent == gs[c].parent && gs'[c].budget == gs[c].budget {
      assert Frozen(gs[c], gs'[c]);
    }
    assert Kids(gs', id) == Kids(gs, id);
    SumAgree(Kids(gs, id), Budgets(gs), Budgets(gs'));
  }

  lemma InsertGivenAway(gs: Table, x: Id, g: Grant, id: Id)
    requires x !in gs
    ensures GivenAway(gs[x := g], id) == GivenAway(gs, id) + if g.parent == Some(id) then g.budget else 0
  {
    var gs' := gs[x := g];
    SumAgree(Kids(gs, id), Budgets(gs), Budgets(gs'));
    if g.parent == Some(id) {
      assert Kids(gs', id) == Kids(gs, id) + {x};
      SumAdd(Kids(gs, id), Budgets(gs'), x);
    } else {
      assert Kids(gs', id) == Kids(gs, id);
    }
  }

  /** The step's effect on `spent` is the charge plus what children took. */
  lemma StepBalance(w: World, s: Step, id: Id)
    requires Inv(w) && id in w.db.grants
    ensures
      var (gs, gs') := (w.db.grants, Next(w, s).db.grants);
      && id in gs'
      && gs'[id].spent - gs[id].spent == Charged(w, s, id) + GivenAway(gs', id) - GivenAway(gs, id)
  {
    var gs, gs' := w.db.grants, Next(w, s).db.grants;
    StepGrows(w, s);
    if s.CommitMint? && s.pid in w.mints {
      MintBalance(w.db, w.mints[s.pid], s.id, id);
    } else {
      KeepsRows(w, s);
      SameGivenAway(gs, gs', id);
      if s.CommitEnd? && s.pid in w.ends {
        EndSpendsNothing(w.db, w.ends[s.pid], w.now, id);
      } else if s.Charge? {
        ChargeSpends(w.db, s.tenant, s.id, s.n, s.enforce, w.now, id);
      }
    }
  }

  lemma ChargeSpends(db: Db, tenant: string, x: Id, n: int, enforce: bool, now: int, id: Id)
    requires id in db.grants
    ensures
      var (db', e) := ChargeTx(db, tenant, x, n, enforce, now);
      id in db'.grants && db'.grants[id].spent == db.grants[id].spent + if x == id && e.None? then n else 0
  {
  }

  lemma EndSpendsNothing(db: Db, r: EndRequest, now: int, id: Id)
    requires id in db.grants
    ensures id in EndTx(db, r, now).grants && EndTx(db, r, now).grants[id].spent == db.grants[id].spent
  {
  }

  lemma SupersedeSpendsNothing(gs: Table, key: RunKey, m: Mark, id: Id)
    requires id in gs
    ensures id in Supersede(gs, key, m) && Supersede(gs, key, m)[id].spent == gs[id].spent
  {
  }

  lemma MintBalance(db: Db, p: Pending, x: Id, id: Id)
    requires TreeOk(db.grants) && PendingOk(db.grants, p) && id in db.grants
    ensures
      var (gs, gs') := (db.grants, MintTx(db, p, x).0.grants);
      id in gs' && gs'[id].spent - gs[id].spent == GivenAway(gs', id) - GivenAway(gs, id)
  {
    if MintTx(db, p, x).1.Ok? {
      var gs := MintShape(db, p, x);
      SupersedeSpendsNothing(Fund(db.grants, p), PendingKey(p), Close(Stamp(p.now), "superseded"), id);
      SameGivenAway(db.grants, gs, id);
      InsertGivenAway(gs, x, MintTx(db, p, x).1.value, id);
    }
  }

  /** A row just inserted has spent nothing, has no children, and was never
      charged before. */
  lemma NewRowBalance(w: World, s: Step, id: Id)
    requires Inv(w) && id !in w.db.grants
    ensures Charged(w, s, id) == 0
    ensures id in Next(w, s).db.grants ==>
              Next(w, s).db.grants[id].spent == 0 && GivenAway(Next(w, s).db.grants, id) == 0
  {
    if id in Next(w, s).db.grants {
      if s.CommitMint? && s.pid in w.mints && MintTx(w.db, w.mints[s.pid], s.id).1.Ok? {
        var gs := MintShape(w.db, w.mints[s.pid], s.id);
        InvStep(w, s);
        var gs' := Next(w, s).db.grants;
        forall c | c in gs' ensures gs'[c].parent != Some(id) {
          assert NodeOk(gs', c);
          if c != s.id { assert NodeOk(w.db.grants, c) && Frozen(w.db.grants[c], gs[c]); }
        }
        assert Kids(gs', id) == {};
      } else if !(s.CommitMint? && s.pid in w.mints) {
        KeepsRows(w, s);
      }
    }
  }

  lemma {:induction false} NeverChargedBefore(steps: seq<Step>, id: Id)
    requires id !in Run(steps).db.grants
    ensures Own(steps, id) == 0
  {
    if steps != [] {
      var pre := steps[..|steps| - 1];
      RunInv(pre);
      StepGrows(Run(pre), steps[|steps| - 1]);
      NeverChargedBefore(pre, id);
      NewRowBalance(Run(pre), steps[|steps| - 1], id);
    }
  }

  /** In every reachable state, what a grant has spent is what was charged to
      it plus the budgets of all the children ever minted from it. */
  lemma {:induction false} SpentIsAccountedFor(steps: seq<Step>, id: Id)
    requires id in Run(steps).db.grants
    ensures Run(steps).db.grants[id].spent == Own(steps, id) + GivenAway(Run(steps).db.grants, id)
  {
    var pre, s := steps[..|steps| - 1], steps[|steps| - 1];
    RunInv(pre);
    if id in Run(pre).db.grants {
      SpentIsAccountedFor(pre, id);
      StepBalance(Run(pre), s, id);
    } else {
      NeverChargedBefore(pre, id);
      NewRowBalance(Run(pre), s, id);
    }
  }

  // --------------------------------------------------- the whole subtree

  predicate Within(gs: Table, id: Id) {
    id in gs ==> gs[id].spent <= gs[id].budget
  }

  /** Nothing but the budget could refuse the charge: it is well formed, and the
      grant is the tenant's and live. */
  predicate Chargeable(db: Db, tenant: string, id: Id, n: int, now: int) {
    tenant != "" && n >= 1 && CanCharge(db.grants, tenant, id, n, false, Stamp(now))
  }

  /** A charge that is not refused, does not enforce the budget and exceeds it. */
  predicate Overruns(w: World, s: Step, id: Id) {
    && s.Charge? && s.id == id && !s.enforce && Chargeable(w.db, s.tenant, s.id, s.n, w.now)
    && w.db.grants[id].spent + s.n > w.db.grants[id].budget
  }

  /** No charge to the grant overran its budget. */
  ghost predicate Guarded(steps: seq<Step>, id: Id) {
    forall i :: 0 <= i < |steps| ==> !Overruns(Run(steps[..i]), steps[i], id)
  }

  /** A grant within its budget stays so exactly when the charge is not one it
      can take, is enforced, or fits. */
  lemma ChargeWithin(db: Db, tenant: string, id: Id, n: int, enforce: bool, now: int)
    requires id in db.grants && Within(db.grants, id)
    ensures
      Within(ChargeTx(db, tenant, id, n, enforce, now).0.grants, id) <==>
        !Chargeable(db, tenant, id, n, now) || enforce || db.grants[id].spent + n <= db.grants[id].budget
  {
  }

  /** Of all steps only a charge that overruns takes a grant over its budget. */
  lemma StepWithinBudget(w: World, s: Step, id: Id)
    requires Inv(w) && Within(w.db.grants, id)
    ensures Within(Next(w, s).db.grants, id) <==> !Overruns(w, s, id)
  {
    InvStep(w, s);
    StepGrows(w, s);
    var gs' := Next(w, s).db.grants;
    if id !in w.db.grants {
      NewRowBalance(w, s, id);
      if id in gs' { assert NodeOk(gs', id); }
    } else {
      assert Frozen(w.db.grants[id], gs'[id]);
      if s.CommitMint? && s.pid in w.mints {
        MintWithinBudget(w.db, w.mints[s.pid], s.id, id);
      } else if s.CommitEnd? && s.pid in w.ends {
        EndSpendsNothing(w.db, w.ends[s.pid], w.now, id);
      } else if s.Charge? && s.id == id {
        ChargeWithin(w.db, s.tenant, s.id, s.n, s.enforce, w.now);
      }
    }
  }

  lemma MintWithinBudget(db: Db, p: Pending, x: Id, id: Id)
    requires TreeOk(db.grants) && PendingOk(db.grants, p) && id in db.grants
    requires db.grants[id].spent <= db.grants[id].budget
    ensures id in MintTx(db, p, x).0.grants && MintTx(db, p, x).0.grants[id].spent <= db.grants[id].budget
  {
    if MintTx(db, p, x).1.Ok? {
      var gs := MintShape(db, p, x);
      SupersedeSpendsNothing(Fund(db.grants, p), PendingKey(p), Close(Stamp(p.now), "superseded"), id);
    }
  }

  /** A grant is within its budget exactly when no charge to it overran. */
  lemma {:induction false} WithinBudget(steps: seq<Step>, id: Id)
    ensures Within(Run(steps).db.grants, id) <==> Guarded(steps, id)
  {
    if steps != [] {
      var n := |steps| - 1;
      var pre, s := steps[..n], steps[n];
      RunInv(pre);
      WithinBudget(pre, id);
      GuardedSplit(steps, id);
      StepGrows(Run(pre), s);
      if Within(Run(pre).db.grants, id) {
        StepWithinBudget(Run(pre), s, id);
      } else {
        assert Frozen(Run(pre).db.grants[id], Next(Run(pre), s).db.grants[id]);
      }
    }
  }

  lemma GuardedSplit(steps: seq<Step>, id: Id)
    requires steps != []
    ensures
      var n := |steps| - 1;
      Guarded(steps, id) <==> Guarded(steps[..n], id) && !Overruns(Run(steps[..n]), steps[n], id)
  {
    var n := |steps| - 1;
    assert forall i :: 0 <= i < n ==> steps[..n][..i] == steps[..i];
    if Guarded(steps[..n], id) && !Overruns(Run(steps[..n]), steps[n], id) {
      forall i | 0 <= i < |steps| ensures !Overruns(Run(steps[..i]), steps[i], id) {
        if i < n { assert !Overruns(Run(steps[..n][..i]), steps[..n][i], id); }
      }
    }
    if Guarded(steps, id) {
      forall i | 0 <= i < n ensures !Overruns(Run(steps[..n][..i]), steps[..n][i], id) {
        assert !Overruns(Run(steps[..i]), steps[i], id);
      }
    }
  }

  /** So a grant whose charges all enforce the budget never exceeds it. */
  lemma EnforcedIsGuarded(steps: seq<Step>, id: Id)
    requires forall i :: 0 <= i < |steps| && steps[i].Charge? && steps[i].id == id ==> steps[i].enforce
    ensures Guarded(steps, id)
  {
  }

  /** The grant and everything ever narrowed from it, directly or not. */
  ghost function Subtree(gs: Table, r: Id): set<Id> {
    set d | d in gs && InSubtree(gs, d, r)
  }

  ghost predicate InSubtree(gs: Table, d: Id, r: Id) {
    exists k: nat :: Up(gs, d, k) == Some(r)
  }

  ghost function Forest(gs: Table, roots: set<Id>): set<Id> {
    set d | d in gs && exists r :: r in roots && InSubtree(gs, d, r)
  }

  /** A subtree is its root and the subtrees of the root's children. */
  lemma SubtreeSplits(gs: Table, r: Id)
    requires TreeOk(gs) && r in gs
    ensures Subtree(gs, r) == {r} + Forest(gs, Kids(gs, r)) && r !in Forest(gs, Kids(gs, r))
  {
    forall d | d in Subtree(gs, r) ensures d == r || d in Forest(gs, Kids(gs, r)) {
      var k: nat :| Up(gs, d, k) == Some(r);
      if k > 0 {
        UpDefined(gs, d, k, k - 1);
        UpBound(gs, d, k - 1);
        var c := Up(gs, d, k - 1).value;
        UpCompose(gs, d, k - 1, 1);
        assert Up(gs, c, 1) == Some(r);
        assert c in Kids(gs, r) && InSubtree(gs, d, c);
      }
    }
    forall d | d in Forest(gs, Kids(gs, r)) ensures d in Subtree(gs, r) && d != r {
      var c :| c in Kids(gs, r) && InSubtree(gs, d, c);
      var k: nat :| Up(gs, d, k) == Some(c);
      UpCompose(gs, d, k, 1);
      assert Up(gs, c, 1) == Some(r);
      assert Up(gs, d, k + 1) == Some(r);
      ChainNarrows(gs, d, k + 1);
    }
    assert Up(gs, r, 0) == Some(r);
  }

  /** Subtrees of two children of one grant share nothing. */
  lemma OneSubtree(gs: Table, r: Id, c: Id, c': Id, d: Id)
    requires TreeOk(gs) && d in gs && c in Kids(gs, r) && c' in Kids(gs, r)
    requires InSubtree(gs, d, c) && InSubtree(gs, d, c')
    ensures c == c'
  {
    var k: nat :| Up(gs, d, k) == Some(c);
    var k': nat :| Up(gs, d, k') == Some(c');
    ChainNarrows(gs, d, k);
    ChainNarrows(gs, d, k');
    assert NodeOk(gs, c) && NodeOk(gs, c');
  }

  /** The accounts of every grant in a subtree balance, within its budget. */
  ghost predicate Books(gs: Table, own: map<Id, int>, r: Id) {
    && own.Keys == gs.Keys
    && forall id {:trigger GivenAway(gs, id)} :: id in Subtree(gs, r) ==>
         own[id] + GivenAway(gs, id) == gs[id].spent <= gs[id].budget
  }

  lemma ChildBooks(gs: Table, own: map<Id, int>, r: Id, c: Id)
    requires TreeOk(gs) && Books(gs, own, r) && r in gs && c in Kids(gs, r)
    ensures Books(gs, own, c)
  {
    SubtreeSplits(gs, r);
    forall d | d in Subtree(gs, c) ensures d in Subtree(gs, r) {
      assert c in Kids(gs, r) && InSubtree(gs, d, c);
      assert d in Forest(gs, Kids(gs, r));
    }
  }

  lemma {:induction false} SubtreeBound(gs: Table, own: map<Id, int>, r: Id)
    requires TreeOk(gs) && r in gs && Books(gs, own, r)
    ensures Sum(Subtree(gs, r), own) <= gs[r].budget
    decreases MAX_RUN_DEPTH - gs[r].depth, 1
  {
    assert NodeOk(gs, r);
    SubtreeSplits(gs, r);
    SumAdd(Forest(gs, Kids(gs, r)), own, r);
    assert Forest(gs, Kids(gs, r)) + {r} == Subtree(gs, r);
    ForestBound(gs, own, r, Kids(gs, r));
    assert own[r] + GivenAway(gs, r) == gs[r].spent;
  }

  lemma {:induction false} ForestBound(gs: Table, own: map<Id, int>, r: Id, kids: set<Id>)
    requires TreeOk(gs) && r in gs && Books(gs, own, r) && kids <= Kids(gs, r)
    ensures Sum(Forest(gs, kids), own) <= Sum(kids, Budgets(gs))
    decreases MAX_RUN_DEPTH - gs[r].depth, 0, kids
  {
    if kids == {} {
      assert Forest(gs, kids) == {};
    } else {
      var c :| c in kids;
      assert NodeOk(gs, c) && NodeOk(gs, r);
      SumRemove(kids, Budgets(gs), c);
      ForestBound(gs, own, r, kids - {c});
      ChildBooks(gs, own, r, c);
      SubtreeBound(gs, own, c);
      forall d | d in Subtree(gs, c) ensures d !in Forest(gs, kids - {c}) {
        forall c' | c' in kids && InSubtree(gs, d, c') ensures c' == c { OneSubtree(gs, r, c, c', d); }
      }
      assert Forest(gs, kids) == Subtree(gs, c) + Forest(gs, kids - {c});
      SumUnion(Subtree(gs, c), Forest(gs, kids - {c}), own);
    }
  }

  ghost function OwnCharges(steps: seq<Step>): map<Id, int> {
    map id | id in Run(steps).db.grants :: Own(steps, id)
  }

  /** When no charge in a grant's subtree overran, all the charges a run ever
      made anywhere in it fit in that grant's budget. */
  lemma SubtreeWithinBudget(steps: seq<Step>, r: Id)
    requires r in Run(steps).db.grants
    requires forall d :: d in Subtree(Run(steps).db.grants, r) ==> Guarded(steps, d)
    ensures Sum(Subtree(Run(steps).db.grants, r), OwnCharges(steps)) <= Run(steps).db.grants[r].budget
  {
    var gs := Run(steps).db.grants;
    RunInv(steps);
    forall id | id in Subtree(gs, r) ensures Own(steps, id) + GivenAway(gs, id) == gs[id].spent <= gs[id].budget {
      SpentIsAccountedFor(steps, id);
      WithinBudget(steps, id);
    }
    SubtreeBound(gs, OwnCharges(steps), r);
  }
}
