/** Every interleaving of mints (read, then transaction), closes and revokes
    (read, then transaction), charges and clock changes, as runs of a state
    machine; and what holds in every state such a run can reach. */
module RunGrantRuns {
  import opened Wrappers
  import opened RunGrants
  import opened RunGrantStore

  /** The tables, the clock, and the operations that have read and not yet
      opened their transaction. */
  datatype World = World(db: Db, now: int, mints: map<nat, Pending>, ends: map<nat, EndRequest>)

  datatype Step =
    | Clock(now: int)
    | BeginMint(pid: nat, q: MintRequest)
    | CommitMint(pid: nat, id: Id)
    | BeginEnd(pid: nat, base: string, r: EndRequest)
    | CommitEnd(pid: nat)
    | Charge(tenant: string, id: Id, n: int, enforce: bool)

  const START := World(Db(map[], map[]), 0, map[], map[])

  ghost function Next(w: World, s: Step): World {
    match s
    case Clock(t) => w.(now := t)
    case BeginMint(pid, q) =>
      var r := PrepareMint(w.db, q, w.now);
      if r.Ok? then w.(mints := w.mints[pid := r.value]) else w
    case CommitMint(pid, id) =>
      if pid in w.mints then w.(db := MintTx(w.db, w.mints[pid], id).0, mints := w.mints - {pid}) else w
    case BeginEnd(pid, base, r) =>
      var ok := PrepareEnd(w.db, base, r);
      if ok.Ok? && ok.value.Some? then w.(ends := w.ends[pid := r]) else w
    case CommitEnd(pid) =>
      if pid in w.ends then w.(db := EndTx(w.db, w.ends[pid], w.now), ends := w.ends - {pid}) else w
    case Charge(tenant, id, n, enforce) =>
      w.(db := ChargeTx(w.db, tenant, id, n, enforce, w.now).0)
  }

  ghost function Run(steps: seq<Step>): World {
    if steps == [] then START else Next(Run(steps[..|steps| - 1]), steps[|steps| - 1])
  }

  // ------------------------------------------------------------- invariants

  /** A mint between its read and its transaction: what it saw of its parent
      still holds, because no statement changes those columns. */
  predicate PendingOk(gs: Table, p: Pending) {
    && p.generation >= 0 && p.budget >= 1
    && (p.parent.None? ==> p.depth == 0)
    && (p.parent.Some? ==>
          && p.parent.value in gs
          && Narrows(NewGrant(p, 0), gs[p.parent.value])
          && p.depth <= MAX_RUN_DEPTH)
  }

  predicate FenceRow(db: Db, id: Id)
    requires id in db.grants
  {
    var g := db.grants[id];
    && KeyOf(g) in db.heads
    && g.generation <= db.heads[KeyOf(g)].generation
    && (g.generation == db.heads[KeyOf(g)].generation <==> id == db.heads[KeyOf(g)].grant)
    && (!Ended(g) ==> id == db.heads[KeyOf(g)].grant)
  }

  predicate FenceHead(db: Db, key: RunKey)
    requires key in db.heads
  {
    var id := db.heads[key].grant;
    id in db.grants && KeyOf(db.grants[id]) == key && db.grants[id].generation == db.heads[key].generation
  }

  /** The head row names the run's newest grant, and only that grant can be
      un-ended. */
  ghost predicate FenceOk(db: Db) {
    && (forall id {:trigger FenceRow(db, id)} :: id in db.grants ==> FenceRow(db, id))
    && (forall key {:trigger FenceHead(db, key)} :: key in db.heads ==> FenceHead(db, key))
  }

  ghost predicate Inv(w: World) {
    && TreeOk(w.db.grants)
    && FenceOk(w.db)
    && forall pid :: pid in w.mints ==> PendingOk(w.db.grants, w.mints[pid])
  }

  // ------------------------------------------------------ what every step keeps

  lemma GrowsTransitive(a: Table, b: Table, c: Table)
    requires Grows(a, b) && Grows(b, c)
    ensures Grows(a, c)
  {
    forall id | id in a
      ensures Frozen(a[id], c[id]) && a[id].spent <= c[id].spent && (Ended(a[id]) ==> Ended(c[id]))
    {
      assert Frozen(a[id], b[id]) && Frozen(b[id], c[id]);
    }
  }

  lemma SupersedeGrows(gs: Table, key: RunKey, m: Mark)
    ensures Grows(gs, Supersede(gs, key, m)) && Supersede(gs, key, m).Keys == gs.Keys
  {
    var open := OpenOf(gs, key);
    var mid := Superseded(gs, open, m);
    SupersededGrows(gs, open, m);
    EndedBelowGrows(mid, key.tenant, open, m);
    GrowsTransitive(gs, mid, Supersede(gs, key, m));
  }

  /** A committed mint: the rows as funded and superseded, plus one. */
  lemma MintShape(db: Db, p: Pending, id: Id) returns (gs: Table)
    requires TreeOk(db.grants) && PendingOk(db.grants, p)
    requires MintTx(db, p, id).1.Ok?
    ensures
      var (db', r) := MintTx(db, p, id);
      && gs == Supersede(Fund(db.grants, p), PendingKey(p), Close(Stamp(p.now), "superseded"))
      && Grows(db.grants, gs) && gs.Keys == db.grants.Keys
      && id !in gs && db'.grants == gs[id := r.value]
      && r.value == NewGrant(p, r.value.generation)
      && NextGeneration(db.heads, PendingKey(p), p.generation) == Some(r.value.generation)
      && db'.heads == db.heads[PendingKey(p) := Head(r.value.generation, id)]
      && (p.parent.Some? ==> CanFund(db.grants, p, p.parent.value))
  {
    gs := Supersede(Fund(db.grants, p), PendingKey(p), Close(Stamp(p.now), "superseded"));
    FundGrows(db.grants, p);
    SupersedeGrows(Fund(db.grants, p), PendingKey(p), Close(Stamp(p.now), "superseded"));
    GrowsTransitive(db.grants, Fund(db.grants, p), gs);
  }

  lemma MintGrows(db: Db, p: Pending, id: Id)
    requires TreeOk(db.grants) && PendingOk(db.grants, p)
    ensures Grows(db.grants, MintTx(db, p, id).0.grants)
  {
    if MintTx(db, p, id).1.Ok? {
      var gs := MintShape(db, p, id);
      InsertGrows(db.grants, gs, id, MintTx(db, p, id).1.value);
    } else {
      assert MintTx(db, p, id).0 == db;
    }
  }

  lemma InsertGrows(gs0: Table, gs: Table, id: Id, g: Grant)
    requires Grows(gs0, gs) && id !in gs
    ensures Grows(gs0, gs[id := g])
  {
  }

  lemma EndRootGrows(gs: Table, r: EndRequest, now: int)
    ensures Grows(gs, EndRoot(gs, r, now)) && EndRoot(gs, r, now).Keys == gs.Keys
  {
  }

  lemma EndGrows(db: Db, r: EndRequest, now: int)
    ensures Grows(db.grants, EndTx(db, r, now).grants) && EndTx(db, r, now).grants.Keys == db.grants.Keys
  {
    var mid := EndRoot(db.grants, r, now);
    EndRootGrows(db.grants, r, now);
    EndedBelowGrows(mid, r.tenant, {r.id}, EndMark(r, now));
    GrowsTransitive(db.grants, mid, EndTx(db, r, now).grants);
  }

  /** No step removes a row, changes a fixed column, lowers what was spent or
      brings an ended grant back. */
  lemma StepGrows(w: World, s: Step)
    requires Inv(w)
    ensures Grows(w.db.grants, Next(w, s).db.grants)
  {
    match s
    case CommitMint(pid, id) =>
      if pid in w.mints { MintGrows(w.db, w.mints[pid], id); }
    case CommitEnd(pid) =>
      if pid in w.ends { EndGrows(w.db, w.ends[pid], w.now); }
    case Charge(tenant, id, n, enforce) => ChargeGrows(w.db, tenant, id, n, enforce, w.now);
    case _ =>
  }

  lemma ChargeGrows(db: Db, tenant: string, id: Id, n: int, enforce: bool, now: int)
    ensures Grows(db.grants, ChargeTx(db, tenant, id, n, enforce, now).0.grants)
  {
  }

  lemma PendingKept(gs: Table, gs': Table, p: Pending)
    requires Grows(gs, gs') && PendingOk(gs, p)
    ensures PendingOk(gs', p)
  {
    if p.parent.Some? { assert Frozen(gs[p.parent.value], gs'[p.parent.value]); }
  }

  /** What the unlocked read establishes about the mint it lets through. */
  lemma PreparedOk(db: Db, q: MintRequest, now: int)
    requires PrepareMint(db, q, now).Ok?
    ensures PendingOk(db.grants, PrepareMint(db, q, now).value)
  {
  }

  lemma MintTree(db: Db, p: Pending, id: Id)
    requires TreeOk(db.grants) && PendingOk(db.grants, p)
    ensures TreeOk(MintTx(db, p, id).0.grants)
  {
    if MintTx(db, p, id).1.Ok? {
      var gs := MintShape(db, p, id);
      SameRowsSameTree(db.grants, gs);
      var gs' := MintTx(db, p, id).0.grants;
      forall x | x in gs' ensures NodeOk(gs', x) {
        if x == id {
          if p.parent.Some? {
            var up := p.parent.value;
            assert NodeOk(db.grants, up) && Frozen(db.grants[up], gs[up]);
          }
        } else {
          assert NodeOk(gs, x);
        }
      }
    }
  }

  lemma MintFence(db: Db, p: Pending, id: Id)
    requires TreeOk(db.grants) && FenceOk(db) && PendingOk(db.grants, p)
    ensures FenceOk(MintTx(db, p, id).0)
  {
    if MintTx(db, p, id).1.Ok? {
      var db' := MintTx(db, p, id).0;
      var gs := MintShape(db, p, id);
      forall x | x in db'.grants ensures FenceRow(db', x) { MintFenceRow(db, p, id, x); }
      forall k | k in db'.heads ensures FenceHead(db', k) { MintFenceHead(db, p, id, k); }
    } else {
      assert MintTx(db, p, id).0 == db;
    }
  }

  lemma MintFenceRow(db: Db, p: Pending, id: Id, x: Id)
    requires TreeOk(db.grants) && FenceOk(db) && PendingOk(db.grants, p)
    requires MintTx(db, p, id).1.Ok? && x in MintTx(db, p, id).0.grants
    ensures FenceRow(MintTx(db, p, id).0, x)
  {
    var gs := MintShape(db, p, id);
    var key := PendingKey(p);
    if x != id {
      assert FenceRow(db, x) && Frozen(db.grants[x], gs[x]);
      if KeyOf(gs[x]) == key { SupersedeEnds(Fund(db.grants, p), key, Close(Stamp(p.now), "superseded"), x); }
    }
  }

  lemma MintFenceHead(db: Db, p: Pending, id: Id, k: RunKey)
    requires TreeOk(db.grants) && FenceOk(db) && PendingOk(db.grants, p)
    requires MintTx(db, p, id).1.Ok? && k in MintTx(db, p, id).0.heads
    ensures FenceHead(MintTx(db, p, id).0, k)
  {
    var gs := MintShape(db, p, id);
    if k != PendingKey(p) {
      assert FenceHead(db, k);
      assert Frozen(db.grants[db.heads[k].grant], gs[db.heads[k].grant]);
    }
  }

  /** Superseding leaves the run with no open grant. */
  lemma SupersedeEnds(gs: Table, key: RunKey, m: Mark, x: Id)
    requires x in gs && KeyOf(gs[x]) == key
    ensures x in Supersede(gs, key, m) && Ended(Supersede(gs, key, m)[x])
  {
    if !Ended(gs[x]) { assert x in OpenOf(gs, key); }
  }

  lemma FenceKept(db: Db, gs: Table)
    requires FenceOk(db) && Grows(db.grants, gs) && gs.Keys == db.grants.Keys
    ensures FenceOk(db.(grants := gs))
  {
    var db' := db.(grants := gs);
    forall x | x in gs ensures FenceRow(db', x) {
      assert FenceRow(db, x) && Frozen(db.grants[x], gs[x]);
    }
    forall k | k in db.heads ensures FenceHead(db', k) {
      assert FenceHead(db, k);
      assert Frozen(db.grants[db.heads[k].grant], gs[db.heads[k].grant]);
    }
  }

  lemma InvStep(w: World, s: Step)
    requires Inv(w)
    ensures Inv(Next(w, s))
  {
    StepGrows(w, s);
    var w' := Next(w, s);
    forall pid | pid in w'.mints ensures PendingOk(w'.db.grants, w'.mints[pid]) {
      if s.BeginMint? && PrepareMint(w.db, s.q, w.now).Ok? && pid == s.pid {
        PreparedOk(w.db, s.q, w.now);
      } else {
        PendingKept(w.db.grants, w'.db.grants, w.mints[pid]);
      }
    }
    if s.CommitMint? && s.pid in w.mints {
      MintTree(w.db, w.mints[s.pid], s.id);
      MintFence(w.db, w.mints[s.pid], s.id);
    } else {
      KeepsRows(w, s);
      SameRowsSameTree(w.db.grants, w'.db.grants);
      FenceKept(w.db, w'.db.grants);
    }
  }

  lemma KeepsRows(w: World, s: Step)
    requires Inv(w) && !(s.CommitMint? && s.pid in w.mints)
    ensures Next(w, s).db.grants.Keys == w.db.grants.Keys && Next(w, s).db.heads == w.db.heads
  {
    if s.CommitEnd? && s.pid in w.ends { EndGrows(w.db, w.ends[s.pid], w.now); }
  }

  lemma {:induction false} RunInv(steps: seq<Step>)
    ensures Inv(Run(steps))
  {
    if steps != [] {
      RunInv(steps[..|steps| - 1]);
      InvStep(Run(steps[..|steps| - 1]), steps[|steps| - 1]);
    }
  }

  lemma {:induction false} RunGrows(steps: seq<Step>, more: seq<Step>)
    ensures Grows(Run(steps).db.grants, Run(steps + more).db.grants)
  {
    if more == [] {
      assert steps + more == steps;
    } else {
      var pre := more[..|more| - 1];
      assert (steps + more)[..|steps + more| - 1] == steps + pre;
      RunGrows(steps, pre);
      RunInv(steps + pre);
      StepGrows(Run(steps + pre), more[|more| - 1]);
      GrowsTransitive(Run(steps).db.grants, Run(steps + pre).db.grants, Run(steps + more).db.grants);
    }
  }
}
