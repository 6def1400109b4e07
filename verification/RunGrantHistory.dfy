/** Where every row of a run comes from: the request that asked for it, checked
    against the rows as they stood, and the end that was asked for by the stack
    that minted it. And where it stops: an ended grant is charged no more. */
module RunGrantHistory {
  import opened Wrappers
  import opened RunGrants
  import opened RunGrantStore
  import opened RunGrantRuns
  import opened RunGrantTheorems
  import opened RunGrantBudget
  import opened RunGrantAnswers

  /** Step i asked for the mint and passed its checks, giving p. */
  ghost predicate Asked(steps: seq<Step>, i: int, pid: nat, p: Pending) {
    && 0 <= i < |steps| && steps[i].BeginMint? && steps[i].pid == pid
    && PrepareMint(Run(steps[..i]).db, steps[i].q, Run(steps[..i]).now) == Ok(p)
  }

  lemma AskedEarlier(steps: seq<Step>, n: nat, i: int, pid: nat, p: Pending)
    requires n <= |steps| && Asked(steps[..n], i, pid, p)
    ensures Asked(steps, i, pid, p)
  {
    assert steps[..n][..i] == steps[..i];
  }

  /** A mint under way was asked for. */
  lemma {:induction false} PendingWasAsked(steps: seq<Step>, pid: nat) returns (i: int)
    requires pid in Run(steps).mints
    ensures Asked(steps, i, pid, Run(steps).mints[pid])
  {
    var n := |steps| - 1;
    var pre, s := steps[..n], steps[n];
    if s.BeginMint? && s.pid == pid && PrepareMint(Run(pre).db, s.q, Run(pre).now).Ok? {
      i := n;
    } else {
      i := PendingWasAsked(pre, pid);
      AskedEarlier(steps, n, i, pid, Run(pre).mints[pid]);
    }
  }

  /** Step i asked for the grant and step j committed it. */
  ghost predicate Minted(steps: seq<Step>, i: int, j: int, id: Id, g: Grant) {
    && 0 <= i < j < |steps| && steps[i].BeginMint? && steps[j] == CommitMint(steps[i].pid, id)
    && var r := PrepareMint(Run(steps[..i]).db, steps[i].q, Run(steps[..i]).now);
    r.Ok? && Frozen(NewGrant(r.value, g.generation), g)
  }

  /** Every stored grant was minted so, and has kept those columns. */
  lemma {:induction false} GrantWasMinted(steps: seq<Step>, id: Id) returns (i: int, j: int)
    requires id in Run(steps).db.grants
    ensures Minted(steps, i, j, id, Run(steps).db.grants[id])
  {
    var n := |steps| - 1;
    var pre, s := steps[..n], steps[n];
    RunInv(pre);
    StepGrows(Run(pre), s);
    if id in Run(pre).db.grants {
      i, j := GrantWasMinted(pre, id);
      assert pre[..i] == steps[..i];
      assert Frozen(Run(pre).db.grants[id], Run(steps).db.grants[id]);
    } else {
      NewByMint(Run(pre), s, id);
      i := PendingWasAsked(pre, s.pid);
      j := n;
      assert pre[..i] == steps[..i];
    }
  }

  lemma NewByMint(w: World, s: Step, id: Id)
    requires Inv(w) && id !in w.db.grants && id in Next(w, s).db.grants
    ensures s.CommitMint? && s.id == id && s.pid in w.mints
    ensures Next(w, s).db.grants[id] == NewGrant(w.mints[s.pid], Next(w, s).db.grants[id].generation)
  {
    if !(s.CommitMint? && s.pid in w.mints) {
      KeepsRows(w, s);
    } else if MintTx(w.db, w.mints[s.pid], s.id).1.Ok? {
      var gs := MintShape(w.db, w.mints[s.pid], s.id);
    }
  }

  /** So in every run each grant is what its request asked for, by a stack that
      owned an active principal, and never exceeds what that principal held when
      the mint began: resources, parent, budget and time. */
  lemma GrantIsWhatWasAsked(steps: seq<Step>, id: Id) returns (i: int, j: int)
    requires id in Run(steps).db.grants
    ensures 0 <= i < j < |steps| && steps[i].BeginMint? && steps[j] == CommitMint(steps[i].pid, id)
    ensures
      var (g, q, w) := (Run(steps).db.grants[id], steps[i].q, Run(steps[..i]));
      && WellFormed(q) && q.owner.Ok? && q.active
      && (forall r :: r in g.allow ==> r in q.held)
      && g.tenant == q.tenant && g.principal == q.principal && g.mintedBy == q.owner.value && g.stack == q.stack
      && g.run == q.run && g.allow == q.allow && g.budget == q.budget && g.parent == q.parent
      && g.issued == w.now / 1_000_000_000
      && (q.parent.None? ==> g.depth == 0 && g.expires == (w.now + q.ttl) / 1_000_000_000)
      && (q.parent.Some? ==>
            && q.parent.value in w.db.grants && Narrowable(w.db.grants[q.parent.value], q, q.owner.value, w.now)
            && g.depth == w.db.grants[q.parent.value].depth + 1
            && g.expires == Earlier((w.now + q.ttl) / 1_000_000_000, w.db.grants[q.parent.value].expires))
  {
    i, j := GrantWasMinted(steps, id);
    var q, w := steps[i].q, Run(steps[..i]);
    MintAllowedExactly(w.db, q, w.now);
    MintPrepared(w.db, q, w.now);
    if q.parent.Some? { WholeSeconds(w.now + q.ttl, w.db.grants[q.parent.value].expires); }
  }

  lemma WholeSeconds(t: int, s: int)
    ensures Earlier(t, s * 1_000_000_000) / 1_000_000_000 == Earlier(t / 1_000_000_000, s)
  {
  }

  // --------------------------------------------------------------------- ends

  /** An end under way was asked for on behalf of the stack that minted the
      grant. */
  lemma {:induction false} EndWasAsked(steps: seq<Step>, pid: nat) returns (i: int)
    requires pid in Run(steps).ends
    ensures
      var (r, gs) := (Run(steps).ends[pid], Run(steps).db.grants);
      && r.id in gs && gs[r.id].tenant == r.tenant
      && 0 <= i < |steps| && steps[i] == BeginEnd(pid, gs[r.id].mintedBy, r)
  {
    var n := |steps| - 1;
    var pre, s := steps[..n], steps[n];
    RunInv(pre);
    StepGrows(Run(pre), s);
    if s.BeginEnd? && s.pid == pid && PrepareEnd(Run(pre).db, s.base, s.r).Ok?
       && PrepareEnd(Run(pre).db, s.base, s.r).value.Some? {
      i := n;
    } else {
      i := EndWasAsked(pre, pid);
      var x := Run(pre).ends[pid].id;
      assert Frozen(Run(pre).db.grants[x], Run(steps).db.grants[x]);
    }
  }

  /** A committed end leaves the grant and every grant below it ended. */
  lemma EndStops(steps: seq<Step>, pid: nat, x: Id)
    requires pid in Run(steps).ends
    requires
      var (r, gs) := (Run(steps).ends[pid], Run(steps).db.grants);
      x in gs && (x == r.id || IsAncestor(gs, r.id, x))
    ensures
      var w := Next(Run(steps), CommitEnd(pid));
      x in w.db.grants && Ended(w.db.grants[x])
  {
    var i := EndWasAsked(steps, pid);
    RunInv(steps);
    EndCascade(Run(steps).db, Run(steps).ends[pid], Run(steps).now, x);
  }

  // ------------------------------------------------------------------- charges

  /** Whatever a run charged to a grant, it charged while the grant was running. */
  lemma ChargedWhileRunning(w: World, s: Step, id: Id)
    requires Charged(w, s, id) != 0
    ensures id in w.db.grants && Running(w.db.grants[id], w.now)
  {
    ChargedExactly(w.db, s.tenant, s.id, s.n, s.enforce, w.now);
  }

  /** Once ended, a grant is never charged again. */
  lemma {:induction false} EndedIsNotCharged(steps: seq<Step>, more: seq<Step>, x: Id)
    requires x in Run(steps).db.grants && Ended(Run(steps).db.grants[x])
    ensures Own(steps + more, x) == Own(steps, x)
  {
    if more == [] {
      assert steps + more == steps;
    } else {
      var n := |more| - 1;
      var all := steps + more;
      assert all[..|all| - 1] == steps + more[..n] && all[|all| - 1] == more[n];
      EndedIsNotCharged(steps, more[..n], x);
      EndedForGood(steps, more[..n], x, Run(steps + more[..n]).now);
      if Charged(Run(steps + more[..n]), more[n], x) != 0 {
        ChargedWhileRunning(Run(steps + more[..n]), more[n], x);
        RunningIsLive(Run(steps + more[..n]).db.grants[x], Run(steps + more[..n]).now);
      }
    }
  }

  /** After a close or a revoke nothing below it is charged any more. */
  lemma EndStopsCharges(steps: seq<Step>, pid: nat, more: seq<Step>, x: Id)
    requires pid in Run(steps).ends
    requires
      var (r, gs) := (Run(steps).ends[pid], Run(steps).db.grants);
      x in gs && (x == r.id || IsAncestor(gs, r.id, x))
    ensures Own(steps + [CommitEnd(pid)] + more, x) == Own(steps, x)
  {
    var ended := steps + [CommitEnd(pid)];
    assert ended[..|ended| - 1] == steps;
    EndStops(steps, pid, x);
    EndedIsNotCharged(ended, more, x);
  }
}
