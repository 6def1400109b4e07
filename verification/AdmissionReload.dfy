/** What a reload puts in force: once it is through, every tenant it names has
    exactly the cap it brings, and every request that then looks its tenant up
    is held to it. */
module AdmissionReload {
  import opened Admission

  predicate Named(out: map<string, int>, slug: string) { slug in out && out[slug] > 0 }

  predicate HasCap(w: World, slug: string, cap: int) {
    slug in w.cc && w.cc[slug] in w.counters && w.counters[w.cc[slug]].cap == cap
  }

  /** Every cap is as the reload brings it, and 0 for a tenant it does not name. */
  ghost predicate InForce(w: World, out: map<string, int>) {
    && (forall s {:trigger Named(out, s)} :: Named(out, s) ==> HasCap(w, s, out[s]))
    && (forall s {:trigger Named(out, s)} :: s in w.cc && !Named(out, s) ==> HasCap(w, s, 0))
  }

  // ------------------------------------------------------- while it is under way

  /** No two tenants share a counter. */
  ghost predicate OneEach(w: World) {
    forall a, b :: a in w.cc && b in w.cc && w.cc[a] == w.cc[b] ==> a == b
  }

  ghost predicate StoringOk(w: World, out: map<string, int>, todo: set<string>) {
    todo <= out.Keys && forall s {:trigger Named(out, s)} :: Named(out, s) && s !in todo ==> HasCap(w, s, out[s])
  }

  ghost predicate DroppingOk(w: World, out: map<string, int>, todo: set<string>, zeroed: set<string>) {
    && todo <= w.cc.Keys && zeroed <= w.cc.Keys && todo !! zeroed
    && (forall s {:trigger Named(out, s)} :: Named(out, s) ==> s !in zeroed && HasCap(w, s, out[s]))
    && (forall s {:trigger Named(out, s)} :: s in w.cc && !Named(out, s) && s !in todo ==> HasCap(w, s, 0))
  }

  ghost predicate ReloadOk(w: World) {
    && OneEach(w)
    && match w.reload
       case NoReload => true
       case Storing(out, todo) => StoringOk(w, out, todo)
       case Dropping(out, todo, zeroed) => DroppingOk(w, out, todo, zeroed)
  }

  /** Nothing but a reload touches a cap or the tenants' table. */
  lemma CapsKept(w: World, s: Step)
    requires Inv(w) && (!IsReload(s) || (w.reload == NoReload && !s.BeginReload?))
    ensures
      var w' := Next(w, s);
      && w'.cc == w.cc && w'.reload == w.reload && w'.counters.Keys == w.counters.Keys
      && forall c :: c in w.counters ==> w'.counters[c].cap == w.counters[c].cap
  {
  }

  lemma StoreCapOk(w: World, slug: string, c: CounterId)
    requires Inv(w) && ReloadOk(w) && w.reload.Storing?
    ensures ReloadOk(Next(w, StoreCap(slug, c)))
  {
    var w' := Next(w, StoreCap(slug, c));
    var out := w.reload.out;
    if w' != w {
      forall s | Named(out, s) && s !in w'.reload.todo ensures HasCap(w', s, out[s]) {
        if s != slug { assert HasCap(w, s, out[s]); }
      }
      assert OneEach(w') by {
        forall a, b | a in w'.cc && b in w'.cc && w'.cc[a] == w'.cc[b] ensures a == b {
          if a in w.cc { assert w.cc[a] in w.cc.Values; }
          if b in w.cc { assert w.cc[b] in w.cc.Values; }
        }
      }
    }
  }

  lemma ZeroCapOk(w: World, slug: string)
    requires Inv(w) && ReloadOk(w) && w.reload.Dropping?
    ensures ReloadOk(Next(w, ZeroCap(slug)))
  {
    var w', out := Next(w, ZeroCap(slug)), w.reload.out;
    if w' != w {
      forall s | Named(out, s) ensures s !in w'.reload.zeroed && HasCap(w', s, out[s]) {
        assert HasCap(w, s, out[s]);
      }
      forall s | s in w'.cc && !Named(out, s) && s !in w'.reload.todo ensures HasCap(w', s, 0) {
        if s != slug { assert HasCap(w, s, 0); }
      }
    }
  }

  lemma EvictOk(w: World, slug: string)
    requires Inv(w) && ReloadOk(w) && w.reload.Dropping?
    ensures ReloadOk(Next(w, Evict(slug)))
  {
    var w', out := Next(w, Evict(slug)), w.reload.out;
    if w' != w {
      assert !Named(out, slug);
      forall s | Named(out, s) ensures s !in w'.reload.zeroed && HasCap(w', s, out[s]) {
        assert HasCap(w, s, out[s]);
      }
      forall s | s in w'.cc && !Named(out, s) && s !in w'.reload.todo ensures HasCap(w', s, 0) {
        assert HasCap(w, s, 0);
      }
    }
  }

  lemma ReloadStep(w: World, s: Step)
    requires Inv(w) && ReloadOk(w)
    ensures ReloadOk(Next(w, s))
  {
    if w.reload.Storing? && s.StoreCap? {
      StoreCapOk(w, s.slug, s.c);
    } else if w.reload.Dropping? && s.ZeroCap? {
      ZeroCapOk(w, s.slug);
    } else if w.reload.Dropping? && s.Evict? {
      EvictOk(w, s.slug);
    } else if s.EndStoring? && w.reload.Storing? {
      EndStoringOk(w);
    } else if IsReload(s) {
      assert Next(w, s).cc == w.cc && Next(w, s).counters == w.counters;
    } else {
      CapsKept(w, s);
      SameCaps(w, Next(w, s));
    }
  }

  lemma EndStoringOk(w: World)
    requires Inv(w) && ReloadOk(w) && w.reload.Storing?
    ensures ReloadOk(Next(w, EndStoring))
  {
    var w', out := Next(w, EndStoring), w.reload.out;
    if w' != w {
      forall s | Named(out, s) ensures HasCap(w', s, out[s]) { assert HasCap(w, s, out[s]); }
    }
  }

  lemma SameCaps(w: World, w': World)
    requires ReloadOk(w) && w'.cc == w.cc && w'.reload == w.reload && w'.counters.Keys == w.counters.Keys
    requires forall c :: c in w.counters ==> w'.counters[c].cap == w.counters[c].cap
    ensures ReloadOk(w')
  {
    assert forall s, n {:trigger HasCap(w', s, n)} :: HasCap(w, s, n) ==> HasCap(w', s, n);
  }

  lemma {:induction false} RunReload(steps: seq<Step>)
    ensures Inv(Run(steps)) && ReloadOk(Run(steps))
  {
    RunInv(steps);
    if steps != [] {
      RunReload(steps[..|steps| - 1]);
      ReloadStep(Run(steps[..|steps| - 1]), steps[|steps| - 1]);
    }
  }

  // ---------------------------------------------------------- once it is through

  /** Its eviction was tried in the reload under way, and slots were in use. */
  ghost predicate WasBusy(steps: seq<Step>, slug: string) {
    exists i {:trigger steps[..i]} :: 0 <= i < |steps| && steps[i] == Evict(slug) && Busy1(Run(steps[..i]), slug)
      && forall j {:trigger Run(steps[..j])} :: i <= j <= |steps| ==> Run(steps[..j]).reload.Dropping?
  }

  predicate Busy1(w: World, slug: string) {
    slug in w.cc && w.cc[slug] in w.counters && w.counters[w.cc[slug]].inFlight > 0
  }

  predicate Passed(w: World, slug: string) {
    && w.reload.Dropping? && slug in w.cc && !Named(w.reload.out, slug)
    && slug !in w.reload.todo && slug !in w.reload.zeroed
  }

  /** A tenant the reload does not name stays in the table only when busy. */
  lemma {:induction false} PassedWasBusy(steps: seq<Step>, slug: string)
    requires Passed(Run(steps), slug)
    ensures WasBusy(steps, slug)
  {
    var n := |steps| - 1;
    var pre, s := steps[..n], steps[n];
    RunReload(pre);
    assert steps[..|steps|] == steps;
    if Passed(Run(pre), slug) {
      PassedWasBusy(pre, slug);
      StillBusy(steps, slug);
    } else {
      JustPassed(Run(pre), s, slug);
      CountsAreExact(pre, Run(pre).cc[slug]);
      assert Busy1(Run(steps[..n]), slug);
    }
  }

  lemma StillBusy(steps: seq<Step>, slug: string)
    requires steps != [] && WasBusy(steps[..|steps| - 1], slug) && Run(steps).reload.Dropping?
    ensures WasBusy(steps, slug)
  {
    var n := |steps| - 1;
    var pre := steps[..n];
    var i :| 0 <= i < |pre| && pre[i] == Evict(slug) && Busy1(Run(pre[..i]), slug)
      && forall j {:trigger Run(pre[..j])} :: i <= j <= |pre| ==> Run(pre[..j]).reload.Dropping?;
    assert pre[..i] == steps[..i];
    forall j | i <= j <= |steps| ensures Run(steps[..j]).reload.Dropping? {
      if j <= n {
        assert pre[..j] == steps[..j];
        assert Run(pre[..j]).reload.Dropping?;
      } else {
        assert steps[..j] == steps;
      }
    }
  }

  lemma JustPassed(w: World, s: Step, slug: string)
    requires Inv(w) && ReloadOk(w) && !Passed(w, slug) && Passed(Next(w, s), slug)
    ensures w.reload.Dropping? && s == Evict(slug) && slug in w.cc && w.cc[slug] in w.counters
    ensures w.counters[w.cc[slug]].inFlight != 0
  {
    if !IsReload(s) { CapsKept(w, s); }
  }

  /** When a reload ends, every tenant it names has exactly the cap it brings;
      any other still in the table has none, and was busy when its turn came. */
  lemma ReloadInForce(steps: seq<Step>, out: map<string, int>)
    requires Run(steps).reload == Dropping(out, {}, {})
    ensures
      var w := Run(steps + [EndReload]);
      && w.reload == NoReload && InForce(w, out)
      && forall slug :: slug in w.cc && !Named(out, slug) ==> WasBusy(steps, slug)
  {
    var pre, all := Run(steps), steps + [EndReload];
    RunReload(steps);
    assert all[..|steps|] == steps;
    assert Run(all) == pre.(reload := NoReload);
    forall s | Named(out, s) ensures HasCap(Run(all), s, out[s]) { assert HasCap(pre, s, out[s]); }
    forall s | s in pre.cc && !Named(out, s) ensures HasCap(Run(all), s, 0) && WasBusy(steps, s) {
      assert HasCap(pre, s, 0);
      PassedWasBusy(steps, s);
    }
  }

  // -------------------------------------------------------- it can always finish

  lemma {:induction false} NewId(ids: set<CounterId>) returns (c: CounterId)
    ensures forall d :: d in ids ==> d < c
  {
    if ids == {} {
      c := 0;
    } else {
      var d :| d in ids;
      c := NewId(ids - {d});
      if c <= d { c := d + 1; }
      forall e | e in ids ensures e < c { if e != d { assert e in ids - {d}; } }
    }
  }

  lemma RunSnoc(steps: seq<Step>, s: Step)
    ensures Run(steps + [s]) == Next(Run(steps), s)
  {
    assert (steps + [s])[..|steps|] == steps;
  }

  lemma {:induction false} FinishStoring(steps: seq<Step>, out: map<string, int>, todo: set<string>)
      returns (more: seq<Step>)
    requires Run(steps).reload == Storing(out, todo)
    ensures Run(steps + more).reload == Storing(out, {})
    decreases |todo|
  {
    if todo == {} {
      more := [];
      assert steps + more == steps;
    } else {
      var slug :| slug in todo;
      var w := Run(steps);
      RunReload(steps);
      var c := NewId(w.counters.Keys);
      if slug in w.cc { assert w.cc[slug] in w.cc.Values; }
      RunSnoc(steps, StoreCap(slug, c));
      var rest := FinishStoring(steps + [StoreCap(slug, c)], out, todo - {slug});
      more := [StoreCap(slug, c)] + rest;
      assert steps + more == steps + [StoreCap(slug, c)] + rest;
    }
  }

  lemma ZeroMoves(w: World, slug: string)
    requires Inv(w) && ReloadOk(w) && w.reload.Dropping? && slug in w.reload.todo
    ensures
      var to := Next(w, ZeroCap(slug)).reload;
      to.Dropping? && to.out == w.reload.out && to.todo == w.reload.todo - {slug}
  {
    assert w.cc[slug] in w.cc.Values;
  }

  lemma EvictMoves(w: World, slug: string)
    requires Inv(w) && ReloadOk(w) && w.reload.Dropping? && slug in w.reload.zeroed
    ensures Next(w, Evict(slug)).reload == Dropping(w.reload.out, w.reload.todo, w.reload.zeroed - {slug})
  {
    assert w.cc[slug] in w.cc.Values;
  }

  lemma {:induction false} FinishDropping(steps: seq<Step>, out: map<string, int>) returns (more: seq<Step>)
    requires Run(steps).reload.Dropping? && Run(steps).reload.out == out
    ensures Run(steps + more).reload == Dropping(out, {}, {})
    decreases |Run(steps).reload.todo|, |Run(steps).reload.zeroed|
  {
    var w := Run(steps);
    RunReload(steps);
    more := [];
    assert steps + more == steps;
    if w.reload.todo != {} || w.reload.zeroed != {} {
      var s;
      if w.reload.todo != {} {
        var slug :| slug in w.reload.todo;
        s := ZeroCap(slug);
        ZeroMoves(w, slug);
      } else {
        var slug :| slug in w.reload.zeroed;
        s := Evict(slug);
        EvictMoves(w, slug);
      }
      RunSnoc(steps, s);
      var rest := FinishDropping(steps + [s], out);
      more := [s] + rest;
      assert steps + more == steps + [s] + rest;
    }
  }

  lemma DropsToForce(steps: seq<Step>, out: map<string, int>) returns (more: seq<Step>)
    requires Run(steps).reload.Dropping? && Run(steps).reload.out == out
    ensures Run(steps + more).reload == NoReload && InForce(Run(steps + more), out)
  {
    var b := FinishDropping(steps, out);
    ReloadInForce(steps + b, out);
    more := b + [EndReload];
    assert steps + more == steps + b + [EndReload];
  }

  /** From every state without one, a reload of any caps can be run through, and
      then they are in force. */
  lemma ReloadCanFinish(steps: seq<Step>, out: map<string, int>) returns (more: seq<Step>)
    requires Run(steps).reload == NoReload
    ensures
      var w := Run(steps + [BeginReload(out)] + more);
      w.reload == NoReload && InForce(w, out)
  {
    var s1 := steps + [BeginReload(out)];
    RunSnoc(steps, BeginReload(out));
    var a := StoresThrough(s1, out);
    var b := DropsToForce(s1 + a, out);
    more := a + b;
    assert s1 + more == s1 + a + b;
  }

  lemma StoresThrough(steps: seq<Step>, out: map<string, int>) returns (more: seq<Step>)
    requires Run(steps).reload == Storing(out, out.Keys)
    ensures Run(steps + more).reload.Dropping? && Run(steps + more).reload.out == out
  {
    var a := FinishStoring(steps, out, out.Keys);
    RunSnoc(steps + a, EndStoring);
    more := a + [EndStoring];
    assert steps + more == steps + a + [EndStoring];
  }

  // ------------------------------------------------------- what requests then get

  predicate Exempt(tenant: string) { tenant == "" || tenant == "_sys" }

  /** How far a request of the tenant can have come with the caps in force: a
      named tenant's is held to exactly its cap, any other is let through. */
  predicate OnPath(w: World, out: map<string, int>, tenant: string, l: LeaseId, q: Request) {
    if q == Lookup(tenant, l) then true
    else if Exempt(tenant) || tenant !in w.cc then q == Done(true)
    else if !Named(out, tenant) then q == LoadCap(w.cc[tenant], l) || q == Done(true)
    else
      match q
      case Lookup(_, _) => false
      case LoadCap(c, m) => c == w.cc[tenant] && m == l
      case LoadInFlight(c, limit, m) => c == w.cc[tenant] && limit == out[tenant] && m == l
      case Swap(c, limit, _, m) => c == w.cc[tenant] && limit == out[tenant] && m == l
      case Register(c, m) => c == w.cc[tenant] && m == l
      case Done(_) => true
  }

  lemma ForceKept(w: World, s: Step, out: map<string, int>)
    requires Inv(w) && w.reload == NoReload && InForce(w, out) && !s.BeginReload?
    ensures Next(w, s).reload == NoReload && InForce(Next(w, s), out) && Next(w, s).cc == w.cc
  {
    CapsKept(w, s);
    forall t ensures Named(out, t) ==> HasCap(Next(w, s), t, out[t]) {
      if Named(out, t) { assert HasCap(w, t, out[t]); }
    }
    forall t ensures t in w.cc && !Named(out, t) ==> HasCap(Next(w, s), t, 0) {
      if t in w.cc && !Named(out, t) { assert HasCap(w, t, 0); }
    }
  }

  /** A step keeps a request on its path, and decides it only by the counter: it
      is refused at the cap and admitted with a slot. */
  lemma PathStep(w: World, s: Step, out: map<string, int>, tenant: string, l: LeaseId, r: RequestId)
    requires Inv(w) && w.reload == NoReload && InForce(w, out) && !s.BeginReload?
    requires r in w.requests && OnPath(w, out, tenant, l, w.requests[r])
    ensures r in Next(w, s).requests && OnPath(Next(w, s), out, tenant, l, Next(w, s).requests[r])
    ensures
      var (q, q') := (w.requests[r], Next(w, s).requests[r]);
      q != q' && q'.Done? && !Exempt(tenant) && Named(out, tenant) ==>
        && HasCap(w, tenant, out[tenant])
        && (q'.admitted ==> q == Register(w.cc[tenant], l))
        && (!q'.admitted ==> w.counters[w.cc[tenant]].inFlight >= out[tenant])
  {
    ForceKept(w, s, out);
    if Named(out, tenant) { assert HasCap(w, tenant, out[tenant]); }
    if tenant in w.cc && !Named(out, tenant) { assert HasCap(w, tenant, 0); }
    if !(s.Advance? && s.r == r) { OtherRequest(w, s, r); }
  }

  lemma OtherRequest(w: World, s: Step, r: RequestId)
    requires r in w.requests && !(s.Advance? && s.r == r)
    ensures r in Next(w, s).requests && Next(w, s).requests[r] == w.requests[r]
  {
  }

  /** At some point of `more` the tenant's counter was at its cap. */
  ghost predicate WasFull(steps: seq<Step>, more: seq<Step>, tenant: string, cap: int) {
    exists i {:trigger more[..i]} :: 0 <= i < |more| && Full(Run(steps + more[..i]), tenant, cap)
  }

  predicate Full(w: World, tenant: string, cap: int) {
    tenant in w.cc && w.cc[tenant] in w.counters && w.counters[w.cc[tenant]].inFlight >= cap
  }

  /** At some point of `more` the request had won a slot of the tenant's. */
  ghost predicate WonSlot(steps: seq<Step>, more: seq<Step>, tenant: string, r: RequestId) {
    exists i {:trigger more[..i]} :: 0 <= i < |more| && HoldsSlot(Run(steps + more[..i]), tenant, r)
  }

  predicate HoldsSlot(w: World, tenant: string, r: RequestId) {
    r in w.requests && tenant in w.cc && w.requests[r].Register? && w.requests[r].c == w.cc[tenant]
  }

  /** A named tenant's request is refused only if the counter stood at the cap,
      and admitted only with a slot. */
  ghost predicate Fair(steps: seq<Step>, more: seq<Step>, out: map<string, int>, tenant: string, r: RequestId) {
    var w := Run(steps + more);
    r in w.requests && w.requests[r].Done? && !Exempt(tenant) && Named(out, tenant) ==>
      if w.requests[r].admitted then WonSlot(steps, more, tenant, r) else WasFull(steps, more, tenant, out[tenant])
  }

  lemma FairStep(steps: seq<Step>, more: seq<Step>, out: map<string, int>, tenant: string, l: LeaseId, r: RequestId)
    requires more != [] && !more[|more| - 1].BeginReload?
    requires
      var (pre, w) := (more[..|more| - 1], Run(steps + more[..|more| - 1]));
      && Inv(w) && w.reload == NoReload && InForce(w, out)
      && r in w.requests && OnPath(w, out, tenant, l, w.requests[r]) && Fair(steps, pre, out, tenant, r)
    ensures Fair(steps, more, out, tenant, r)
  {
    var pre, s := more[..|more| - 1], more[|more| - 1];
    var w := Run(steps + pre);
    RunSnoc(steps + pre, s);
    assert steps + more == steps + pre + [s];
    PathStep(w, s, out, tenant, l, r);
    Extends(steps, more, tenant, r, out);
  }

  /** A request that looks its tenant up while a reload's caps are in force, with
      no other reload since: a named tenant's has exactly that cap as its limit,
      is refused only if the counter stood at it, and admitted only with a slot;
      any other is admitted without. */
  lemma {:induction false} HeldToTheCap(steps: seq<Step>, more: seq<Step>, out: map<string, int>, r: RequestId)
    requires Run(steps).reload == NoReload && InForce(Run(steps), out)
    requires r in Run(steps).requests && Run(steps).requests[r].Lookup?
    requires forall i :: 0 <= i < |more| ==> !more[i].BeginReload?
    ensures
      var (w, at) := (Run(steps + more), Run(steps).requests[r]);
      && w.reload == NoReload && InForce(w, out) && w.cc == Run(steps).cc
      && r in w.requests && OnPath(w, out, at.tenant, at.lease, w.requests[r])
      && Fair(steps, more, out, at.tenant, r)
  {
    if more == [] {
      assert steps + more == steps;
    } else {
      var n, at := |more| - 1, Run(steps).requests[r];
      var pre, s := more[..n], more[n];
      HeldToTheCap(steps, pre, out, r);
      RunInv(steps + pre);
      FairStep(steps, more, out, at.tenant, at.lease, r);
      RunSnoc(steps + pre, s);
      assert steps + more == steps + pre + [s];
      ForceKept(Run(steps + pre), s, out);
      PathStep(Run(steps + pre), s, out, at.tenant, at.lease, r);
    }
  }

  lemma Extends(steps: seq<Step>, more: seq<Step>, tenant: string, r: RequestId, out: map<string, int>)
    requires more != []
    ensures
      var pre := more[..|more| - 1];
      && (WonSlot(steps, pre, tenant, r) || HoldsSlot(Run(steps + pre), tenant, r) ==> WonSlot(steps, more, tenant, r))
      && (Named(out, tenant) ==>
            WasFull(steps, pre, tenant, out[tenant]) || Full(Run(steps + pre), tenant, out[tenant]) ==>
              WasFull(steps, more, tenant, out[tenant]))
  {
    var pre := more[..|more| - 1];
    assert forall i :: 0 <= i < |pre| ==> pre[..i] == more[..i];
    if WonSlot(steps, pre, tenant, r) {
      var i :| 0 <= i < |pre| && HoldsSlot(Run(steps + pre[..i]), tenant, r);
      assert HoldsSlot(Run(steps + more[..i]), tenant, r);
    }
    if Named(out, tenant) && WasFull(steps, pre, tenant, out[tenant]) {
      var i :| 0 <= i < |pre| && Full(Run(steps + pre[..i]), tenant, out[tenant]);
      assert Full(Run(steps + more[..i]), tenant, out[tenant]);
    }
  }

  // --------------------------------------------------------------- with no rivals

  function Five(w: World, r: RequestId): World
    requires r in w.requests
  {
    Act(Act(Act(Act(Act(w, r), r), r), r), r)
  }

  /** Alone, a request is through in five actions: admitted exactly when its tenant
      is exempt, has no cap, or is below it; then a slot is taken and its return
      is on the lease. */
  lemma Alone(w: World, r: RequestId)
    requires Inv(w) && w.reload == NoReload && r in w.requests && w.requests[r].Lookup?
    ensures
      var (tenant, l, w') := (w.requests[r].tenant, w.requests[r].lease, Five(w, r));
      var limited := !Exempt(tenant) && tenant in w.cc && w.counters[w.cc[tenant]].cap > 0;
      && w.cc.Values <= w.counters.Keys
      && (limited ==>
            && var (c, k) := (w.cc[tenant], w.counters[w.cc[tenant]]);
            && w'.requests[r] == Done(k.inFlight < k.cap)
            && w'.counters ==
                 (if k.inFlight < k.cap then w.counters[c := k.(inFlight := k.inFlight + 1)] else w.counters)
            && w'.leases == (if k.inFlight < k.cap then w.leases[l := Open(w.leases[l].fns + [c])] else w.leases))
      && (!limited ==> w'.requests[r] == Done(true) && w'.counters == w.counters && w'.leases == w.leases)
  {
    var q := w.requests[r];
    assert RequestOk(w.counters.Keys, w.leases, q);
    if q.tenant in w.cc { assert w.cc[q.tenant] in w.cc.Values; }
  }

  // ----------------------------------------------------------------- eviction

  /** A tenant's counter leaves the table exactly when a reload that has set its
      cap to zero tries to evict it and finds nothing in flight; until then the
      tenant keeps that very counter. */
  lemma EvictedExactly(w: World, s: Step, slug: string)
    requires w.cc.Values <= w.counters.Keys && slug in w.cc
    ensures w.cc[slug] in w.counters
    ensures slug !in Next(w, s).cc <==>
      s == Evict(slug) && w.reload.Dropping? && slug in w.reload.zeroed && w.counters[w.cc[slug]].inFlight == 0
    ensures slug in Next(w, s).cc ==> Next(w, s).cc[slug] == w.cc[slug]
  {
    assert w.cc[slug] in w.cc.Values;
  }

  predicate InUse(w: World, c: CounterId) { c in w.counters && w.counters[c].inFlight != 0 }

  /** While its slots are in use a tenant stays on one counter, through any
      number of reloads, whether they name it or not. */
  lemma {:induction false} StaysWhileInUse(steps: seq<Step>, more: seq<Step>, slug: string)
    requires slug in Run(steps).cc
    requires forall k {:trigger more[..k]} :: 0 <= k < |more| ==> InUse(Run(steps + more[..k]), Run(steps).cc[slug])
    ensures slug in Run(steps + more).cc && Run(steps + more).cc[slug] == Run(steps).cc[slug]
  {
    if more == [] {
      assert steps + more == steps;
    } else {
      var n := |more| - 1;
      forall k | 0 <= k < n ensures InUse(Run(steps + more[..n][..k]), Run(steps).cc[slug]) {
        assert more[..n][..k] == more[..k];
      }
      StaysWhileInUse(steps, more[..n], slug);
      RunInv(steps + more[..n]);
      EvictedExactly(Run(steps + more[..n]), more[n], slug);
      assert steps + more == steps + more[..n] + [more[n]];
      RunSnoc(steps + more[..n], more[n]);
    }
  }
}
