/** Per-tenant concurrency slots: a lock-free counter, taken by compare and swap
    and given back when the request's lease is released, while reloads store
    new caps in place. Every atomic action is a step; a run is any
    interleaving of them. */
module Admission {
  import opened Sums

  type CounterId = nat
  type RequestId = nat
  type LeaseId = nat

  const SYSTEM_TENANT := "_sys"

  datatype Counter = Counter(inFlight: int, cap: int)

  /** Where a call that wants a slot has got to. */
  datatype Request =
    | Lookup(tenant: string, lease: LeaseId)
    | LoadCap(c: CounterId, lease: LeaseId)
    | LoadInFlight(c: CounterId, limit: int, lease: LeaseId)
    | Swap(c: CounterId, limit: int, cur: int, lease: LeaseId)
    | Register(c: CounterId, lease: LeaseId)
    | Done(admitted: bool)

  /** The decrements a lease carries; once released, those yet to run. */
  datatype Lease = Open(fns: seq<CounterId>) | Released(fns: seq<CounterId>)

  /** The reload under way, if any, holding the maps' mutex. */
  datatype Reload =
    | NoReload
    | Storing(out: map<string, int>, todo: set<string>)
    | Dropping(out: map<string, int>, todo: set<string>, zeroed: set<string>)

  datatype World = World(
    counters: map<CounterId, Counter>, cc: map<string, CounterId>,
    requests: map<RequestId, Request>, leases: map<LeaseId, Lease>, reload: Reload)

  datatype Step =
    | NewLease(l: LeaseId)
    | Arrive(r: RequestId, tenant: string, l: LeaseId)
    | Advance(r: RequestId)
    | Release(l: LeaseId)
    | RunRelease(l: LeaseId)
    | BeginReload(out: map<string, int>)
    | StoreCap(slug: string, c: CounterId)
    | EndStoring
    | ZeroCap(slug: string)
    | Evict(slug: string)
    | EndReload

  const START := World(map[], map[], map[], map[], NoReload)

  /** A request still on its way uses the lease. */
  predicate Uses(q: Request, l: LeaseId) {
    !q.Done? && q.lease == l
  }

  predicate Busy(w: World, l: LeaseId) {
    exists r :: r in w.requests && Uses(w.requests[r], l)
  }

  /** Where the next atomic action of a request takes it. */
  function NextRequest(w: World, q: Request): Request {
    match q
    case Lookup(tenant, l) =>
      if tenant == "" || tenant == SYSTEM_TENANT then Done(true)
      else if w.reload != NoReload then q
      else if tenant !in w.cc then Done(true)
      else LoadCap(w.cc[tenant], l)
    case LoadCap(c, l) =>
      if c !in w.counters then q
      else if w.counters[c].cap <= 0 then Done(true)
      else LoadInFlight(c, w.counters[c].cap, l)
    case LoadInFlight(c, limit, l) =>
      if c !in w.counters then q
      else if w.counters[c].inFlight >= limit then Done(false)
      else Swap(c, limit, w.counters[c].inFlight, l)
    case Swap(c, limit, cur, l) =>
      if c !in w.counters then q
      else if w.counters[c].inFlight == cur then Register(c, l)
      else LoadInFlight(c, limit, l)
    case Register(c, l) =>
      if l in w.leases && w.leases[l].Open? then Done(true) else q
    case Done(_) => q
  }

  /** A swap that wins takes a slot. */
  function NextCounters(w: World, q: Request): map<CounterId, Counter> {
    if q.Swap? && q.c in w.counters && w.counters[q.c].inFlight == q.cur
    then w.counters[q.c := w.counters[q.c].(inFlight := q.cur + 1)]
    else w.counters
  }

  /** Registering puts the slot's decrement on the lease. */
  function NextLeases(w: World, q: Request): map<LeaseId, Lease> {
    if q.Register? && q.lease in w.leases && w.leases[q.lease].Open?
    then w.leases[q.lease := Open(w.leases[q.lease].fns + [q.c])]
    else w.leases
  }

  function Act(w: World, r: RequestId): World
    requires r in w.requests
  {
    var q := w.requests[r];
    w.(requests := w.requests[r := NextRequest(w, q)], counters := NextCounters(w, q), leases := NextLeases(w, q))
  }

  function Next(w: World, s: Step): World {
    match s
    case NewLease(l) => if l in w.leases then w else w.(leases := w.leases[l := Open([])])
    case Arrive(r, tenant, l) =>
      if r in w.requests || l !in w.leases || w.leases[l].Released? then w
      else w.(requests := w.requests[r := Lookup(tenant, l)])
    case Advance(r) => if r in w.requests then Act(w, r) else w
    case Release(l) =>
      if l !in w.leases || w.leases[l].Released? || Busy(w, l) then w
      else w.(leases := w.leases[l := Released(w.leases[l].fns)])
    case RunRelease(l) =>
      if l in w.leases && w.leases[l].Released? && w.leases[l].fns != [] && w.leases[l].fns[0] in w.counters then
        var c := w.leases[l].fns[0];
        w.(counters := w.counters[c := w.counters[c].(inFlight := w.counters[c].inFlight - 1)],
           leases := w.leases[l := Released(w.leases[l].fns[1..])])
      else w
    case BeginReload(out) => if w.reload == NoReload then w.(reload := Storing(out, out.Keys)) else w
    case StoreCap(slug, c) =>
      if !(w.reload.Storing? && slug in w.reload.todo && slug in w.reload.out) then w
      else
        var rest := Storing(w.reload.out, w.reload.todo - {slug});
        var limit := w.reload.out[slug];
        if limit <= 0 then w.(reload := rest)
        else if slug in w.cc then
          if w.cc[slug] !in w.counters then w
          else w.(counters := w.counters[w.cc[slug] := w.counters[w.cc[slug]].(cap := limit)], reload := rest)
        else if c in w.counters then w
        else w.(counters := w.counters[c := Counter(0, limit)], cc := w.cc[slug := c], reload := rest)
    case EndStoring =>
      if w.reload.Storing? && w.reload.todo == {} then w.(reload := Dropping(w.reload.out, w.cc.Keys, {})) else w
    case ZeroCap(slug) =>
      if !(w.reload.Dropping? && slug in w.reload.todo && slug in w.cc && w.cc[slug] in w.counters) then w
      else
        var rest := Dropping(w.reload.out, w.reload.todo - {slug}, w.reload.zeroed);
        if slug in w.reload.out && w.reload.out[slug] > 0 then w.(reload := rest)
        else w.(counters := w.counters[w.cc[slug] := w.counters[w.cc[slug]].(cap := 0)],
                reload := Dropping(w.reload.out, w.reload.todo - {slug}, w.reload.zeroed + {slug}))
    case Evict(slug) =>
      if !(w.reload.Dropping? && slug in w.reload.zeroed && slug in w.cc && w.cc[slug] in w.counters) then w
      else w.(cc := if w.counters[w.cc[slug]].inFlight == 0 then w.cc - {slug} else w.cc,
              reload := Dropping(w.reload.out, w.reload.todo, w.reload.zeroed - {slug}))
    case EndReload =>
      if w.reload.Dropping? && w.reload.todo == {} && w.reload.zeroed == {} then w.(reload := NoReload) else w
  }

  function Run(steps: seq<Step>): World {
    if steps == [] then START else Next(Run(steps[..|steps| - 1]), steps[|steps| - 1])
  }

  // ------------------------------------------------------------ accounting

  function Won(w: World, c: CounterId): map<RequestId, int> {
    map r | r in w.requests :: if w.requests[r].Register? && w.requests[r].c == c then 1 else 0
  }

  function Carried(w: World, c: CounterId): map<LeaseId, int> {
    map l | l in w.leases :: multiset(w.leases[l].fns)[c]
  }

  /** Slots of the counter won by a swap and not yet given back: those about
      to be registered, and those on a lease. */
  ghost function Held(w: World, c: CounterId): int {
    Sum(Won(w, c).Keys, Won(w, c)) + Sum(Carried(w, c).Keys, Carried(w, c))
  }

  predicate RequestOk(cs: set<CounterId>, ls: map<LeaseId, Lease>, q: Request) {
    && (!q.Lookup? && !q.Done? ==> q.c in cs)
    && (q.Swap? ==> q.cur < q.limit)
    && (!q.Done? ==> q.lease in ls && ls[q.lease].Open?)
  }

  predicate LeaseOk(cs: set<CounterId>, l: Lease) {
    forall c :: c in l.fns ==> c in cs
  }

  ghost predicate CountOk(w: World, c: CounterId)
    requires c in w.counters
  {
    w.counters[c].inFlight == Held(w, c)
  }

  /** Every counter a request, a lease or the map points to exists. */
  ghost predicate Shape(w: World) {
    && w.cc.Values <= w.counters.Keys
    && (forall r {:trigger w.requests[r]} :: r in w.requests ==> RequestOk(w.counters.Keys, w.leases, w.requests[r]))
    && (forall l {:trigger w.leases[l]} :: l in w.leases ==> LeaseOk(w.counters.Keys, w.leases[l]))
  }

  ghost predicate Inv(w: World) {
    && Shape(w)
    && forall c {:trigger CountOk(w, c)} :: c in w.counters ==> CountOk(w, c)
  }

  lemma WonChanges(w: World, w': World, r: RequestId, c: CounterId)
    requires r in w.requests && r in w'.requests && w'.requests == w.requests[r := w'.requests[r]]
    requires w'.leases == w.leases
    ensures Held(w', c) - Held(w, c) == Won(w', c)[r] - Won(w, c)[r]
  {
    SumUpdate(Won(w, c), Won(w', c), r);
    assert Carried(w, c) == Carried(w', c);
  }

  lemma CarriedChanges(w: World, w': World, l: LeaseId, c: CounterId)
    requires l in w.leases && l in w'.leases && w'.leases == w.leases[l := w'.leases[l]] && w'.requests == w.requests
    ensures Held(w', c) - Held(w, c) == Carried(w', c)[l] - Carried(w, c)[l]
  {
    SumUpdate(Carried(w, c), Carried(w', c), l);
    assert Won(w, c) == Won(w', c);
  }

  lemma SameHeld(w: World, w': World, c: CounterId)
    requires w'.requests == w.requests && w'.leases == w.leases
    ensures Held(w', c) == Held(w, c)
  {
    assert Won(w, c) == Won(w', c) && Carried(w, c) == Carried(w', c);
  }

  // ------------------------------------------------------- requests on their way

  /** A slot registered moves from the request to its lease. */
  lemma RegisterMoves(w: World, r: RequestId, c: CounterId)
    requires r in w.requests && w.requests[r].Register?
    requires w.requests[r].lease in w.leases && w.leases[w.requests[r].lease].Open?
    ensures Held(Act(w, r), c) == Held(w, c)
  {
    var q, w' := w.requests[r], Act(w, r);
    var mid := w.(requests := w'.requests);
    WonChanges(w, mid, r, c);
    CarriedChanges(mid, w', q.lease, c);
  }

  lemma ActCount(w: World, r: RequestId, c: CounterId)
    requires r in w.requests && RequestOk(w.counters.Keys, w.leases, w.requests[r])
    requires c in w.counters && CountOk(w, c)
    ensures c in Act(w, r).counters && CountOk(Act(w, r), c)
  {
    var w', q := Act(w, r), w.requests[r];
    if q.Register? {
      RegisterMoves(w, r, c);
    } else {
      WonChanges(w, w', r, c);
    }
  }

  lemma ActShape(w: World, r: RequestId)
    requires Shape(w) && r in w.requests
    ensures Shape(Act(w, r)) && Act(w, r).counters.Keys == w.counters.Keys
  {
    var w', q := Act(w, r), w.requests[r];
    assert RequestOk(w.counters.Keys, w.leases, q);
    assert RequestOk(w.counters.Keys, w.leases, NextRequest(w, q)) by {
      if q.Lookup? && q.tenant in w.cc { assert w.cc[q.tenant] in w.cc.Values; }
    }
    forall x | x in w'.requests ensures RequestOk(w'.counters.Keys, w'.leases, w'.requests[x]) {
      if x != r { assert RequestOk(w.counters.Keys, w.leases, w.requests[x]); }
    }
    forall l | l in w'.leases ensures LeaseOk(w'.counters.Keys, w'.leases[l]) {
      assert LeaseOk(w.counters.Keys, w.leases[l]);
    }
  }

  lemma ActInv(w: World, r: RequestId)
    requires Inv(w) && r in w.requests
    ensures Inv(Act(w, r))
  {
    ActShape(w, r);
    assert RequestOk(w.counters.Keys, w.leases, w.requests[r]);
    forall c | c in w.counters ensures CountOk(Act(w, r), c) {
      assert CountOk(w, c);
      ActCount(w, r, c);
    }
  }

  lemma ArriveInv(w: World, r: RequestId, tenant: string, l: LeaseId)
    requires Inv(w) && r !in w.requests && l in w.leases && w.leases[l].Open?
    ensures Inv(Next(w, Arrive(r, tenant, l)))
  {
    var w' := Next(w, Arrive(r, tenant, l));
    forall c | c in w.counters ensures CountOk(w', c) {
      assert CountOk(w, c);
      SumInsert(Won(w, c), Won(w', c), r);
      assert Carried(w, c) == Carried(w', c);
    }
    forall x | x in w'.requests ensures RequestOk(w'.counters.Keys, w'.leases, w'.requests[x]) {
      if x != r { assert RequestOk(w.counters.Keys, w.leases, w.requests[x]); }
    }
    forall x | x in w'.leases ensures LeaseOk(w'.counters.Keys, w'.leases[x]) { assert w.leases[x] == w'.leases[x]; }
  }

  // ------------------------------------------------------------------ leases

  lemma NewLeaseInv(w: World, l: LeaseId)
    requires Inv(w) && l !in w.leases
    ensures Inv(Next(w, NewLease(l)))
  {
    var w' := Next(w, NewLease(l));
    forall c | c in w.counters ensures CountOk(w', c) {
      assert CountOk(w, c);
      SumInsert(Carried(w, c), Carried(w', c), l);
      assert Won(w, c) == Won(w', c);
    }
    forall x | x in w'.requests ensures RequestOk(w'.counters.Keys, w'.leases, w'.requests[x]) {
      assert RequestOk(w.counters.Keys, w.leases, w.requests[x]);
    }
    forall x | x in w'.leases ensures LeaseOk(w'.counters.Keys, w'.leases[x]) {
      if x != l { assert LeaseOk(w.counters.Keys, w.leases[x]); }
    }
  }

  lemma ReleaseInv(w: World, l: LeaseId)
    requires Inv(w) && l in w.leases && w.leases[l].Open? && !Busy(w, l)
    ensures Inv(Next(w, Release(l)))
  {
    var w' := Next(w, Release(l));
    forall c | c in w.counters ensures CountOk(w', c) {
      assert CountOk(w, c);
      CarriedChanges(w, w', l, c);
    }
    forall x | x in w'.requests ensures RequestOk(w'.counters.Keys, w'.leases, w'.requests[x]) {
      assert RequestOk(w.counters.Keys, w.leases, w.requests[x]);
      assert !Uses(w.requests[x], l);
    }
    forall x | x in w'.leases ensures LeaseOk(w'.counters.Keys, w'.leases[x]) {
      assert LeaseOk(w.counters.Keys, w.leases[x]);
    }
  }

  lemma RunReleaseInv(w: World, l: LeaseId)
    requires Inv(w) && l in w.leases && w.leases[l].Released?
    requires w.leases[l].fns != [] && w.leases[l].fns[0] in w.counters
    ensures Inv(Next(w, RunRelease(l)))
  {
    var w' := Next(w, RunRelease(l));
    var fns := w.leases[l].fns;
    forall c | c in w.counters ensures CountOk(w', c) {
      assert CountOk(w, c);
      CarriedChanges(w, w', l, c);
      assert fns == [fns[0]] + fns[1..];
    }
    forall x | x in w'.requests ensures RequestOk(w'.counters.Keys, w'.leases, w'.requests[x]) {
      assert RequestOk(w.counters.Keys, w.leases, w.requests[x]);
    }
    forall x | x in w'.leases ensures LeaseOk(w'.counters.Keys, w'.leases[x]) {
      assert LeaseOk(w.counters.Keys, w.leases[x]);
    }
  }

  // ----------------------------------------------------------------- reloads

  predicate IsReload(s: Step) {
    s.BeginReload? || s.StoreCap? || s.EndStoring? || s.ZeroCap? || s.Evict? || s.EndReload?
  }

  /** Counters kept with their in-flight counts, and new ones at zero. */
  ghost predicate CountsKept(cs: map<CounterId, Counter>, cs': map<CounterId, Counter>) {
    && cs.Keys <= cs'.Keys
    && (forall c :: c in cs ==> cs'[c].inFlight == cs[c].inFlight)
    && (forall c :: c in cs' && c !in cs ==> cs'[c].inFlight == 0)
  }

  /** A reload keeps every counter object and its in-flight count. */
  lemma ReloadKeepsCounts(w: World, s: Step)
    requires IsReload(s)
    ensures
      var w' := Next(w, s);
      && w'.requests == w.requests && w'.leases == w.leases && CountsKept(w.counters, w'.counters)
      && (w.cc.Values <= w.counters.Keys ==> w'.cc.Values <= w'.counters.Keys)
  {
    if s.StoreCap? { StoreCapKeeps(w, s.slug, s.c); }
  }

  lemma StoreCapKeeps(w: World, slug: string, c: CounterId)
    ensures
      var w' := Next(w, StoreCap(slug, c));
      && w'.requests == w.requests && w'.leases == w.leases && CountsKept(w.counters, w'.counters)
      && (w.cc.Values <= w.counters.Keys ==> w'.cc.Values <= w'.counters.Keys)
  {
  }

  /** Nobody holds a slot of a counter that does not exist yet. */
  lemma NewCounterIsFree(w: World, c: CounterId)
    requires Shape(w) && c !in w.counters
    ensures Held(w, c) == 0
  {
    forall r | r in w.requests ensures Won(w, c)[r] == 0 {
      assert RequestOk(w.counters.Keys, w.leases, w.requests[r]);
    }
    forall l | l in w.leases ensures Carried(w, c)[l] == 0 { assert LeaseOk(w.counters.Keys, w.leases[l]); }
    SumZero(Won(w, c).Keys, Won(w, c));
    SumZero(Carried(w, c).Keys, Carried(w, c));
  }

  lemma ReloadInv(w: World, s: Step)
    requires Inv(w) && IsReload(s)
    ensures Inv(Next(w, s))
  {
    var w' := Next(w, s);
    ReloadKeepsCounts(w, s);
    forall c | c in w'.counters ensures CountOk(w', c) {
      SameHeld(w, w', c);
      if c in w.counters { assert CountOk(w, c); } else { NewCounterIsFree(w, c); }
    }
    forall x | x in w'.requests ensures RequestOk(w'.counters.Keys, w'.leases, w'.requests[x]) {
      assert RequestOk(w.counters.Keys, w.leases, w.requests[x]);
    }
    forall x | x in w'.leases ensures LeaseOk(w'.counters.Keys, w'.leases[x]) {
      assert LeaseOk(w.counters.Keys, w.leases[x]);
    }
  }

  // -------------------------------------------------------------- whole runs

  lemma InvStep(w: World, s: Step)
    requires Inv(w)
    ensures Inv(Next(w, s))
  {
    if Next(w, s) != w {
      match s
      case NewLease(l) => NewLeaseInv(w, l);
      case Release(l) => ReleaseInv(w, l);
      case RunRelease(l) => RunReleaseInv(w, l);
      case Arrive(r, t, l) => ArriveInv(w, r, t, l);
      case Advance(r) => ActInv(w, r);
      case _ => ReloadInv(w, s);
    }
  }

  lemma {:induction false} RunInv(steps: seq<Step>)
    ensures Inv(Run(steps))
  {
    if steps != [] {
      RunInv(steps[..|steps| - 1]);
      InvStep(Run(steps[..|steps| - 1]), steps[|steps| - 1]);
    }
  }

  /** In every interleaving each counter is exactly the slots won and not yet
      given back, and so never negative. */
  lemma CountsAreExact(steps: seq<Step>, c: CounterId)
    requires c in Run(steps).counters
    ensures Run(steps).counters[c].inFlight == Held(Run(steps), c) >= 0
  {
    RunInv(steps);
    var w := Run(steps);
    assert CountOk(w, c);
    SumNonNegative(Won(w, c).Keys, Won(w, c));
    SumNonNegative(Carried(w, c).Keys, Carried(w, c));
  }

  /** Once every lease has run its releases and no request is on its way, every
      counter is zero. */
  lemma DrainsToZero(steps: seq<Step>, c: CounterId)
    requires c in Run(steps).counters
    requires forall l :: l in Run(steps).leases ==> Run(steps).leases[l].fns == []
    requires forall r :: r in Run(steps).requests ==> Run(steps).requests[r].Done?
    ensures Run(steps).counters[c].inFlight == 0
  {
    var w := Run(steps);
    CountsAreExact(steps, c);
    SumZero(Won(w, c).Keys, Won(w, c));
    SumZero(Carried(w, c).Keys, Carried(w, c));
  }

  // ---------------------------------------------------------------- the cap

  function Max(a: int, b: int): int {
    if a >= b then a else b
  }

  /** The largest cap the run ever stored in the counter. */
  function Peak(steps: seq<Step>, c: CounterId): int {
    if steps == [] then 0
    else
      var cap := if c in Run(steps).counters then Run(steps).counters[c].cap else 0;
      Max(Peak(steps[..|steps| - 1], c), cap)
  }

  predicate LimitOk(q: Request, c: CounterId, peak: int) {
    (q.LoadInFlight? || q.Swap?) && q.c == c ==> q.limit <= peak
  }

  ghost predicate Capped(w: World, c: CounterId, peak: int) {
    && peak >= 0
    && (c in w.counters ==> w.counters[c].cap <= peak && w.counters[c].inFlight <= peak)
    && (forall r {:trigger w.requests[r]} :: r in w.requests ==> LimitOk(w.requests[r], c, peak))
  }

  lemma ActCapped(w: World, r: RequestId, c: CounterId, peak: int)
    requires Shape(w) && Capped(w, c, peak) && r in w.requests
    ensures Capped(Act(w, r), c, peak)
  {
    var w', q := Act(w, r), w.requests[r];
    assert RequestOk(w.counters.Keys, w.leases, q) && LimitOk(q, c, peak);
    assert LimitOk(NextRequest(w, q), c, peak);
    forall x | x in w'.requests ensures LimitOk(w'.requests[x], c, peak) {
      if x != r { assert LimitOk(w.requests[x], c, peak); }
    }
  }

  lemma OtherCapped(w: World, s: Step, c: CounterId, peak: int, peak': int)
    requires !s.Advance? && Capped(w, c, peak) && peak' >= peak
    requires c in Next(w, s).counters ==> Next(w, s).counters[c].cap <= peak'
    ensures Capped(Next(w, s), c, peak')
  {
    var w' := Next(w, s);
    if IsReload(s) { ReloadKeepsCounts(w, s); }
    forall x | x in w'.requests ensures LimitOk(w'.requests[x], c, peak') {
      if x in w.requests { assert LimitOk(w.requests[x], c, peak) && w'.requests[x] == w.requests[x]; }
    }
  }

  lemma StepCapped(w: World, s: Step, c: CounterId, peak: int, peak': int)
    requires Inv(w) && Capped(w, c, peak) && peak' >= peak
    requires c in Next(w, s).counters ==> Next(w, s).counters[c].cap <= peak'
    ensures Capped(Next(w, s), c, peak')
  {
    if !s.Advance? {
      OtherCapped(w, s, c, peak, peak');
    } else {
      if s.r in w.requests { ActCapped(w, s.r, c, peak); }
      var w' := Next(w, s);
      forall x | x in w'.requests ensures LimitOk(w'.requests[x], c, peak') { assert LimitOk(w'.requests[x], c, peak); }
    }
  }

  /** However acquires, releases and reloads interleave, a counter never
      exceeds the largest cap ever stored in it. */
  lemma {:induction false} NeverAbovePeak(steps: seq<Step>, c: CounterId)
    ensures c in Run(steps).counters ==> Run(steps).counters[c].inFlight <= Peak(steps, c)
    ensures Capped(Run(steps), c, Peak(steps, c))
  {
    if steps != [] {
      var pre := steps[..|steps| - 1];
      NeverAbovePeak(pre, c);
      RunInv(pre);
      StepCapped(Run(pre), steps[|steps| - 1], c, Peak(pre, c), Peak(steps, c));
    }
  }
}
