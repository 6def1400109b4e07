/** Every interleaving of events, flushes and definition changes, over any
    number of nodes and any number of flushes in flight per node (the ticking
    loop's and the closing one's). */
module AllowanceRuns {
  import opened Wrappers
  import opened Sums
  import opened Windows
  import opened Allowance
  import Civil

  datatype Batch = Batch(node: nat, fuel: map<Key, int>)

  /** One increment that reached the KV; not acknowledged, it will be sent again. */
  datatype Charge = Charge(key: Key, per: Period, at: int, fuel: int, acknowledged: bool)

  datatype World = World(
    pending: map<nat, map<Key, int>>,
    batches: map<nat, Batch>,
    counters: map<CounterKey, int>,
    cache: map<(nat, Key), Period>,
    defs: map<Key, Def>,
    log: seq<Charge>)

  datatype Step =
    | Write(node: nat, ev: Event)
    | Swap(node: nat, flush: nat)
    | ChargeOne(flush: nat, key: Key, now: int, young: bool, outcome: Outcome)
    | Define(node: nat, key: Key, def: Option<Def>)
    | Look(node: nat, key: Key)

  function Pending(w: World, n: nat): map<Key, int> { if n in w.pending then w.pending[n] else map[] }

  function PeriodAt(w: World, n: nat, k: Key, young: bool): Period {
    if young && (n, k) in w.cache then w.cache[(n, k)] else Effective(w.defs, k)
  }

  function Taken(w: World, f: nat, k: Key): World
    requires f in w.batches
  {
    w.(batches := w.batches[f := w.batches[f].(fuel := w.batches[f].fuel - {k})])
  }

  function Remember(w: World, n: nat, k: Key): World {
    w.(cache := w.cache[(n, k) := Effective(w.defs, k)])
  }

  function Increment(cal: Calendar, w: World, c: Charge): World {
    w.(counters := Bump(w.counters, CounterOf(c.key, Id(cal, c.per, c.at)), c.fuel), log := w.log + [c])
  }

  function Return(w: World, n: nat, k: Key, fuel: int): World {
    w.(pending := w.pending[n := AddTo(Pending(w, n), k, fuel)])
  }

  /** Taken out of the batch, with the period read. */
  function Opened(w: World, f: nat, k: Key, young: bool, o: Outcome): World
    requires f in w.batches
  {
    var n := w.batches[f].node;
    if o.Unread? || (young && (n, k) in w.cache) then Taken(w, f, k) else Remember(Taken(w, f, k), n, k)
  }

  function ChargeFor(w: World, f: nat, k: Key, now: int, young: bool, o: Outcome): Charge
    requires f in w.batches && k in w.batches[f].fuel
  {
    Charge(k, PeriodAt(w, w.batches[f].node, k, young), now, w.batches[f].fuel[k], o.Applied?)
  }

  /** Written or not, and put back unless acknowledged. */
  function Settled(cal: Calendar, w: World, n: nat, c: Charge, o: Outcome): World {
    var w' := if Wrote(o) then Increment(cal, w, c) else w;
    if o.Applied? then w' else Return(w', n, c.key, c.fuel)
  }

  /** One entry of a batch in hand. */
  function ChargeNext(cal: Calendar, w: World, f: nat, k: Key, now: int, young: bool, o: Outcome): World
    requires f in w.batches && k in w.batches[f].fuel
  {
    Settled(cal, Opened(w, f, k, young, o), w.batches[f].node, ChargeFor(w, f, k, now, young, o), o)
  }

  function Written(w: World, n: nat, ev: Event): World {
    w.(pending := w.pending[n := Accept(Pending(w, n), ev)])
  }

  function Swapped(w: World, n: nat, f: nat): World {
    w.(pending := w.pending[n := map[]], batches := w.batches[f := Batch(n, Pending(w, n))])
  }

  function Defined(w: World, n: nat, k: Key, def: Option<Def>): World {
    Remember(w.(defs := if def.Some? then w.defs[k := def.value] else w.defs - {k}), n, k)
  }

  function Next(cal: Calendar, w: World, s: Step): World {
    match s
    case Write(n, ev) => Written(w, n, ev)
    case Swap(n, f) =>
      if f in w.batches && w.batches[f].fuel != map[] then w else Swapped(w, n, f)
    case ChargeOne(f, k, now, young, o) =>
      if f in w.batches && k in w.batches[f].fuel then ChargeNext(cal, w, f, k, now, young, o) else w
    case Define(n, k, def) => Defined(w, n, k, def)
    case Look(n, k) => Remember(w, n, k)
  }

  function Run(cal: Calendar, defs: map<Key, Def>, steps: seq<Step>): World {
    if steps == [] then World(map[], map[], map[], map[], defs, [])
    else Next(cal, Run(cal, defs, steps[..|steps| - 1]), steps[|steps| - 1])
  }

  // ---------------------------------------------------------------- conservation

  function OfKey(k: Key): (nat, map<Key, int>) -> int { (n, m) => Get(m, k) }

  function OfBatch(k: Key): (nat, Batch) -> int { (f: nat, b: Batch) => Get(b.fuel, k) }

  ghost function Waiting(w: World, k: Key): int { Tally(w.pending, OfKey(k)) }

  ghost function InHand(w: World, k: Key): int { Tally(w.batches, OfBatch(k)) }

  function LogSum(log: seq<Charge>, p: Charge -> bool): int {
    if log == [] then 0
    else LogSum(log[..|log| - 1], p) + if p(log[|log| - 1]) then log[|log| - 1].fuel else 0
  }

  function Unsure(k: Key): Charge -> bool { (c: Charge) => c.key == k && !c.acknowledged }

  /** Fuel written without the writer learning of it, so written once more later. */
  function Repeated(w: World, k: Key): int { LogSum(w.log, Unsure(k)) }

  /** Fuel the events of a run bring in for an allowance. */
  function Accepted(steps: seq<Step>, k: Key): int {
    if steps == [] then 0 else Accepted(steps[..|steps| - 1], k) + Fed(steps[|steps| - 1], k)
  }

  function Fed(s: Step, k: Key): int {
    if s.Write? && Metered(s.ev) && Key(s.ev.tenant, s.ev.allowance) == k then s.ev.fuel else 0
  }

  ghost function Balance(w: World, k: Key): int {
    Waiting(w, k) + InHand(w, k) + Counted(w.counters, k) - Repeated(w, k)
  }

  ghost predicate Inv(w: World) {
    && (forall n :: n in w.pending ==> Fuels(w.pending[n]))
    && (forall f :: f in w.batches ==> Fuels(w.batches[f].fuel))
  }

  lemma ReturnBalance(w: World, n: nat, k: Key, fuel: int, l: Key)
    ensures Balance(Return(w, n, k, fuel), l) == Balance(w, l) + if l == k then fuel else 0
  {
    TallyPut(w.pending, OfKey(l), n, AddTo(Pending(w, n), k, fuel));
  }

  lemma TakenBalance(w: World, f: nat, k: Key, l: Key)
    requires f in w.batches && k in w.batches[f].fuel
    ensures Balance(Taken(w, f, k), l) == Balance(w, l) - if l == k then w.batches[f].fuel[k] else 0
  {
    TallyPut(w.batches, OfBatch(l), f, w.batches[f].(fuel := w.batches[f].fuel - {k}));
  }

  lemma IncrementBalance(cal: Calendar, w: World, c: Charge, l: Key)
    requires ValidName(c.key.name) && ValidName(l.name)
    ensures Balance(Increment(cal, w, c), l) == Balance(w, l) + if l == c.key && c.acknowledged then c.fuel else 0
  {
    BumpCounted(w.counters, l, c.key, Id(cal, c.per, c.at), c.fuel);
    LogSumPush(w.log, c, Unsure(l));
  }

  lemma SettledBalance(cal: Calendar, w: World, n: nat, c: Charge, o: Outcome, l: Key)
    requires ValidName(c.key.name) && ValidName(l.name) && c.acknowledged == o.Applied?
    ensures Balance(Settled(cal, w, n, c, o), l) == Balance(w, l) + if l == c.key then c.fuel else 0
  {
    IncrementBalance(cal, w, c, l);
    var w' := if Wrote(o) then Increment(cal, w, c) else w;
    ReturnBalance(w', n, c.key, c.fuel, l);
  }

  lemma ChargeBalance(cal: Calendar, w: World, f: nat, k: Key, now: int, young: bool, o: Outcome, l: Key)
    requires Inv(w) && ValidName(l.name) && f in w.batches && k in w.batches[f].fuel
    ensures Balance(ChargeNext(cal, w, f, k, now, young, o), l) == Balance(w, l)
  {
    TakenBalance(w, f, k, l);
    SettledBalance(cal, Opened(w, f, k, young, o), w.batches[f].node, ChargeFor(w, f, k, now, young, o), o, l);
  }

  lemma WrittenBalance(w: World, n: nat, ev: Event, k: Key)
    ensures Balance(Written(w, n, ev), k) == Balance(w, k) + Fed(Write(n, ev), k)
  {
    TallyPut(w.pending, OfKey(k), n, Accept(Pending(w, n), ev));
  }

  lemma SwappedBalance(w: World, n: nat, f: nat, k: Key)
    requires f in w.batches ==> w.batches[f].fuel == map[]
    ensures Balance(Swapped(w, n, f), k) == Balance(w, k)
  {
    TallyPut(w.pending, OfKey(k), n, map[]);
    TallyPut(w.batches, OfBatch(k), f, Batch(n, Pending(w, n)));
  }

  lemma StepBalance(cal: Calendar, w: World, s: Step, k: Key)
    requires Inv(w) && ValidName(k.name)
    ensures Balance(Next(cal, w, s), k) == Balance(w, k) + Fed(s, k)
  {
    match s
    case Write(n, ev) => WrittenBalance(w, n, ev, k);
    case Swap(n, f) =>
      if f !in w.batches || w.batches[f].fuel == map[] { SwappedBalance(w, n, f, k); }
    case ChargeOne(f, l, now, young, o) =>
      if f in w.batches && l in w.batches[f].fuel { ChargeBalance(cal, w, f, l, now, young, o, k); }
    case _ =>
  }

  lemma PendingInv(w: World, n: nat, m: map<Key, int>)
    requires Inv(w) && Fuels(m)
    ensures Inv(w.(pending := w.pending[n := m]))
  {
  }

  lemma BatchInv(w: World, f: nat, b: Batch)
    requires Inv(w) && Fuels(b.fuel)
    ensures Inv(w.(batches := w.batches[f := b]))
  {
  }

  lemma ChargeInv(cal: Calendar, w: World, f: nat, k: Key, now: int, young: bool, o: Outcome)
    requires Inv(w) && f in w.batches && k in w.batches[f].fuel
    ensures Inv(ChargeNext(cal, w, f, k, now, young, o))
  {
    BatchInv(w, f, w.batches[f].(fuel := w.batches[f].fuel - {k}));
    var n, c, w1 := w.batches[f].node, ChargeFor(w, f, k, now, young, o), Opened(w, f, k, young, o);
    assert Inv(w1);
    var w2 := if Wrote(o) then Increment(cal, w1, c) else w1;
    assert Inv(w2);
    assert Fuels(Pending(w2, n));
    PendingInv(w2, n, AddTo(Pending(w2, n), k, c.fuel));
  }

  lemma StepInv(cal: Calendar, w: World, s: Step)
    requires Inv(w)
    ensures Inv(Next(cal, w, s))
  {
    match s
    case Write(n, ev) => PendingInv(w, n, Accept(Pending(w, n), ev));
    case Swap(n, f) =>
      PendingInv(w, n, map[]);
      BatchInv(w.(pending := w.pending[n := map[]]), f, Batch(n, Pending(w, n)));
    case ChargeOne(f, k, now, young, o) =>
      if f in w.batches && k in w.batches[f].fuel { ChargeInv(cal, w, f, k, now, young, o); }
    case _ =>
  }

  lemma {:induction false} RunInv(cal: Calendar, defs: map<Key, Def>, steps: seq<Step>)
    ensures Inv(Run(cal, defs, steps))
  {
    if steps != [] {
      RunInv(cal, defs, steps[..|steps| - 1]);
      StepInv(cal, Run(cal, defs, steps[..|steps| - 1]), steps[|steps| - 1]);
    }
  }

  /** Fuel is conserved, per allowance, in every interleaving: what was accepted
      is pending, in a batch or in the counters, and the counters exceed that
      only by writes the KV made without acknowledging them. */
  lemma {:induction false} Conserved(cal: Calendar, defs: map<Key, Def>, steps: seq<Step>, k: Key)
    requires ValidName(k.name)
    ensures var w := Run(cal, defs, steps);
      Waiting(w, k) + InHand(w, k) + Counted(w.counters, k) == Accepted(steps, k) + Repeated(w, k)
  {
    if steps != [] {
      var pre := steps[..|steps| - 1];
      Conserved(cal, defs, pre, k);
      RunInv(cal, defs, pre);
      StepBalance(cal, Run(cal, defs, pre), steps[|steps| - 1], k);
    }
  }

  /** The KV writes a charge, the writer does not learn of it, and sends it
      again. */
  function Resent(ev: Event, now: int): seq<Step> {
    var k := Key(ev.tenant, ev.allowance);
    [Write(0, ev), Swap(0, 0), ChargeOne(0, k, now, false, Unacknowledged),
     Swap(0, 0), ChargeOne(0, k, now, false, Applied)]
  }

  lemma RunSnoc(cal: Calendar, defs: map<Key, Def>, steps: seq<Step>, s: Step)
    ensures Run(cal, defs, steps + [s]) == Next(cal, Run(cal, defs, steps), s)
  {
    assert (steps + [s])[..|steps|] == steps;
  }

  /** For every metered event that run leaves twice its fuel in the counters,
      with nothing pending or in hand. */
  lemma ResentCountsTwice(cal: Calendar, ev: Event, now: int)
    requires Metered(ev)
    ensures
      var (k, steps) := (Key(ev.tenant, ev.allowance), Resent(ev, now));
      var w := Run(cal, map[], steps);
      && Accepted(steps, k) == ev.fuel == Repeated(w, k)
      && Waiting(w, k) == InHand(w, k) == 0 && Counted(w.counters, k) == 2 * ev.fuel
      && Read(w.counters, CounterOf(k, Id(cal, DEFAULT_PERIOD, now))) == 2 * ev.fuel
  {
    var k, all, c := Key(ev.tenant, ev.allowance), Resent(ev, now), Resend(ev, now, false);
    ResentFirst(cal, ev, now);
    ResentSecond(cal, ev, now);
    var w4 := Run(cal, map[], all[..4]);
    RunSnoc(cal, map[], all[..4], all[4]);
    assert all == all[..4] + [all[4]];
    ChargeHand(cal, k, ev.fuel, w4.counters, w4.cache, w4.log, now, Applied);
    ResentFed(ev, now);
    ResentSums(cal, ev, now, Run(cal, map[], all));
    CounterIsLog(cal, map[], all, CounterOf(k, Id(cal, c.per, now)));
    LogSumPush([c], Resend(ev, now, true), Into(cal, CounterOf(k, Id(cal, c.per, now))));
    LogSumPush([], c, Into(cal, CounterOf(k, Id(cal, c.per, now))));
  }

  function Resend(ev: Event, now: int, acknowledged: bool): Charge {
    Charge(Key(ev.tenant, ev.allowance), DEFAULT_PERIOD, now, ev.fuel, acknowledged)
  }

  /** The fuel in hand; or settled, back in pending unless acknowledged. */
  function Hand(k: Key, fuel: int, cs: map<CounterKey, int>, cache: map<(nat, Key), Period>, log: seq<Charge>): World {
    World(map[0 := map[]], map[0 := Batch(0, map[k := fuel])], cs, cache, map[], log)
  }

  function Off(k: Key, fuel: int, o: Outcome, cs: map<CounterKey, int>, cache: map<(nat, Key), Period>,
               log: seq<Charge>): World
  {
    World(map[0 := if o.Applied? then map[] else map[k := fuel]], map[0 := Batch(0, map[])], cs, cache, map[], log)
  }

  /** A charge of the only entry in hand, with no definition to read. */
  lemma ChargeHand(cal: Calendar, k: Key, fuel: int, cs: map<CounterKey, int>, cache: map<(nat, Key), Period>,
                   log: seq<Charge>, now: int, o: Outcome)
    requires Wrote(o)
    ensures
      var (w, e) := (Hand(k, fuel, cs, cache, log), Charge(k, DEFAULT_PERIOD, now, fuel, o.Applied?));
      var to := Next(cal, w, ChargeOne(0, k, now, false, o));
      to == Off(k, fuel, o, to.counters, to.cache, log + [e])
  {
    var w := Hand(k, fuel, cs, cache, log);
    OpenedHand(k, fuel, cs, cache, log, o);
    ChargeTables(cal, w, 0, k, now, false, o);
    SettledPlaces(cal, Opened(w, 0, k, false, o), 0, ChargeFor(w, 0, k, now, false, o), o);
  }

  lemma OpenedHand(k: Key, fuel: int, cs: map<CounterKey, int>, cache: map<(nat, Key), Period>, log: seq<Charge>,
                   o: Outcome)
    ensures
      var w1 := Opened(Hand(k, fuel, cs, cache, log), 0, k, false, o);
      w1.batches == map[0 := Batch(0, map[])] && w1.pending == map[0 := map[]]
  {
    assert map[k := fuel] - {k} == map[];
  }

  lemma SettledPlaces(cal: Calendar, w: World, n: nat, c: Charge, o: Outcome)
    ensures
      var to := Settled(cal, w, n, c, o);
      && to.batches == w.batches
      && to.pending == if o.Applied? then w.pending else w.pending[n := AddTo(Pending(w, n), c.key, c.fuel)]
  {
  }

  lemma ResentFirst(cal: Calendar, ev: Event, now: int)
    requires Metered(ev)
    ensures Run(cal, map[], Resent(ev, now)[..2]) == Hand(Key(ev.tenant, ev.allowance), ev.fuel, map[], map[], [])
  {
    var k, all := Key(ev.tenant, ev.allowance), Resent(ev, now);
    RunSnoc(cal, map[], [], all[0]);
    RunSnoc(cal, map[], all[..1], all[1]);
    assert all[..1] == [] + [all[0]] && all[..2] == all[..1] + [all[1]];
    assert Run(cal, map[], all[..1]).pending == map[0 := map[k := ev.fuel]];
  }

  lemma ResentSecond(cal: Calendar, ev: Event, now: int)
    requires Metered(ev)
    ensures
      var w4 := Run(cal, map[], Resent(ev, now)[..4]);
      w4 == Hand(Key(ev.tenant, ev.allowance), ev.fuel, w4.counters, w4.cache, [Resend(ev, now, false)])
  {
    var k, all := Key(ev.tenant, ev.allowance), Resent(ev, now);
    ResentFirst(cal, ev, now);
    ChargeHand(cal, k, ev.fuel, map[], map[], [], now, Unacknowledged);
    RunSnoc(cal, map[], all[..2], all[2]);
    RunSnoc(cal, map[], all[..3], all[3]);
    assert all[..3] == all[..2] + [all[2]] && all[..4] == all[..3] + [all[3]];
    var w3 := Run(cal, map[], all[..3]);
    assert [] + [Resend(ev, now, false)] == [Resend(ev, now, false)];
    SwapOff(cal, k, ev.fuel, w3.counters, w3.cache, w3.log);
  }

  /** The next flush takes the fuel in hand again. */
  lemma SwapOff(cal: Calendar, k: Key, fuel: int, cs: map<CounterKey, int>, cache: map<(nat, Key), Period>,
                log: seq<Charge>)
    ensures Next(cal, Off(k, fuel, Unacknowledged, cs, cache, log), Swap(0, 0)) == Hand(k, fuel, cs, cache, log)
  {
  }

  lemma ResentFed(ev: Event, now: int)
    requires Metered(ev)
    ensures Accepted(Resent(ev, now), Key(ev.tenant, ev.allowance)) == ev.fuel
  {
    var k, steps := Key(ev.tenant, ev.allowance), Resent(ev, now);
    assert steps[..4][..3] == steps[..3] && steps[..3][..2] == steps[..2] && steps[..2][..1] == steps[..1];
    assert Accepted(steps[..1], k) == ev.fuel;
    assert Accepted(steps[..2], k) == ev.fuel;
    assert Accepted(steps[..3], k) == ev.fuel;
    assert Accepted(steps[..4], k) == ev.fuel;
  }

  lemma ResentSums(cal: Calendar, ev: Event, now: int, w: World)
    requires Metered(ev) && w == Run(cal, map[], Resent(ev, now))
    requires w.pending == map[0 := map[]] && w.batches == map[0 := Batch(0, map[])]
    requires w.log == [Resend(ev, now, false), Resend(ev, now, true)]
    ensures
      var k := Key(ev.tenant, ev.allowance);
      Repeated(w, k) == ev.fuel && Waiting(w, k) == InHand(w, k) == 0 && Counted(w.counters, k) == 2 * ev.fuel
  {
    var k, c := Key(ev.tenant, ev.allowance), Resend(ev, now, false);
    assert w.log == [] + [c] + [Resend(ev, now, true)];
    LogSumPush([c], Resend(ev, now, true), Unsure(k));
    LogSumPush([], c, Unsure(k));
    var m: map<nat, map<Key, int>>, b: map<nat, Batch> := map[], map[];
    TallyPut(m, OfKey(k), 0, map[]);
    TallyPut(b, OfBatch(k), 0, Batch(0, map[]));
    assert w.pending == m[0 := map[]] && w.batches == b[0 := Batch(0, map[])];
    ResentFed(ev, now);
    Conserved(cal, map[], Resent(ev, now), k);
  }

  // --------------------------------------------------------- what a counter says

  function Into(cal: Calendar, c: CounterKey): Charge -> bool {
    (e: Charge) => CounterOf(e.key, Id(cal, e.per, e.at)) == c
  }

  /** A step that writes to the KV. */
  predicate Writes(w: World, s: Step) {
    s.ChargeOne? && s.flush in w.batches && s.key in w.batches[s.flush].fuel && Wrote(s.outcome)
  }

  function Writing(w: World, s: Step): Charge
    requires Writes(w, s)
  {
    ChargeFor(w, s.flush, s.key, s.now, s.young, s.outcome)
  }

  lemma OpenedTables(w: World, f: nat, k: Key, young: bool, o: Outcome)
    requires f in w.batches
    ensures var to := Opened(w, f, k, young, o);
      && to.log == w.log && to.counters == w.counters && to.defs == w.defs
      && (to.cache == w.cache || to.cache == w.cache[(w.batches[f].node, k) := Effective(w.defs, k)])
  {
  }

  lemma SettledTables(cal: Calendar, w: World, n: nat, c: Charge, o: Outcome)
    ensures var to := Settled(cal, w, n, c, o);
      && to.defs == w.defs && to.cache == w.cache
      && to.log == (if Wrote(o) then w.log + [c] else w.log)
      && to.counters == (if Wrote(o) then Increment(cal, w, c).counters else w.counters)
  {
  }

  lemma ChargeTables(cal: Calendar, w: World, f: nat, k: Key, now: int, young: bool, o: Outcome)
    requires f in w.batches && k in w.batches[f].fuel
    ensures var to, c := ChargeNext(cal, w, f, k, now, young, o), ChargeFor(w, f, k, now, young, o);
      && to.defs == w.defs
      && (to.cache == w.cache || to.cache == w.cache[(w.batches[f].node, k) := Effective(w.defs, k)])
      && to.log == (if Wrote(o) then w.log + [c] else w.log)
      && to.counters == (if Wrote(o) then Increment(cal, w, c).counters else w.counters)
  {
    OpenedTables(w, f, k, young, o);
    SettledTables(cal, Opened(w, f, k, young, o), w.batches[f].node, ChargeFor(w, f, k, now, young, o), o);
  }

  lemma NextTables(cal: Calendar, w: World, s: Step)
    ensures var to := Next(cal, w, s);
      if Writes(w, s) then
        && to.log == w.log + [Writing(w, s)]
        && to.counters == Increment(cal, w, Writing(w, s)).counters
      else to.log == w.log && to.counters == w.counters
  {
    if s.ChargeOne? && s.flush in w.batches && s.key in w.batches[s.flush].fuel {
      ChargeTables(cal, w, s.flush, s.key, s.now, s.young, s.outcome);
    }
  }

  lemma BumpIsLog(cal: Calendar, w: World, e: Charge, c: CounterKey)
    requires Read(w.counters, c) == LogSum(w.log, Into(cal, c))
    ensures var to := Increment(cal, w, e); Read(to.counters, c) == LogSum(to.log, Into(cal, c))
  {
    LogSumPush(w.log, e, Into(cal, c));
  }

  lemma NextLog(cal: Calendar, w: World, s: Step, c: CounterKey)
    requires Read(w.counters, c) == LogSum(w.log, Into(cal, c))
    ensures var to := Next(cal, w, s); Read(to.counters, c) == LogSum(to.log, Into(cal, c))
  {
    NextTables(cal, w, s);
    if Writes(w, s) { BumpIsLog(cal, w, Writing(w, s), c); }
  }

  lemma LogSumPush(log: seq<Charge>, e: Charge, p: Charge -> bool)
    ensures LogSum(log + [e], p) == LogSum(log, p) + if p(e) then e.fuel else 0
  {
    assert (log + [e])[..|log|] == log;
  }

  /** A counter holds the increments made to it. */
  lemma {:induction false} CounterIsLog(cal: Calendar, defs: map<Key, Def>, steps: seq<Step>, c: CounterKey)
    ensures var w := Run(cal, defs, steps); Read(w.counters, c) == LogSum(w.log, Into(cal, c))
  {
    if steps != [] {
      var w, s := Run(cal, defs, steps[..|steps| - 1]), steps[|steps| - 1];
      CounterIsLog(cal, defs, steps[..|steps| - 1], c);
      NextLog(cal, w, s, c);
    }
  }

  predicate SameWindow(cal: Calendar, p: Period, t: int, u: int) {
    Start(cal, p, t) <= u < End(cal, p, t)
  }

  function During(cal: Calendar, k: Key, p: Period, t: int): Charge -> bool {
    (e: Charge) => e.key == k && e.per == p && SameWindow(cal, p, t, e.at)
  }

  ghost predicate Named(log: seq<Charge>) {
    forall i :: 0 <= i < |log| ==> ValidName(log[i].key.name)
  }

  lemma {:induction false} RunNamed(cal: Calendar, defs: map<Key, Def>, steps: seq<Step>)
    ensures Named(Run(cal, defs, steps).log)
  {
    if steps != [] {
      RunNamed(cal, defs, steps[..|steps| - 1]);
      RunInv(cal, defs, steps[..|steps| - 1]);
      NextNamed(cal, Run(cal, defs, steps[..|steps| - 1]), steps[|steps| - 1]);
    }
  }

  lemma NextNamed(cal: Calendar, w: World, s: Step)
    requires Inv(w) && Named(w.log)
    ensures Named(Next(cal, w, s).log)
  {
    NextTables(cal, w, s);
    if Writes(w, s) { assert Fuels(w.batches[s.flush].fuel); }
  }

  /** Hitting a counter means the same allowance, period and window. */
  lemma IntoIsDuring(cal: Calendar, k: Key, p: Period, t: int, e: Charge)
    requires ValidName(k.name) && ValidName(e.key.name)
    ensures Into(cal, CounterOf(k, Id(cal, p, t)))(e) == During(cal, k, p, t)(e)
  {
    IdNamesWindow(cal, p, t, e.per, e.at);
    if CounterOf(e.key, Id(cal, e.per, e.at)) == CounterOf(k, Id(cal, p, t)) {
      NameEnds(e.key.name, k.name, Id(cal, e.per, e.at), Id(cal, p, t));
    }
  }

  lemma {:induction false} LogSumAgree(log: seq<Charge>, p: Charge -> bool, q: Charge -> bool)
    requires forall i :: 0 <= i < |log| ==> p(log[i]) == q(log[i])
    ensures LogSum(log, p) == LogSum(log, q)
  {
    if log != [] { LogSumAgree(log[..|log| - 1], p, q); }
  }

  /** The counter of a window holds exactly what was charged by that period
      inside it. */
  lemma CounterIsWindow(cal: Calendar, defs: map<Key, Def>, steps: seq<Step>, k: Key, p: Period, t: int)
    requires ValidName(k.name)
    ensures var w := Run(cal, defs, steps);
      Read(w.counters, CounterOf(k, Id(cal, p, t))) == LogSum(w.log, During(cal, k, p, t))
  {
    var w, c := Run(cal, defs, steps), CounterOf(k, Id(cal, p, t));
    CounterIsLog(cal, defs, steps, c);
    RunNamed(cal, defs, steps);
    forall i | 0 <= i < |w.log| ensures Into(cal, c)(w.log[i]) == During(cal, k, p, t)(w.log[i]) {
      IntoIsDuring(cal, k, p, t, w.log[i]);
    }
    LogSumAgree(w.log, Into(cal, c), During(cal, k, p, t));
  }

  // ------------------------------------------------------------------- status

  function StatusOf(cal: Calendar, w: World, k: Key, now: int): Status {
    StatusFor(cal, w.counters, w.defs, k, now)
  }

  /** No definition of k in the run has another period than p. */
  ghost predicate Steady(defs: map<Key, Def>, steps: seq<Step>, k: Key, p: Period) {
    && Effective(defs, k) == p
    && forall i :: 0 <= i < |steps| && steps[i].Define? && steps[i].key == k ==>
        p == if steps[i].def.Some? then steps[i].def.value.per else DEFAULT_PERIOD
  }

  ghost predicate AllOf(w: World, k: Key, p: Period) {
    && Effective(w.defs, k) == p
    && (forall n :: (n, k) in w.cache ==> w.cache[(n, k)] == p)
    && (forall i :: 0 <= i < |w.log| && w.log[i].key == k ==> w.log[i].per == p)
  }

  lemma {:induction false} SteadyPeriod(cal: Calendar, defs: map<Key, Def>, steps: seq<Step>, k: Key, p: Period)
    requires Steady(defs, steps, k, p)
    ensures AllOf(Run(cal, defs, steps), k, p)
  {
    if steps != [] {
      SteadyPeriod(cal, defs, steps[..|steps| - 1], k, p);
      NextAllOf(cal, Run(cal, defs, steps[..|steps| - 1]), steps[|steps| - 1], k, p);
    }
  }

  lemma NextAllOf(cal: Calendar, w: World, s: Step, k: Key, p: Period)
    requires AllOf(w, k, p)
    requires s.Define? && s.key == k ==> p == if s.def.Some? then s.def.value.per else DEFAULT_PERIOD
    ensures AllOf(Next(cal, w, s), k, p)
  {
    NextTables(cal, w, s);
    NextCache(cal, w, s);
    assert Writes(w, s) && s.key == k ==> Writing(w, s).per == p;
  }

  lemma NextCache(cal: Calendar, w: World, s: Step)
    ensures var to := Next(cal, w, s);
      && (to.defs == if s.Define? then Defined(w, s.node, s.key, s.def).defs else w.defs)
      && (forall nk :: nk in to.cache ==>
        (nk in w.cache && to.cache[nk] == w.cache[nk]) || to.cache[nk] == Effective(to.defs, nk.1))
  {
    if s.ChargeOne? && s.flush in w.batches && s.key in w.batches[s.flush].fuel {
      ChargeTables(cal, w, s.flush, s.key, s.now, s.young, s.outcome);
    }
  }

  function InWindow(cal: Calendar, k: Key, p: Period, t: int): Charge -> bool {
    (e: Charge) => e.key == k && SameWindow(cal, p, t, e.at)
  }

  /** With an unchanging period, what a status reports as used is all the fuel
      charged to the allowance, by any node, inside the current window; the
      allowance is exhausted exactly when that reaches its fuel, and what
      remains is the difference. */
  lemma UsedIsWindowSum(cal: Calendar, defs: map<Key, Def>, steps: seq<Step>, k: Key, p: Period, now: int)
    requires ValidName(k.name) && Steady(defs, steps, k, p)
    ensures
      var w := Run(cal, defs, steps);
      var st, sum := StatusOf(cal, w, k, now), LogSum(w.log, InWindow(cal, k, p, now));
      && st.used == sum && st.resetsAt == End(cal, p, now) && now < st.resetsAt
      && (st.Exhausted() <==> k in w.defs && sum >= w.defs[k].fuel)
      && (k in w.defs ==> st.Remaining() == if sum >= w.defs[k].fuel then 0 else w.defs[k].fuel - sum)
  {
    var w := Run(cal, defs, steps);
    SteadyPeriod(cal, defs, steps, k, p);
    CounterIsWindow(cal, defs, steps, k, p, now);
    LogSumAgree(w.log, During(cal, k, p, now), InWindow(cal, k, p, now));
    Tiling(cal, p, now, now);
  }

  /** The Gregorian calendar is one of those the results above hold for. */
  lemma Gregorian() returns (cal: Calendar)
    ensures cal == Civil.MonthStart
  {
    Civil.GregorianMonths();
    cal := Civil.MonthStart;
  }
}
