/** Metering fuel against a tenant's allowances. Usage events collect in a
    node's pending table; a flush swaps the table out and charges each entry to
    the counter of the current window, putting back what could not be written.
    Nodes share definitions and counters through the tenant's KV. */
module Allowance {
  import opened Wrappers
  import opened Sums
  import opened Windows

  datatype Key = Key(tenant: string, name: string)
  datatype Def = Def(fuel: int, per: Period)
  datatype Event = Event(tenant: string, allowance: string, billable: bool, fuel: int)

  const MAX_NAME := 64
  const DEFAULT_PERIOD := Day

  predicate Alphanumeric(c: char) { 'a' <= c <= 'z' || '0' <= c <= '9' }

  predicate ValidName(s: string) {
    && 1 <= |s| <= MAX_NAME
    && forall i :: 0 <= i < |s| ==> Alphanumeric(s[i]) || (i > 0 && s[i] in ['.', '_', '-'])
  }

  // -------------------------------------------------------- what a node collects

  function Get(m: map<Key, int>, k: Key): int { if k in m then m[k] else 0 }

  function AddTo(m: map<Key, int>, k: Key, fuel: int): map<Key, int> { m[k := Get(m, k) + fuel] }

  /** Billable fuel spent under an allowance, and nothing else. */
  predicate Metered(ev: Event) {
    ev.allowance != "" && ev.billable && ev.fuel > 0 && ev.tenant != "" && ValidName(ev.allowance)
  }

  function Accept(m: map<Key, int>, ev: Event): map<Key, int> {
    if Metered(ev) then AddTo(m, Key(ev.tenant, ev.allowance), ev.fuel) else m
  }

  /** `[a-z0-9][a-z0-9._-]{0,63}`. */
  predicate Named(s: string) {
    && s != "" && ('0' <= s[0] <= '9' || 'a' <= s[0] <= 'z') && |s[1..]| <= 63
    && forall c :: c in s[1..] ==> '0' <= c <= '9' || 'a' <= c <= 'z' || c == '.' || c == '_' || c == '-'
  }

  lemma NamedExactly(s: string)
    ensures Named(s) <==> ValidName(s)
  {
    if s != "" {
      var rest := s[1..];
      assert forall i :: 0 <= i < |rest| ==> rest[i] == s[i + 1] && rest[i] in rest;
      assert forall i :: 0 < i < |s| ==> s[i] == rest[i - 1];
    }
  }

  /** An event adds its fuel to the pending use of its own allowance, when it is
      billable, positive and names a tenant and an allowance; else nothing. */
  lemma AcceptExactly(m: map<Key, int>, ev: Event, k: Key)
    ensures
      var adds := && ev.billable && ev.fuel > 0 && ev.tenant != "" && Named(ev.allowance)
                  && k == Key(ev.tenant, ev.allowance);
      && Get(Accept(m, ev), k) == Get(m, k) + (if adds then ev.fuel else 0)
      && (k in Accept(m, ev) <==> k in m || adds)
  {
    NamedExactly(ev.allowance);
  }

  predicate Fuels(m: map<Key, int>) {
    forall k :: k in m ==> m[k] > 0 && ValidName(k.name)
  }

  // ------------------------------------------------------------- the counters

  datatype CounterKey = CounterKey(tenant: string, text: string)

  function CounterOf(k: Key, id: string): CounterKey { CounterKey(k.tenant, k.name + "@" + id) }

  predicate Mine(c: CounterKey, k: Key) { c.tenant == k.tenant && k.name + "@" <= c.text }

  function Read(counters: map<CounterKey, int>, c: CounterKey): int {
    if c in counters then counters[c] else 0
  }

  function Bump(counters: map<CounterKey, int>, c: CounterKey, fuel: int): map<CounterKey, int> {
    counters[c := Read(counters, c) + fuel]
  }

  function MineOnly(k: Key): (CounterKey, int) -> int { (c, v) => if Mine(c, k) then v else 0 }

  /** All that stands in an allowance's counters, over every window. */
  ghost function Counted(counters: map<CounterKey, int>, k: Key): int { Tally(counters, MineOnly(k)) }

  function Effective(defs: map<Key, Def>, k: Key): Period {
    if k in defs then defs[k].per else DEFAULT_PERIOD
  }

  lemma NameEnds(a: string, b: string, s: string, t: string)
    requires ValidName(a) && ValidName(b) && a + "@" + s == b + "@" + t
    ensures a == b && s == t
  {
    var u := a + "@" + s;
    assert u[|a|] == '@' && u[|b|] == '@';
    assert forall i :: 0 <= i < |a| ==> u[i] == a[i];
    assert forall i :: 0 <= i < |b| ==> u[i] == b[i];
    assert |a| == |b|;
    assert a == u[..|a|] && b == u[..|a|] && s == u[|a| + 1..] && t == u[|a| + 1..];
  }

  /** A counter belongs to one allowance. */
  lemma OneOwner(k: Key, l: Key, id: string)
    requires ValidName(k.name) && ValidName(l.name)
    ensures Mine(CounterOf(l, id), k) <==> k == l
  {
    var c := CounterOf(l, id);
    if Mine(c, k) {
      NameEnds(k.name, l.name, c.text[|k.name| + 1..], id);
    }
  }

  lemma BumpCounted(counters: map<CounterKey, int>, k: Key, l: Key, id: string, fuel: int)
    requires ValidName(k.name) && ValidName(l.name)
    ensures Counted(Bump(counters, CounterOf(l, id), fuel), k) == Counted(counters, k) + if k == l then fuel else 0
  {
    var c := CounterOf(l, id);
    OneOwner(k, l, id);
    TallyPut(counters, MineOnly(k), c, Read(counters, c) + fuel);
  }

  /** One allowance's current window. */
  datatype Status = Status(defined: bool, fuel: int, per: Period, used: int, resetsAt: int) {
    function Remaining(): int { if !defined || used >= fuel then 0 else fuel - used }
    predicate Exhausted() { defined && used >= fuel }
  }

  function StatusFor(cal: Calendar, counters: map<CounterKey, int>, defs: map<Key, Def>, k: Key, now: int): Status {
    var per := Effective(defs, k);
    Status(k in defs, if k in defs then defs[k].fuel else 0, per, Used(cal, counters, k, per, now), End(cal, per, now))
  }

  function Used(cal: Calendar, counters: map<CounterKey, int>, k: Key, per: Period, now: int): int {
    Read(counters, CounterOf(k, Id(cal, per, now)))
  }

  /** An allowance nobody defined is metered by the day, and grants nothing. */
  lemma UndefinedIsDaily(cal: Calendar, counters: map<CounterKey, int>, defs: map<Key, Def>, k: Key, now: int)
    requires k !in defs
    ensures
      var st := StatusFor(cal, counters, defs, k, now);
      && !st.defined && st.fuel == 0 && st.per == Day && st.resetsAt == (now / DAY + 1) * DAY
      && st.used == Read(counters, CounterKey(k.tenant, k.name + "@" + Id(cal, Day, now)))
      && st.Remaining() == 0 && !st.Exhausted()
  {
  }

  function Hits(cal: Calendar, counters: map<CounterKey, int>, k: Key, periods: seq<Period>, now: int): seq<int> {
    seq(|periods|, i requires 0 <= i < |periods| => Used(cal, counters, k, periods[i], now))
  }

  function Ends(cal: Calendar, periods: seq<Period>, now: int): seq<int> {
    seq(|periods|, i requires 0 <= i < |periods| => End(cal, periods[i], now))
  }

  /** The loop over the periods. */
  method Pick(periods: seq<Period>, hits: seq<int>, ends: seq<int>, per: Period, ghost at: nat)
      returns (used: int, resetsAt: int)
    requires |hits| == |ends| == |periods| && at < |periods| && periods[at] == per
    requires forall i, j :: 0 <= i < j < |periods| ==> periods[i] != periods[j]
    ensures used == hits[at] && resetsAt == ends[at]
  {
    used, resetsAt := 0, 0;
    for i := 0 to |periods|
      invariant at < i ==> used == hits[at] && resetsAt == ends[at]
    {
      if periods[i] == per { used, resetsAt := hits[i], ends[i]; }
    }
  }

  // --------------------------------------------------- one node, on its own

  datatype Outcome = Applied | Failed | Unacknowledged | Unread

  predicate Wrote(o: Outcome) { o.Applied? || o.Unacknowledged? }

  class Store {
    var counters: map<CounterKey, int>
    var defs: map<Key, Def>
    var cache: map<Key, Period>

    constructor ()
      ensures counters == map[] && defs == map[] && cache == map[]
    {
      counters, defs, cache := map[], map[], map[];
    }

    method Set(k: Key, d: Def) returns (ok: bool)
      modifies this`defs, this`cache
      ensures ok <==> ValidName(k.name) && d.fuel > 0
      ensures defs == if ok then old(defs)[k := d] else old(defs)
      ensures cache == if ok then old(cache)[k := d.per] else old(cache)
    {
      if !ValidName(k.name) || d.fuel <= 0 { return false; }
      defs := defs[k := d];
      cache := cache[k := d.per];
      return true;
    }

    method Delete(k: Key) returns (ok: bool)
      modifies this`defs, this`cache
      ensures ok <==> ValidName(k.name)
      ensures defs == if ok then old(defs) - {k} else old(defs)
      ensures cache == if ok then old(cache)[k := DEFAULT_PERIOD] else old(cache)
    {
      if !ValidName(k.name) { return false; }
      defs := defs - {k};
      cache := cache[k := DEFAULT_PERIOD];
      return true;
    }

    /** The counters of all three windows are read along with the definition;
        the loop picks the one its period says. */
    method Report(cal: Calendar, k: Key, now: int) returns (st: Option<Status>)
      modifies this`cache
      ensures st == if ValidName(k.name) then Some(StatusFor(cal, counters, defs, k, now)) else None
      ensures cache == if ValidName(k.name) then old(cache)[k := Effective(defs, k)] else old(cache)
    {
      if !ValidName(k.name) { return None; }
      var periods := [Hour, Day, Month];
      var hits, ends := Hits(cal, counters, k, periods, now), Ends(cal, periods, now);
      var per := DEFAULT_PERIOD;
      var defined, fuel := k in defs, 0;
      if defined { fuel, per := defs[k].fuel, defs[k].per; }
      cache := cache[k := per];
      ghost var i := if per == Hour then 0 else if per == Day then 1 else 2;
      var used, resetsAt := Pick(periods, hits, ends, per, i);
      return Some(Status(defined, fuel, per, used, resetsAt));
    }

    /** The period to count by: the cached one while `young`, else as defined,
        and then remembered unless the definition could not be read. */
    method Period(k: Key, young: bool, readable: bool) returns (per: Period)
      modifies this`cache
      ensures per == PeriodOf(old(cache), defs, k, young)
      ensures cache == Remembered(old(cache), defs, k, young, readable)
    {
      if young && k in cache { return cache[k]; }
      per := Effective(defs, k);
      if readable { cache := cache[k := per]; }
    }

    /** Charge the window the period says. `young` tells whether the cached
        period may be used; `o` what the KV did. */
    method Charge(cal: Calendar, k: Key, fuel: int, now: int, young: bool, o: Outcome) returns (ok: bool)
      modifies this`counters, this`cache
      ensures ok <==> fuel <= 0 || o.Applied?
      ensures fuel <= 0 ==> counters == old(counters) && cache == old(cache)
      ensures fuel > 0 ==> cache == Remembered(old(cache), defs, k, young, !o.Unread?)
      ensures fuel > 0 && !Wrote(o) ==> counters == old(counters)
      ensures fuel > 0 && Wrote(o) ==>
        counters == Bump(old(counters), CounterOf(k, Id(cal, PeriodOf(old(cache), defs, k, young), now)), fuel)
    {
      if fuel <= 0 { return true; }
      var per := Period(k, young, !o.Unread?);
      if Wrote(o) {
        counters := Bump(counters, CounterOf(k, Id(cal, per, now)), fuel);
      }
      return o.Applied?;
    }
  }

  function Remembered(cache: map<Key, Period>, defs: map<Key, Def>, k: Key, young: bool, readable: bool)
    : map<Key, Period>
  {
    if readable && !(young && k in cache) then cache[k := Effective(defs, k)] else cache
  }

  function PeriodOf(cache: map<Key, Period>, defs: map<Key, Def>, k: Key, young: bool): Period {
    if young && k in cache then cache[k] else Effective(defs, k)
  }

  class Tee {
    var pending: map<Key, int>
    const store: Store

    constructor (store: Store)
      ensures pending == map[] && this.store == store
    {
      this.store := store;
      pending := map[];
    }

    method WriteEvent(ev: Event)
      modifies this`pending
      ensures pending == Accept(old(pending), ev)
      ensures Fuels(old(pending)) ==> Fuels(pending)
    {
      if ev.allowance == "" || !ev.billable || ev.fuel <= 0 || ev.tenant == "" || !ValidName(ev.allowance) {
        return;
      }
      pending := AddTo(pending, Key(ev.tenant, ev.allowance), ev.fuel);
    }

    /** Swap the pending table out and write each charge; a failed one goes
        back. With `failing` the keys the KV refuses, those and only those are
        pending afterwards, and no allowance's fuel changes in all. */
    method Flush(cal: Calendar, now: int, young: bool, failing: set<Key>)
      requires Fuels(pending)
      modifies this`pending, store`counters, store`cache
      ensures Fuels(pending) && pending == Refused(old(pending), failing, {})
      ensures Balanced(pending, map[], store.counters, old(pending), old(store.counters))
    {
      var batch := pending;
      pending := map[];
      ghost var p0, c0 := batch, store.counters;
      while batch != map[]
        invariant Fuels(batch) && Within(batch, p0)
        invariant pending == Refused(p0, failing, batch.Keys)
        invariant Balanced(pending, batch, store.counters, p0, c0)
        decreases |batch|
      {
        var k :| k in batch;
        var fuel := batch[k];
        RefusedNext(p0, failing, batch.Keys, k);
        ghost var per := PeriodOf(store.cache, store.defs, k, young);
        if k in failing { PutBack(pending, batch, store.counters, p0, c0, k); }
        else { Written(pending, batch, store.counters, p0, c0, k, Id(cal, per, now)); }
        batch := batch - {k};
        var ok := store.Charge(cal, k, fuel, now, young, if k in failing then Failed else Applied);
        if !ok {
          pending := AddTo(pending, k, fuel);
        }
      }
    }
  }

  /** The entries the KV refused, of those already tried. */
  function Refused(m: map<Key, int>, failing: set<Key>, untried: set<Key>): map<Key, int> {
    map k | k in m && k in failing && k !in untried :: m[k]
  }

  ghost predicate Within(batch: map<Key, int>, m: map<Key, int>) {
    batch.Keys <= m.Keys && forall k :: k in batch ==> batch[k] == m[k]
  }

  lemma RefusedNext(m: map<Key, int>, failing: set<Key>, untried: set<Key>, k: Key)
    requires k in m && k in untried
    ensures Refused(m, failing, untried - {k}) ==
      if k in failing then AddTo(Refused(m, failing, untried), k, m[k]) else Refused(m, failing, untried)
  {
  }

  ghost predicate Conserves(p: map<Key, int>, b: map<Key, int>, c: map<CounterKey, int>,
                            p0: map<Key, int>, c0: map<CounterKey, int>, k: Key)
  {
    Get(p, k) + Get(b, k) + Counted(c, k) == Get(p0, k) + Counted(c0, k)
  }

  ghost predicate Balanced(p: map<Key, int>, b: map<Key, int>, c: map<CounterKey, int>,
                           p0: map<Key, int>, c0: map<CounterKey, int>)
  {
    forall k: Key {:trigger Conserves(p, b, c, p0, c0, k)} :: ValidName(k.name) ==> Conserves(p, b, c, p0, c0, k)
  }

  lemma PutBack(p: map<Key, int>, b: map<Key, int>, c: map<CounterKey, int>,
                p0: map<Key, int>, c0: map<CounterKey, int>, k: Key)
    requires Balanced(p, b, c, p0, c0) && k in b
    ensures Balanced(AddTo(p, k, b[k]), b - {k}, c, p0, c0)
  {
    forall l: Key | ValidName(l.name) ensures Conserves(AddTo(p, k, b[k]), b - {k}, c, p0, c0, l) {
      assert Conserves(p, b, c, p0, c0, l);
    }
  }

  lemma Written(p: map<Key, int>, b: map<Key, int>, c: map<CounterKey, int>,
                p0: map<Key, int>, c0: map<CounterKey, int>, k: Key, id: string)
    requires Balanced(p, b, c, p0, c0) && k in b && ValidName(k.name)
    ensures Balanced(p, b - {k}, Bump(c, CounterOf(k, id), b[k]), p0, c0)
  {
    forall l: Key | ValidName(l.name) ensures Conserves(p, b - {k}, Bump(c, CounterOf(k, id), b[k]), p0, c0, l) {
      assert Conserves(p, b, c, p0, c0, l);
      BumpCounted(c, l, k, id, b[k]);
    }
  }
}
