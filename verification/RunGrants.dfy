/** Run grants: what one piece of work may ask for, until when and within what
    budget. Two tables, `run_grants` and `run_heads`; every transaction is one
    atomic step on them. The functions give the meaning of each operation; the
    class `Store` runs the statements the way the chassis issues them. */
module RunGrants {
  import opened Wrappers

  type Id = string

  const MAX_RUN_DEPTH := 4
  const MAX_RUN_ALLOW := 64
  const MAX_RUN_BUDGET := 1_000_000
  const NANOS := 1_000_000_000
  const MAX_RUN_TTL := 24 * 3600 * NANOS
  const CHUNK := 200

  datatype Resource = Resource(kind: string, name: string)

  datatype Grant = Grant(
    tenant: string, principal: string, mintedBy: string, stack: string, run: string,
    generation: int, allow: seq<Resource>, budget: int, spent: int,
    parent: Option<Id>, depth: int, issued: int, expires: int,
    closed: Option<int>, closeReason: string, revoked: Option<int>)

  datatype RunKey = RunKey(tenant: string, mintedBy: string, run: string)
  datatype Head = Head(generation: int, grant: Id)

  type Table = map<Id, Grant>
  datatype Db = Db(grants: Table, heads: map<RunKey, Head>)

  datatype Error =
    | Invalid | NoStack | NotOwner | Disabled | NotFound
    | ExceedsStanding | ExceedsParent(left: int) | ParentNotLive | Depth
    | StaleGeneration | RunNotLive | RunBudget

  function KeyOf(g: Grant): RunKey {
    RunKey(g.tenant, g.mintedBy, g.run)
  }

  /** The column form of an instant: whole seconds, the fraction dropped. */
  function Stamp(now: int): int {
    now / NANOS
  }

  predicate Ended(g: Grant) {
    g.revoked.Some? || g.closed.Some?
  }

  /** The check on a row already read, against the exact clock. */
  predicate Live(g: Grant, now: int) {
    !Ended(g) && now < g.expires * NANOS
  }

  /** The WHERE clause: the same question asked in stored seconds. */
  predicate LiveRow(g: Grant, stamp: int) {
    !Ended(g) && g.expires > stamp
  }

  function Remaining(g: Grant): int {
    if g.spent >= g.budget then 0 else g.budget - g.spent
  }

  /** What ending a grant writes. */
  datatype Mark = Close(at: int, reason: string) | Revoke(at: int)

  function Apply(m: Mark, g: Grant): Grant {
    match m
    case Close(at, reason) => g.(closed := Some(at), closeReason := reason)
    case Revoke(at) => g.(revoked := Some(at))
  }

  // ---------------------------------------------------------------- the tree

  /** The k-th ancestor: 0 is the grant itself, 1 its parent. */
  function Up(gs: Table, id: Id, k: nat): (r: Option<Id>)
    decreases k
  {
    if k == 0 then Some(id)
    else if id in gs && gs[id].parent.Some? then Up(gs, gs[id].parent.value, k - 1)
    else None
  }

  ghost predicate IsAncestor(gs: Table, a: Id, d: Id) {
    exists k: nat :: k > 0 && Up(gs, d, k) == Some(a)
  }

  ghost predicate Below(gs: Table, d: Id, roots: set<Id>) {
    exists k: nat :: k > 0 && Up(gs, d, k).Some? && Up(gs, d, k).value in roots
  }

  /** Every edge of the tree narrows: same tenant and minter, one level
      deeper, nothing more allowed, no later expiry, another run name. */
  predicate Narrows(c: Grant, p: Grant) {
    && c.tenant == p.tenant && c.mintedBy == p.mintedBy && c.run != p.run
    && c.depth == p.depth + 1
    && c.expires <= p.expires
    && forall r :: r in c.allow ==> r in p.allow
  }

  predicate NodeOk(gs: Table, id: Id)
    requires id in gs
  {
    && 0 <= gs[id].depth <= MAX_RUN_DEPTH
    && gs[id].budget >= 1
    && (gs[id].parent.Some? ==>
          gs[id].parent.value in gs && Narrows(gs[id], gs[gs[id].parent.value]))
  }

  ghost predicate TreeOk(gs: Table) {
    forall id {:trigger NodeOk(gs, id)} :: id in gs ==> NodeOk(gs, id)
  }

  /** Ending everything below `roots`, and nothing else: each un-ended grant
      of the tenant with an ancestor in `roots` gets the mark. */
  ghost function EndedBelow(gs: Table, tenant: string, roots: set<Id>, m: Mark): (r: Table)
  {
    map id | id in gs ::
      if gs[id].tenant == tenant && !Ended(gs[id]) && Below(gs, id, roots) then Apply(m, gs[id]) else gs[id]
  }

  // ------------------------------------------------------------- operations

  /** A mint as asked for. `owner` is what the ownership check answered (the
      base stack that manages the principal), `held` the resources the
      principal holds a standing grant for. */
  datatype MintRequest = MintRequest(
    tenant: string, owner: Result<string, Error>, active: bool, held: set<Resource>,
    principal: string, stack: string, run: string, generation: int,
    allow: seq<Resource>, budget: int, ttl: int, parent: Option<Id>)

  /** A mint that passed every unlocked check and has yet to open its
      transaction; `now` is the clock as read before those checks. */
  datatype Pending = Pending(
    tenant: string, principal: string, mintedBy: string, stack: string, run: string,
    generation: int, allow: seq<Resource>, budget: int,
    parent: Option<Id>, depth: int, now: int, expires: int)

  predicate WordChar(c: char) {
    'A' <= c <= 'Z' || 'a' <= c <= 'z' || '0' <= c <= '9' || c == '_'
  }

  predicate ValidRun(s: string) {
    && 1 <= |s| <= 128 && WordChar(s[0])
    && forall i :: 0 <= i < |s| ==> WordChar(s[i]) || s[i] in ".@+:/-"
  }

  predicate AllIn(a: seq<Resource>, b: seq<Resource>) {
    forall r :: r in a ==> r in b
  }

  /** The request's own shape. */
  function Shape(q: MintRequest): Option<Error> {
    if q.tenant == "" || !ValidRun(q.run) || q.generation < 0 then Some(Invalid)
    else if q.stack == "" then Some(NoStack)
    else if !(1 <= q.budget <= MAX_RUN_BUDGET) then Some(Invalid)
    else if !(NANOS <= q.ttl <= MAX_RUN_TTL) then Some(Invalid)
    else if !(1 <= |q.allow| <= MAX_RUN_ALLOW) then Some(Invalid)
    else None
  }

  /** What the parent, as read, says about the mint. */
  function ParentCheck(gs: Table, q: MintRequest, base: string, pa: Id, now: int): Option<Error> {
    if pa !in gs || gs[pa].tenant != q.tenant then Some(ParentNotLive)
    else if gs[pa].mintedBy != base then Some(NotOwner)
    else if !Live(gs[pa], now) then Some(ParentNotLive)
    else if gs[pa].depth + 1 > MAX_RUN_DEPTH then Some(Depth)
    else if gs[pa].run == q.run then Some(Invalid)
    else if !AllIn(q.allow, gs[pa].allow) then Some(ExceedsParent(0))
    else None
  }

  /** The unlocked half of a mint: every check that does not need the
      transaction. */
  function PrepareMint(db: Db, q: MintRequest, now: int): Result<Pending, Error> {
    if Shape(q).Some? then Err(Shape(q).value)
    else if q.owner.Err? then Err(q.owner.error)
    else if !q.active then Err(Disabled)
    else if exists r :: r in q.allow && r !in q.held then Err(ExceedsStanding)
    else
      var expires := now + q.ttl;
      var base := q.owner.value;
      match q.parent
      case None =>
        Ok(Pending(q.tenant, q.principal, base, q.stack, q.run, q.generation, q.allow, q.budget,
                   None, 0, now, expires))
      case Some(pa) =>
        var bad := ParentCheck(db.grants, q, base, pa, now);
        if bad.Some? then Err(bad.value)
        else
          var cap := db.grants[pa].expires * NANOS;
          Ok(Pending(q.tenant, q.principal, base, q.stack, q.run, q.generation, q.allow, q.budget,
                     Some(pa), db.grants[pa].depth + 1, now, if cap < expires then cap else expires))
  }

  /** The generation the head row moves to, or None when the caller is stale. */
  function NextGeneration(heads: map<RunKey, Head>, key: RunKey, generation: int): Option<int> {
    if generation == 0 then
      Some(if key in heads then heads[key].generation + 1 else 1)
    else if key in heads && heads[key].generation >= generation then None
    else Some(generation)
  }

  predicate CanFund(gs: Table, p: Pending, pa: Id) {
    && pa in gs && gs[pa].tenant == p.tenant && LiveRow(gs[pa], Stamp(p.now))
    && gs[pa].spent + p.budget <= gs[pa].budget
  }

  function Fund(gs: Table, p: Pending): Table
    requires p.parent.Some? ==> p.parent.value in gs
  {
    if p.parent.None? then gs
    else gs[p.parent.value := gs[p.parent.value].(spent := gs[p.parent.value].spent + p.budget)]
  }

  function RefusedParent(gs: Table, p: Pending, pa: Id): Error {
    if pa !in gs || gs[pa].tenant != p.tenant || !Live(gs[pa], p.now) then ParentNotLive
    else ExceedsParent(Remaining(gs[pa]))
  }

  function OpenOf(gs: Table, key: RunKey): set<Id> {
    set id | id in gs && KeyOf(gs[id]) == key && !Ended(gs[id])
  }

  function Superseded(gs: Table, older: set<Id>, m: Mark): Table {
    map id | id in gs :: if id in older then Apply(m, gs[id]) else gs[id]
  }

  /** Closing the run's older grants and everything narrowed from them. */
  ghost function Supersede(gs: Table, key: RunKey, m: Mark): Table {
    EndedBelow(Superseded(gs, OpenOf(gs, key), m), key.tenant, OpenOf(gs, key), m)
  }

  function NewGrant(p: Pending, generation: int): Grant {
    Grant(p.tenant, p.principal, p.mintedBy, p.stack, p.run, generation, p.allow, p.budget, 0,
          p.parent, p.depth, Stamp(p.now), Stamp(p.expires), None, "", None)
  }

  function PendingKey(p: Pending): RunKey {
    RunKey(p.tenant, p.mintedBy, p.run)
  }

  /** The two unique constraints of the insert. */
  predicate Collides(gs: Table, id: Id, g: Grant) {
    id in gs || exists x :: x in gs && KeyOf(gs[x]) == KeyOf(g) && gs[x].generation == g.generation
  }

  /** The new row, once the head has moved and the parent has paid. */
  function InsertRow(db: Db, gs: Table, p: Pending, id: Id, generation: int): (Db, Result<Grant, Error>) {
    var g := NewGrant(p, generation);
    if Collides(gs, id, g) then (db, Err(StaleGeneration))
    else (Db(gs[id := g], db.heads[PendingKey(p) := Head(generation, id)]), Ok(g))
  }

  /** The locked half of a mint. A refusal leaves both tables as they were. */
  ghost function MintTx(db: Db, p: Pending, id: Id): (Db, Result<Grant, Error>) {
    var gen := NextGeneration(db.heads, PendingKey(p), p.generation);
    if gen.None? then (db, Err(StaleGeneration))
    else if p.parent.Some? && !CanFund(db.grants, p, p.parent.value) then
      (db, Err(RefusedParent(db.grants, p, p.parent.value)))
    else
      var gs := Supersede(Fund(db.grants, p), PendingKey(p), Close(Stamp(p.now), "superseded"));
      InsertRow(db, gs, p, id, gen.value)
  }

  predicate CanCharge(gs: Table, tenant: string, id: Id, n: int, enforce: bool, stamp: int) {
    && id in gs && gs[id].tenant == tenant && LiveRow(gs[id], stamp)
    && (enforce ==> gs[id].spent + n <= gs[id].budget)
  }

  function ChargeTx(db: Db, tenant: string, id: Id, n: int, enforce: bool, now: int): (Db, Option<Error>) {
    if tenant == "" || n < 1 then (db, Some(Invalid))
    else if CanCharge(db.grants, tenant, id, n, enforce, Stamp(now)) then
      (db.(grants := db.grants[id := db.grants[id].(spent := db.grants[id].spent + n)]), None)
    else if id !in db.grants || db.grants[id].tenant != tenant then (db, Some(NotFound))
    else if !Live(db.grants[id], Stamp(now) * NANOS) then (db, Some(RunNotLive))
    else (db, Some(RunBudget))
  }

  datatype EndRequest = EndRequest(tenant: string, id: Id, closing: bool, reason: string)

  /** The unlocked half of close and revoke: Ok(None) is "already ended". */
  function PrepareEnd(db: Db, base: string, r: EndRequest): Result<Option<EndRequest>, Error> {
    if r.tenant == "" then Err(Invalid)
    else if r.id !in db.grants || db.grants[r.id].tenant != r.tenant then Err(NotFound)
    else if base == "" then Err(NoStack)
    else if db.grants[r.id].mintedBy != base then Err(NotOwner)
    else if db.grants[r.id].revoked.Some? || (r.closing && db.grants[r.id].closed.Some?) then Ok(None)
    else Ok(Some(r))
  }

  function EndMark(r: EndRequest, now: int): Mark {
    if r.closing then Close(Stamp(now), r.reason) else Revoke(Stamp(now))
  }

  predicate Endable(g: Grant, r: EndRequest) {
    g.tenant == r.tenant && g.revoked.None? && (r.closing ==> g.closed.None?)
  }

  function EndRoot(gs: Table, r: EndRequest, now: int): Table {
    if r.id in gs && Endable(gs[r.id], r) then gs[r.id := Apply(EndMark(r, now), gs[r.id])] else gs
  }

  /** The locked half of close and revoke. */
  ghost function EndTx(db: Db, r: EndRequest, now: int): Db {
    db.(grants := EndedBelow(EndRoot(db.grants, r, now), r.tenant, {r.id}, EndMark(r, now)))
  }

  // ---------------------------------------------------- the walk down the tree

  /** Ancestry is bounded by depth, so a chain of k edges needs depth k. */
  lemma {:induction false} UpBound(gs: Table, id: Id, k: nat)
    requires TreeOk(gs) && id in gs && Up(gs, id, k).Some?
    ensures k <= gs[id].depth && Up(gs, id, k).value in gs
    ensures gs[Up(gs, id, k).value].tenant == gs[id].tenant
    decreases k
  {
    assert NodeOk(gs, id);
    if k > 0 { UpBound(gs, gs[id].parent.value, k - 1); }
  }

  lemma {:induction false} UpCompose(gs: Table, id: Id, j: nat, k: nat)
    requires Up(gs, id, j).Some?
    ensures Up(gs, id, j + k) == Up(gs, Up(gs, id, j).value, k)
    decreases j
  {
    if j > 0 { UpCompose(gs, gs[id].parent.value, j - 1, k); }
  }

  ghost predicate Within(gs: Table, d: Id, roots: set<Id>, n: nat) {
    exists k: nat :: 0 < k <= n && Up(gs, d, k).Some? && Up(gs, d, k).value in roots
  }

  /** The rows the walk has marked so far: n whole levels, and in the level
      under way the children of `done`. */
  ghost predicate Reached(gs: Table, tenant: string, d: Id, roots: set<Id>, n: nat, done: set<Id>) {
    && d in gs && gs[d].tenant == tenant
    && (Within(gs, d, roots, n) || (gs[d].parent.Some? && gs[d].parent.value in done))
  }

  ghost function Walked(gs: Table, tenant: string, roots: set<Id>, n: nat, done: set<Id>, m: Mark): Table {
    map d | d in gs ::
      if !Ended(gs[d]) && Reached(gs, tenant, d, roots, n, done) then Apply(m, gs[d]) else gs[d]
  }

  ghost function Level(gs: Table, tenant: string, roots: set<Id>, n: nat): set<Id> {
    if n == 0 then roots
    else set d | d in gs && gs[d].tenant == tenant && Up(gs, d, n).Some? && Up(gs, d, n).value in roots
  }

  /** The children of one level are the next. */
  lemma LevelStep(gs: Table, tenant: string, roots: set<Id>, n: nat, d: Id)
    requires TreeOk(gs) && d in gs
    ensures d in Level(gs, tenant, roots, n + 1) <==>
              gs[d].tenant == tenant && gs[d].parent.Some? && gs[d].parent.value in Level(gs, tenant, roots, n)
  {
    assert NodeOk(gs, d);
    if gs[d].parent.Some? {
      var p := gs[d].parent.value;
      assert Up(gs, d, n + 1) == Up(gs, p, n);
    }
  }

  lemma WithinStep(gs: Table, tenant: string, roots: set<Id>, n: nat, d: Id)
    requires TreeOk(gs) && d in gs && gs[d].tenant == tenant
    ensures Within(gs, d, roots, n + 1) <==> Within(gs, d, roots, n) || d in Level(gs, tenant, roots, n + 1)
  {
  }

  /** Once a level is empty, or all the levels a depth admits are walked,
      nothing below the roots is left. */
  lemma WalkComplete(gs: Table, tenant: string, roots: set<Id>, n: nat, d: Id)
    requires TreeOk(gs) && d in gs && gs[d].tenant == tenant
    requires n == MAX_RUN_DEPTH || Level(gs, tenant, roots, n) == {}
    ensures Below(gs, d, roots) <==> Within(gs, d, roots, n)
  {
    if Below(gs, d, roots) {
      var k: nat :| k > 0 && Up(gs, d, k).Some? && Up(gs, d, k).value in roots;
      UpBound(gs, d, k);
      assert NodeOk(gs, d);
      if n < MAX_RUN_DEPTH && k > n { LevelInhabited(gs, tenant, roots, n, d, k); }
    }
  }

  lemma LevelInhabited(gs: Table, tenant: string, roots: set<Id>, n: nat, d: Id, k: nat)
    requires TreeOk(gs) && d in gs && gs[d].tenant == tenant
    requires k > n && Up(gs, d, k).Some? && Up(gs, d, k).value in roots
    ensures Level(gs, tenant, roots, n) != {}
  {
    UpDefined(gs, d, k, k - n);
    UpBound(gs, d, k - n);
    UpCompose(gs, d, k - n, n);
    assert Up(gs, d, k - n).value in Level(gs, tenant, roots, n);
  }

  lemma {:induction false} UpDefined(gs: Table, d: Id, k: nat, j: nat)
    requires Up(gs, d, k).Some? && j <= k
    ensures Up(gs, d, j).Some?
    decreases j
  {
    if j > 0 { UpDefined(gs, gs[d].parent.value, k - 1, j - 1); }
  }

  function Elements(q: seq<Id>): set<Id> {
    set x | x in q
  }

  lemma ElementsOfConcat(a: seq<Id>, b: seq<Id>)
    ensures Elements(a + b) == Elements(a) + Elements(b)
  {
    assert forall x :: x in a + b <==> x in a || x in b;
  }

  lemma ElementsOfSlice(q: seq<Id>, i: nat, hi: nat)
    requires i <= hi <= |q|
    ensures Elements(q[..hi]) == Elements(q[..i]) + Elements(q[i..hi])
  {
    assert q[..hi] == q[..i] + q[i..hi];
    ElementsOfConcat(q[..i], q[i..hi]);
  }

  /** The rows a SELECT of ids returns, in whatever order, appended to `q`. */
  method AppendIds(q: seq<Id>, s: set<Id>) returns (r: seq<Id>)
    ensures Elements(r) == Elements(q) + s && |r| == |q| + |s|
  {
    r := q;
    var rest := s;
    while rest != {}
      invariant rest <= s && Elements(r) == Elements(q) + (s - rest) && |r| + |rest| == |q| + |s|
      decreases rest
    {
      var x :| x in rest;
      ElementsOfConcat(r, [x]);
      r := r + [x];
      rest := rest - {x};
    }
  }

  /** SELECT and UPDATE of one chunk of parents. */
  function ChildrenOf(gs: Table, tenant: string, parents: set<Id>): set<Id> {
    set d | d in gs && gs[d].tenant == tenant && gs[d].parent.Some? && gs[d].parent.value in parents
  }

  function EndChildren(gs: Table, tenant: string, parents: set<Id>, m: Mark): Table {
    map d | d in gs ::
      if d in ChildrenOf(gs, tenant, parents) && !Ended(gs[d]) then Apply(m, gs[d]) else gs[d]
  }

  lemma ChunkDone(gs: Table, tenant: string, rs: set<Id>, n: nat, done: set<Id>, part: set<Id>, m: Mark)
    ensures
      var out := Walked(gs, tenant, rs, n, done, m);
      && ChildrenOf(gs, tenant, done) + ChildrenOf(out, tenant, part) == ChildrenOf(gs, tenant, done + part)
      && EndChildren(out, tenant, part, m) == Walked(gs, tenant, rs, n, done + part, m)
  {
    var out := Walked(gs, tenant, rs, n, done, m);
    assert ChildrenOf(out, tenant, part) == ChildrenOf(gs, tenant, part);
    assert ChildrenOf(gs, tenant, done) + ChildrenOf(out, tenant, part) == ChildrenOf(gs, tenant, done + part);
    var out' := EndChildren(out, tenant, part, m);
    forall d | d in gs
      ensures out'[d] == if !Ended(gs[d]) && Reached(gs, tenant, d, rs, n, done + part) then Apply(m, gs[d]) else gs[d]
    {
    }
  }

  lemma LevelDone(gs: Table, tenant: string, rs: set<Id>, n: nat, m: Mark)
    requires TreeOk(gs)
    ensures ChildrenOf(gs, tenant, Level(gs, tenant, rs, n)) == Level(gs, tenant, rs, n + 1)
    ensures Walked(gs, tenant, rs, n, Level(gs, tenant, rs, n), m) == Walked(gs, tenant, rs, n + 1, {}, m)
  {
    var level := Level(gs, tenant, rs, n);
    forall d | d in gs
      ensures d in ChildrenOf(gs, tenant, level) <==> d in Level(gs, tenant, rs, n + 1)
      ensures Reached(gs, tenant, d, rs, n, level) <==> Reached(gs, tenant, d, rs, n + 1, {})
    {
      LevelStep(gs, tenant, rs, n, d);
      if gs[d].tenant == tenant { WithinStep(gs, tenant, rs, n, d); }
    }
  }

  lemma NothingWalked(gs: Table, tenant: string, rs: set<Id>, m: Mark)
    ensures Walked(gs, tenant, rs, 0, {}, m) == gs
  {
  }

  lemma AllWalked(gs: Table, tenant: string, rs: set<Id>, n: nat, m: Mark)
    requires TreeOk(gs) && (n == MAX_RUN_DEPTH || Level(gs, tenant, rs, n) == {})
    ensures Walked(gs, tenant, rs, n, {}, m) == EndedBelow(gs, tenant, rs, m)
  {
    forall d | d in gs && gs[d].tenant == tenant
      ensures Below(gs, d, rs) <==> Within(gs, d, rs, n)
    {
      WalkComplete(gs, tenant, rs, n, d);
    }
  }

  /** One level, in chunks of CHUNK parents. */
  method EndLevel(ghost gs: Table, t: Table, tenant: string, level: seq<Id>, ghost rs: set<Id>, ghost n: nat, m: Mark)
    returns (out: Table, next: seq<Id>)
    requires t == Walked(gs, tenant, rs, n, {}, m)
    ensures out == Walked(gs, tenant, rs, n, Elements(level), m)
    ensures Elements(next) == ChildrenOf(gs, tenant, Elements(level))
  {
    out, next := t, [];
    var i := 0;
    ghost var done: set<Id> := {};
    while i < |level|
      invariant 0 <= i <= |level| && done == Elements(level[..i])
      invariant Elements(next) == ChildrenOf(gs, tenant, done)
      invariant out == Walked(gs, tenant, rs, n, done, m)
    {
      var hi := if i + CHUNK < |level| then i + CHUNK else |level|;
      var part := Elements(level[i..hi]);
      ElementsOfSlice(level, i, hi);
      ChunkDone(gs, tenant, rs, n, done, part, m);
      next := AppendIds(next, ChildrenOf(out, tenant, part));
      out := EndChildren(out, tenant, part, m);
      done := done + part;
      i := hi;
    }
    assert level[..i] == level;
  }

  /** The chunked, level-by-level walk, cut off after MAX_RUN_DEPTH levels:
      it ends exactly the grants below `roots`. */
  method EndDescendants(gs: Table, tenant: string, roots: seq<Id>, m: Mark) returns (out: Table)
    requires TreeOk(gs)
    ensures out == EndedBelow(gs, tenant, Elements(roots), m)
  {
    ghost var rs := Elements(roots);
    out := gs;
    var level := roots;
    var depth := 0;
    NothingWalked(gs, tenant, rs, m);
    while depth < MAX_RUN_DEPTH && |level| > 0
      invariant 0 <= depth <= MAX_RUN_DEPTH
      invariant Elements(level) == Level(gs, tenant, rs, depth)
      invariant out == Walked(gs, tenant, rs, depth, {}, m)
    {
      LevelDone(gs, tenant, rs, depth, m);
      out, level := EndLevel(gs, out, tenant, level, rs, depth, m);
      depth := depth + 1;
    }
    assert level == [] ==> Elements(level) == {};
    AllWalked(gs, tenant, rs, depth, m);
  }
}
