/** Concrete runs that show where two promises stop. */
module RunGrantExamples {
  import opened Wrappers
  import opened RunGrants
  import opened RunGrantRuns
  import opened RunGrantTheorems
  import opened RunGrantBudget

  const SECRET := Resource("secret", "KEY")

  function Ask(run: string, budget: int, parent: Option<Id>): MintRequest {
    MintRequest("t", Ok("web"), true, {SECRET}, "user:1", "web", run, 0, [SECRET], budget, NANOS, parent)
  }

  function Mint(steps: seq<Step>, q: MintRequest, id: Id): seq<Step> {
    steps + [BeginMint(0, q)] + [CommitMint(0, id)]
  }

  /** Dispatch as "a", from it "b", and from that "a" again. */
  function First(): seq<Step> { Mint([], Ask("a", 9, None), "A") }
  function Second(): seq<Step> { Mint(First(), Ask("b", 5, Some("A")), "B") }
  function Nested(): seq<Step> { Mint(Second(), Ask("a", 1, Some("B")), "C") }

  lemma RunSnoc(steps: seq<Step>, s: Step)
    ensures Run(steps + [s]) == Next(Run(steps), s)
  {
    assert (steps + [s])[..|steps|] == steps;
  }

  lemma SupersedeNothing(gs: Table, key: RunKey, m: Mark)
    requires OpenOf(gs, key) == {}
    ensures Supersede(gs, key, m) == gs
  {
    assert Superseded(gs, {}, m) == gs;
  }

  function RowA(spent: int): Grant {
    Grant("t", "user:1", "web", "web", "a", 1, [SECRET], 9, spent, None, 0, 0, 1, None, "", None)
  }

  function RowB(): Grant {
    Grant("t", "user:1", "web", "web", "b", 1, [SECRET], 5, 0, Some("A"), 1, 0, 1, None, "", None)
  }

  function DbA(): Db {
    Db(map["A" := RowA(0)], map[RunKey("t", "web", "a") := Head(1, "A")])
  }

  function DbB(): Db {
    Db(map["A" := RowA(5), "B" := RowB()],
       map[RunKey("t", "web", "a") := Head(1, "A"), RunKey("t", "web", "b") := Head(1, "B")])
  }

  function Wait(run: string, budget: int, parent: Option<Id>, depth: int): Pending {
    Pending("t", "user:1", "web", "web", run, 0, [SECRET], budget, parent, depth, 0, NANOS)
  }

  lemma Prepares()
    ensures PrepareMint(START.db, Ask("a", 9, None), 0) == Ok(Wait("a", 9, None, 0))
    ensures PrepareMint(DbA(), Ask("b", 5, Some("A")), 0) == Ok(Wait("b", 5, Some("A"), 1))
    ensures PrepareMint(DbB(), Ask("a", 1, Some("B")), 0) == Ok(Wait("a", 1, Some("B"), 2))
  {
    assert ValidRun("a") && ValidRun("b");
  }

  lemma CommitA()
    ensures MintTx(START.db, Wait("a", 9, None, 0), "A").0 == DbA()
  {
    SupersedeNothing(map[], RunKey("t", "web", "a"), Close(0, "superseded"));
  }

  lemma CommitB()
    ensures MintTx(DbA(), Wait("b", 5, Some("A"), 1), "B").0 == DbB()
  {
    var p := Wait("b", 5, Some("A"), 1);
    assert Fund(DbA().grants, p) == map["A" := RowA(5)];
    SupersedeNothing(map["A" := RowA(5)], RunKey("t", "web", "b"), Close(0, "superseded"));
    assert CanFund(DbA().grants, p, "A");
  }

  lemma RunTwo(steps: seq<Step>, q: MintRequest, p: Pending, id: Id)
    requires PrepareMint(Run(steps).db, q, Run(steps).now) == Ok(p)
    ensures
      var w := Run(Mint(steps, q, id));
      w.db == MintTx(Run(steps).db, p, id).0 && w.now == Run(steps).now
  {
    RunSnoc(steps, BeginMint(0, q));
    RunSnoc(steps + [BeginMint(0, q)], CommitMint(0, id));
  }

  lemma AfterA()
    ensures Run(First()).db == DbA() && Run(First()).now == 0
  {
    Prepares();
    CommitA();
    RunTwo([], Ask("a", 9, None), Wait("a", 9, None, 0), "A");
  }

  lemma AfterB()
    ensures Run(Second()).db == DbB() && Run(Second()).now == 0
  {
    AfterA();
    Prepares();
    CommitB();
    RunTwo(First(), Ask("b", 5, Some("A")), Wait("b", 5, Some("A"), 1), "B");
  }

  /** The third mint commits, although the run it supersedes is above it. */
  lemma CommitC()
    requires TreeOk(DbB().grants) && FenceOk(DbB())
    ensures
      var (db, r) := MintTx(DbB(), Wait("a", 1, Some("B"), 2), "C");
      && r.Ok? && "B" in db.grants && Ended(db.grants["B"])
      && db.grants["C"] == r.value == NewGrant(Wait("a", 1, Some("B"), 2), r.value.generation)
  {
    var p := Wait("a", 1, Some("B"), 2);
    assert CanFund(DbB().grants, p, "B");
    if MintTx(DbB(), p, "C").1 == Err(StaleGeneration) { StaleMeansStale(DbB(), p, "C"); }
    var gs := MintShape(DbB(), p, "C");
    MintCascade(DbB(), p, "C", "B");
    assert "A" in OpenOf(DbB().grants, PendingKey(p));
    assert Up(DbB().grants, "B", 1) == Up(DbB().grants, "A", 0);
  }

  /** The third mint closes its own parent and lives on under it. */
  lemma ReuseOutlivesParent()
    ensures
      var gs := Run(Nested()).db.grants;
      && "C" in gs && "B" in gs && IsAncestor(gs, "B", "C")
      && Live(gs["C"], 0) && !Live(gs["B"], 0)
  {
    AfterB();
    RunInv(Second());
    Prepares();
    CommitC();
    RunTwo(Second(), Ask("a", 1, Some("B")), Wait("a", 1, Some("B"), 2), "C");
    var gs := Run(Nested()).db.grants;
    assert Up(gs, "C", 1) == Up(gs, "B", 0);
  }

  /** One charge that does not enforce the budget is enough to exceed it. */
  lemma UnenforcedChargeOverruns()
    ensures
      var steps := First() + [Charge("t", "A", 10, false)];
      && "A" in Run(steps).db.grants
      && Own(steps, "A") == 10 > Run(steps).db.grants["A"].budget
  {
    var pre, s := First(), Charge("t", "A", 10, false);
    var steps := pre + [s];
    AfterA();
    RunSnoc(pre, s);
    assert steps[..|steps| - 1] == pre;
    RunInv(pre);
    SpentIsAccountedFor(pre, "A");
    assert Kids(Run(pre).db.grants, "A") == {};
  }
}
