/** Least recently used out first, over every run of the artifact cache. */
module ArtifactRecency {
  import opened ArtifactCache

  /** The op at k uses the ref: a get, or a put that did not find it there. */
  predicate Uses(max: int, ops: seq<Op>, k: nat, ref: Ref)
    requires k < |ops|
  {
    ops[k].ref == ref && (ops[k].GetOp? || ref !in Index(RunOps(max, ops[..k])))
  }

  /** One more than the index of the last use, 0 for none. */
  function LastUse(max: int, ops: seq<Op>, ref: Ref): (n: nat)
    ensures n <= |ops|
  {
    if ops == [] then 0
    else if Uses(max, ops, |ops| - 1, ref) then |ops|
    else LastUse(max, ops[..|ops| - 1], ref)
  }

  ghost predicate MostRecentFirst(max: int, ops: seq<Op>, es: seq<Entry>) {
    forall i, j :: 0 <= i < j < |es| ==> LastUse(max, ops, es[i].ref) > LastUse(max, ops, es[j].ref)
  }

  /** An op that uses none of them leaves the order. */
  lemma {:induction false} UnusedStay(max: int, ops: seq<Op>, es: seq<Entry>)
    requires ops != [] && MostRecentFirst(max, ops[..|ops| - 1], es)
    requires forall i :: 0 <= i < |es| ==> !Uses(max, ops, |ops| - 1, es[i].ref)
    ensures MostRecentFirst(max, ops, es)
  {
    assert forall i :: 0 <= i < |es| ==> LastUse(max, ops, es[i].ref) == LastUse(max, ops[..|ops| - 1], es[i].ref);
  }

  /** The one used goes in front. */
  lemma {:induction false} FrontIsRecent(max: int, ops: seq<Op>, e: Entry, rest: seq<Entry>)
    requires ops != [] && Uses(max, ops, |ops| - 1, e.ref)
    requires MostRecentFirst(max, ops[..|ops| - 1], rest) && Distinct([e] + rest)
    ensures MostRecentFirst(max, ops, [e] + rest)
  {
    var to, pre := [e] + rest, ops[..|ops| - 1];
    forall i | 0 <= i < |rest| ensures LastUse(max, ops, rest[i].ref) == LastUse(max, pre, rest[i].ref) {
      DistinctRefs(to, 0, i + 1);
      assert to[i + 1] == rest[i];
    }
  }

  lemma {:induction false} SkipOne(max: int, ops: seq<Op>, es: seq<Entry>, i: nat)
    requires i < |es| && MostRecentFirst(max, ops, es)
    ensures MostRecentFirst(max, ops, es[..i] + es[i + 1..])
  {
  }

  lemma {:induction false} Absent(es: seq<Entry>, ref: Ref)
    requires ref !in Index(es)
    ensures forall i :: 0 <= i < |es| ==> es[i].ref != ref
  {
    forall i | 0 <= i < |es| ensures es[i].ref != ref { Listed(es, i); }
  }

  lemma {:induction false} FoundInFront(max: int, ops: seq<Op>, i: nat)
    requires ops != [] && ops[|ops| - 1].GetOp?
    requires
      var es := RunOps(max, ops[..|ops| - 1]);
      ops[|ops| - 1].ref in Index(es) && i == Find(es, ops[|ops| - 1].ref) && i < |es|
    ensures
      var es := RunOps(max, ops[..|ops| - 1]);
      RunOps(max, ops) == [es[i]] + (es[..i] + es[i + 1..])
  {
    var es := RunOps(max, ops[..|ops| - 1]);
    assert [es[i]] + es[..i] + es[i + 1..] == [es[i]] + (es[..i] + es[i + 1..]);
  }

  lemma {:induction false} GetIsRecent(max: int, ops: seq<Op>)
    requires ops != [] && ops[|ops| - 1].GetOp?
    requires MostRecentFirst(max, ops[..|ops| - 1], RunOps(max, ops[..|ops| - 1]))
    ensures MostRecentFirst(max, ops, RunOps(max, ops))
  {
    var pre, ref := ops[..|ops| - 1], ops[|ops| - 1].ref;
    var es := RunOps(max, pre);
    if ref in Index(es) {
      var i := Find(es, ref);
      RunKeeps(max, ops);
      FoundInFront(max, ops, i);
      SkipOne(max, pre, es, i);
      FrontIsRecent(max, ops, es[i], es[..i] + es[i + 1..]);
    } else {
      Absent(es, ref);
      UnusedStay(max, ops, es);
    }
  }

  lemma {:induction false} PutIsRecent(max: int, ops: seq<Op>)
    requires ops != [] && ops[|ops| - 1].PutOp?
    requires MostRecentFirst(max, ops[..|ops| - 1], RunOps(max, ops[..|ops| - 1]))
    ensures MostRecentFirst(max, ops, RunOps(max, ops))
  {
    var pre, op := ops[..|ops| - 1], ops[|ops| - 1];
    var es, to := RunOps(max, pre), RunOps(max, ops);
    PutExactly(es, max, op.ref, op.art);
    if |op.art.wasm| <= max && op.ref !in Index(es) {
      RunKeeps(max, ops);
      assert to == [to[0]] + to[1..];
      FrontIsRecent(max, ops, to[0], to[1..]);
    } else {
      if op.ref !in Index(es) { Absent(es, op.ref); }
      UnusedStay(max, ops, es);
    }
  }

  /** In every run the list is in order of last use. */
  lemma {:induction false} RunIsRecent(max: int, ops: seq<Op>)
    ensures MostRecentFirst(max, ops, RunOps(max, ops))
  {
    if ops != [] {
      RunIsRecent(max, ops[..|ops| - 1]);
      if ops[|ops| - 1].GetOp? { GetIsRecent(max, ops); } else { PutIsRecent(max, ops); }
    }
  }

  /** Whatever a put throws out was used less recently than whatever it keeps. */
  lemma {:induction false} EvictsLeastRecent(max: int, ops: seq<Op>, ref: Ref, art: Artifact, kept: nat, gone: nat)
    requires
      var (es, to) := (RunOps(max, ops), PutLru(RunOps(max, ops), max, ref, art));
      kept < |es| && gone < |es| && es[kept] in to && es[gone] !in to
    ensures
      var es := RunOps(max, ops);
      LastUse(max, ops, es[kept].ref) > LastUse(max, ops, es[gone].ref)
  {
    var es, to := RunOps(max, ops), PutLru(RunOps(max, ops), max, ref, art);
    RunIsRecent(max, ops);
    RunKeeps(max, ops);
    PutExactly(es, max, ref, art);
    assert to == [to[0]] + es[..|to| - 1];
    GoneIsBehind(to[0], es, |to| - 1, gone);
    KeptIsInFront(to[0], es, |to| - 1, kept);
  }

  lemma GoneIsBehind(e: Entry, es: seq<Entry>, k: nat, gone: nat)
    requires k <= |es| && gone < |es| && es[gone] !in [e] + es[..k]
    ensures gone >= k
  {
    assert forall i :: 0 <= i < k ==> ([e] + es[..k])[i + 1] == es[i];
  }

  lemma KeptIsInFront(e: Entry, es: seq<Entry>, k: nat, kept: nat)
    requires Distinct(es) && e.ref !in Index(es) && k <= |es| && kept < |es| && es[kept] in [e] + es[..k]
    ensures kept < k
  {
    Listed(es, kept);
    assert es[kept] in es[..k];
    var i :| 0 <= i < k && es[i] == es[kept];
    if i < kept { DistinctRefs(es, i, kept); }
  }
}
