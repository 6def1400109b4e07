/** Resolved artifacts by ref, least recently used out first, within a byte
    budget. The list is a sequence, most recently used first. */
module ArtifactCache {
  import opened Wrappers

  datatype Ref = Ref(alg: string, digest: string)
  datatype Artifact = Artifact(wasm: seq<bv8>, abi: string)
  datatype Entry = Entry(ref: Ref, art: Artifact)

  // -------------------------------------------------------- the functional LRU

  function Total(es: seq<Entry>): nat {
    if es == [] then 0 else Total(es[..|es| - 1]) + |es[|es| - 1].art.wasm|
  }

  /** The table of a list. */
  function Index(es: seq<Entry>): map<Ref, Entry> {
    if es == [] then map[] else Index(es[..|es| - 1])[es[|es| - 1].ref := es[|es| - 1]]
  }

  predicate Distinct(es: seq<Entry>) {
    es == [] || (Distinct(es[..|es| - 1]) && es[|es| - 1].ref !in Index(es[..|es| - 1]))
  }

  function Find(es: seq<Entry>, ref: Ref): (i: nat)
    requires ref in Index(es)
    ensures i < |es| && es[i].ref == ref && es[i] == Index(es)[ref]
  {
    if es[|es| - 1].ref == ref then |es| - 1 else Find(es[..|es| - 1], ref)
  }

  /** Used: the entry moves to the front, the rest keep their order. */
  function Touch(es: seq<Entry>, ref: Ref): seq<Entry> {
    if ref !in Index(es) then es
    else var i := Find(es, ref); [es[i]] + es[..i] + es[i + 1..]
  }

  predicate Over(es: seq<Entry>, room: int, k: nat) {
    forall j {:trigger es[..j]} :: k < j <= |es| ==> Total(es[..j]) > room
  }

  /** The longest prefix of at most `room` bytes. */
  predicate LongestFit(es: seq<Entry>, room: int, k: nat) {
    k <= |es| && Total(es[..k]) <= room && Over(es, room, k)
  }

  function Fit(es: seq<Entry>, room: nat): (k: nat)
    ensures LongestFit(es, room, k)
  {
    FitWithin(es, room, |es|)
  }

  function FitWithin(es: seq<Entry>, room: nat, k: nat): (r: nat)
    requires k <= |es| && Over(es, room, k)
    ensures LongestFit(es, room, r)
  {
    if Total(es[..k]) <= room then k else FitWithin(es, room, k - 1)
  }

  function PutLru(es: seq<Entry>, max: int, ref: Ref, art: Artifact): seq<Entry> {
    if |art.wasm| > max || ref in Index(es) then es
    else [Entry(ref, art)] + es[..Fit(es, max - |art.wasm|)]
  }

  /** There is only one longest fit. */
  lemma FitUnique(es: seq<Entry>, room: int, k: nat, l: nat)
    requires LongestFit(es, room, k) && LongestFit(es, room, l)
    ensures k == l
  {
  }

  lemma {:induction false} Split(a: seq<Entry>, b: seq<Entry>)
    ensures Total(a + b) == Total(a) + Total(b)
    ensures Index(a + b) == Index(a) + Index(b)
    ensures Distinct(a + b) <==> Distinct(a) && Distinct(b) && Index(a).Keys !! Index(b).Keys
  {
    if b == [] {
      assert a + b == a;
    } else {
      assert (a + b)[..|a + b| - 1] == a + b[..|b| - 1];
      Split(a, b[..|b| - 1]);
    }
  }

  lemma One(e: Entry)
    ensures Total([e]) == |e.art.wasm| && Index([e]) == map[e.ref := e] && Distinct([e])
  {
    assert [e][..0] == [];
  }

  lemma {:induction false} Listed(es: seq<Entry>, i: nat)
    requires i < |es|
    ensures es[i].ref in Index(es)
  {
    if i < |es| - 1 { Listed(es[..|es| - 1], i); }
  }

  /** Each ref has one place. */
  lemma {:induction false} DistinctRefs(es: seq<Entry>, i: nat, j: nat)
    requires Distinct(es) && i < j < |es|
    ensures es[i].ref != es[j].ref
  {
    if j < |es| - 1 { DistinctRefs(es[..|es| - 1], i, j); } else { Listed(es[..|es| - 1], i); }
  }

  /** A use keeps the entries, their bytes and their uniqueness. */
  lemma TouchKeeps(es: seq<Entry>, ref: Ref)
    requires Distinct(es)
    ensures Distinct(Touch(es, ref)) && Total(Touch(es, ref)) == Total(es)
    ensures Index(Touch(es, ref)) == Index(es)
  {
    if ref in Index(es) {
      var i := Find(es, ref);
      assert es == es[..i] + [es[i]] + es[i + 1..];
      Moved(es[..i], es[i], es[i + 1..]);
    }
  }

  lemma Moved(a: seq<Entry>, e: Entry, b: seq<Entry>)
    requires Distinct(a + [e] + b)
    ensures var t := [e] + a + b;
      Distinct(t) && Total(t) == Total(a + [e] + b) && Index(t) == Index(a + [e] + b)
  {
    Split(a + [e], b);
    Split(a, [e]);
    Split([e] + a, b);
    Split([e], a);
    assert Index(a) + Index([e]) == Index([e]) + Index(a);
  }

  lemma PushKeeps(es: seq<Entry>, e: Entry)
    requires Distinct(es) && e.ref !in Index(es)
    ensures Distinct([e] + es) && Index([e] + es) == Index(es)[e.ref := e]
    ensures Total([e] + es) == Total(es) + |e.art.wasm|
  {
    Split([e], es);
    One(e);
  }

  /** The list without a ref. */
  function Without(es: seq<Entry>, ref: Ref): seq<Entry> {
    if es == [] then []
    else Without(es[..|es| - 1], ref) + if es[|es| - 1].ref == ref then [] else [es[|es| - 1]]
  }

  lemma {:induction false} WithoutSplit(a: seq<Entry>, b: seq<Entry>, ref: Ref)
    ensures Without(a + b, ref) == Without(a, ref) + Without(b, ref)
  {
    if b == [] {
      assert a + b == a;
    } else {
      assert (a + b)[..|a + b| - 1] == a + b[..|b| - 1];
      WithoutSplit(a, b[..|b| - 1], ref);
    }
  }

  /** A use brings the entry to the front and leaves the others as they were; of
      a ref that is not there it changes nothing. */
  lemma {:induction false} TouchExactly(es: seq<Entry>, ref: Ref)
    requires Distinct(es)
    ensures Without(Touch(es, ref), ref) == Without(es, ref)
    ensures if ref in Index(es) then |Touch(es, ref)| == |es| && Touch(es, ref)[0] == Index(es)[ref]
            else Touch(es, ref) == es
  {
    if ref in Index(es) {
      var i := Find(es, ref);
      assert es == es[..i] + [es[i]] + es[i + 1..];
      WithoutMoved(es[..i], es[i], es[i + 1..]);
    }
  }

  lemma {:induction false} WithoutMoved(a: seq<Entry>, e: Entry, b: seq<Entry>)
    ensures Without([e] + a + b, e.ref) == Without(a + [e] + b, e.ref)
  {
    WithoutSplit(a + [e], b, e.ref);
    WithoutSplit(a, [e], e.ref);
    WithoutSplit([e] + a, b, e.ref);
    WithoutSplit([e], a, e.ref);
    assert [e][..0] == [];
  }

  /** A put of something new that fits the budget stands in front of as many of the
      most recent entries as fit beside it, and one more would not; any other put
      changes nothing. */
  lemma PutExactly(es: seq<Entry>, max: int, ref: Ref, art: Artifact)
    ensures
      var to := PutLru(es, max, ref, art);
      if |art.wasm| > max || ref in Index(es) then to == es
      else
        && 1 <= |to| <= |es| + 1 && to[0] == Entry(ref, art)
        && var k := |to| - 1;
        && to[1..] == es[..k] && Total(es[..k]) + |art.wasm| <= max
        && (k < |es| ==> Total(es[..k + 1]) + |art.wasm| > max)
  {
  }

  // ---------------------------------------------------------------- the cache

  /** List and map hold the same entries, each ref once; `size` is the exact
      byte sum, and within the budget. */
  ghost predicate Good(max: int, size: int, ll: seq<Entry>, byRef: map<Ref, Entry>) {
    Distinct(ll) && size == Total(ll) && (size <= max || ll == []) && byRef == Index(ll)
  }

  class Cache {
    const max: int
    var size: int
    var ll: seq<Entry>
    var byRef: map<Ref, Entry>

    ghost predicate Valid()
      reads this
    {
      Good(max, size, ll, byRef)
    }

    constructor (max: int)
      ensures Valid() && ll == [] && this.max == max
    {
      this.max := max;
      size, ll, byRef := 0, [], map[];
    }

    method Get(ref: Ref) returns (r: Option<Artifact>)
      requires Valid()
      modifies this`ll
      ensures Valid() && ll == Touch(old(ll), ref)
      ensures r == if ref in old(byRef) then Some(old(byRef)[ref].art) else None
    {
      if ref !in byRef { return None; }
      TouchKeeps(ll, ref);
      var e, i := byRef[ref], Find(ll, ref);
      ll := [e] + ll[..i] + ll[i + 1..];
      return Some(e.art);
    }

    /** Evict from the back until the new entry fits; the loop never meets an
        empty list. */
    method Put(ref: Ref, art: Artifact)
      requires Valid()
      modifies this
      ensures Valid() && ll == PutLru(old(ll), max, ref, art)
    {
      var n := |art.wasm|;
      if n > max || ref in byRef { return; }
      ghost var before: seq<Entry>, k: nat := ll, |ll|;
      assert before[..k] == before;
      while size + n > max
        invariant Valid() && ref !in byRef && k <= |before| && ll == before[..k]
        invariant Over(before, max - n, k)
        decreases k
      {
        var last := ll[|ll| - 1];
        assert before[..k][..k - 1] == before[..k - 1];
        ll := ll[..|ll| - 1];
        byRef := byRef - {last.ref};
        size := size - |last.art.wasm|;
        k := k - 1;
      }
      FitUnique(before, max - n, k, Fit(before, max - n));
      PushKeeps(ll, Entry(ref, art));
      ll := [Entry(ref, art)] + ll;
      byRef := byRef[ref := Entry(ref, art)];
      size := size + n;
    }
  }

  // ------------------------------------------------------------- whole runs

  datatype Op = GetOp(ref: Ref) | PutOp(ref: Ref, art: Artifact)

  function Apply(es: seq<Entry>, max: int, op: Op): seq<Entry> {
    match op
    case GetOp(ref) => Touch(es, ref)
    case PutOp(ref, art) => PutLru(es, max, ref, art)
  }

  function RunOps(max: int, ops: seq<Op>): seq<Entry> {
    if ops == [] then [] else Apply(RunOps(max, ops[..|ops| - 1]), max, ops[|ops| - 1])
  }

  predicate WasPut(e: Entry, ops: seq<Op>) {
    PutOp(e.ref, e.art) in ops
  }

  /** Over every run the cache stays within its budget, each ref once, and
      whatever is resident was put under that very ref. */
  lemma {:induction false} RunKeeps(max: int, ops: seq<Op>)
    ensures
      var es := RunOps(max, ops);
      Distinct(es) && (Total(es) <= max || es == []) && forall e :: e in es ==> WasPut(e, ops)
  {
    if ops != [] {
      var pre, op := ops[..|ops| - 1], ops[|ops| - 1];
      RunKeeps(max, pre);
      var es := RunOps(max, pre);
      assert ops == pre + [op];
      assert forall e :: WasPut(e, pre) ==> WasPut(e, ops);
      match op
      case GetOp(ref) =>
        TouchKeeps(es, ref);
        assert forall e :: e in Touch(es, ref) ==> e in es;
      case PutOp(ref, art) =>
        PutKeeps(es, max, ref, art);
        assert WasPut(Entry(ref, art), ops);
    }
  }

  /** When every put agrees on what a ref names, so does every hit. */
  lemma HitsAreTrue(max: int, ops: seq<Op>, content: Ref -> Artifact, ref: Ref)
    requires forall op :: op in ops && op.PutOp? ==> op.art == content(op.ref)
    requires ref in Index(RunOps(max, ops))
    ensures Index(RunOps(max, ops))[ref].art == content(ref)
  {
    RunKeeps(max, ops);
    var es := RunOps(max, ops);
    assert WasPut(es[Find(es, ref)], ops);
  }

  lemma PutKeeps(es: seq<Entry>, max: int, ref: Ref, art: Artifact)
    requires Distinct(es) && (Total(es) <= max || es == [])
    ensures
      var to := PutLru(es, max, ref, art);
      && Distinct(to) && (Total(to) <= max || to == [])
      && forall e :: e in to ==> e in es || e == Entry(ref, art)
  {
    if |art.wasm| <= max && ref !in Index(es) {
      var k := Fit(es, max - |art.wasm|);
      assert es == es[..k] + es[k..];
      Split(es[..k], es[k..]);
      PushKeeps(es[..k], Entry(ref, art));
    }
  }
}
