/** Sums of integers over finite sets of keys. */
module Sums {

  ghost function Sum<T(!new)>(s: set<T>, f: map<T, int>): (r: int)
    requires s <= f.Keys
  {
    if s == {} then 0 else
      var x :| x in s;
      f[x] + Sum(s - {x}, f)
  }

  /** The order in which the summands are picked does not matter. */
  lemma {:induction false} SumRemove<T(!new)>(s: set<T>, f: map<T, int>, x: T)
    requires s <= f.Keys && x in s
    ensures Sum(s, f) == f[x] + Sum(s - {x}, f)
  {
    var y :| y in s && Sum(s, f) == f[y] + Sum(s - {y}, f);
    if y != x {
      SumRemove(s - {y}, f, x);
      SumRemove(s - {x}, f, y);
      assert s - {y} - {x} == s - {x} - {y};
    }
  }

  lemma SumAdd<T(!new)>(s: set<T>, f: map<T, int>, x: T)
    requires s <= f.Keys && x in f && x !in s
    ensures Sum(s + {x}, f) == f[x] + Sum(s, f)
  {
    SumRemove(s + {x}, f, x);
    assert s + {x} - {x} == s;
  }

  /** Only the summands matter, not the rest of the map. */
  lemma {:induction false} SumAgree<T(!new)>(s: set<T>, f: map<T, int>, g: map<T, int>)
    requires s <= f.Keys && s <= g.Keys
    requires forall x :: x in s ==> f[x] == g[x]
    ensures Sum(s, f) == Sum(s, g)
  {
    if s != {} {
      var x :| x in s;
      SumRemove(s, f, x);
      SumRemove(s, g, x);
      SumAgree(s - {x}, f, g);
    }
  }

  lemma {:induction false} SumUnion<T(!new)>(s: set<T>, t: set<T>, f: map<T, int>)
    requires s !! t && s + t <= f.Keys
    ensures Sum(s + t, f) == Sum(s, f) + Sum(t, f)
  {
    if s == {} {
      assert s + t == t;
    } else {
      var x :| x in s;
      SumRemove(s, f, x);
      SumRemove(s + t, f, x);
      assert s + t - {x} == (s - {x}) + t;
      SumUnion(s - {x}, t, f);
    }
  }

  lemma {:induction false} SumZero<T(!new)>(s: set<T>, f: map<T, int>)
    requires s <= f.Keys && forall x :: x in s ==> f[x] == 0
    ensures Sum(s, f) == 0
  {
    if s != {} {
      var x :| x in s;
      SumRemove(s, f, x);
      SumZero(s - {x}, f);
    }
  }

  /** Changing one summand. */
  lemma SumUpdate<T(!new)>(f: map<T, int>, g: map<T, int>, x: T)
    requires g.Keys == f.Keys && x in f
    requires forall y :: y in f && y != x ==> g[y] == f[y]
    ensures Sum(g.Keys, g) == Sum(f.Keys, f) - f[x] + g[x]
  {
    SumRemove(f.Keys, f, x);
    SumRemove(g.Keys, g, x);
    SumAgree(f.Keys - {x}, f, g);
  }

  /** One more summand. */
  lemma SumInsert<T(!new)>(f: map<T, int>, g: map<T, int>, x: T)
    requires x !in f && g.Keys == f.Keys + {x}
    requires forall y :: y in f ==> g[y] == f[y]
    ensures Sum(g.Keys, g) == Sum(f.Keys, f) + g[x]
  {
    SumAdd(f.Keys, g, x);
    SumAgree(f.Keys, f, g);
  }

  lemma {:induction false} SumNonNegative<T(!new)>(s: set<T>, f: map<T, int>)
    requires s <= f.Keys && forall x :: x in s ==> f[x] >= 0
    ensures Sum(s, f) >= 0
  {
    if s != {} {
      var x :| x in s;
      SumRemove(s, f, x);
      SumNonNegative(s - {x}, f);
    }
  }

  /** The sum over a table's rows. */
  ghost function Tally<T(!new), U>(m: map<T, U>, val: (T, U) -> int): int {
    var f := map t | t in m :: val(t, m[t]);
    Sum(f.Keys, f)
  }

  /** Writing one row. */
  lemma TallyPut<T(!new), U>(m: map<T, U>, val: (T, U) -> int, x: T, u: U)
    ensures Tally(m[x := u], val) == Tally(m, val) - (if x in m then val(x, m[x]) else 0) + val(x, u)
  {
    var n := m[x := u];
    var f, g := map t | t in m :: val(t, m[t]), map t | t in n :: val(t, n[t]);
    if x in m {
      assert g.Keys == f.Keys;
      SumUpdate(f, g, x);
    } else {
      assert g.Keys == f.Keys + {x};
      SumInsert(f, g, x);
    }
  }
}
