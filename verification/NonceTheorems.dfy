/** What the replay window means for a caller, over every sequence of uses with
    a clock that does not run backwards. */
module NonceTheorems {
  import opened Nonces
  import opened Strings

  datatype Call = Call(keyId: string, nonce: string, now: int)

  ghost predicate Ordered(start: int, calls: seq<Call>) {
    && (forall i :: 0 <= i < |calls| ==> start <= calls[i].now)
    && forall i, j :: 0 <= i < j < |calls| ==> calls[i].now <= calls[j].now
  }

  function Fresh(start: int, width: int): Log {
    Log(start, width, 0, [])
  }

  /** The log after all the calls. */
  function After(start: int, width: int, calls: seq<Call>): (l: Log)
    requires width > 0
    ensures l.start == start && l.width == width
  {
    if calls == [] then Fresh(start, width)
    else
      var c := calls[|calls| - 1];
      UseLog(After(start, width, calls[..|calls| - 1]), c.now, Key(c.keyId, c.nonce)).0
  }

  /** Whether call j was refused. */
  predicate Refused(start: int, width: int, calls: seq<Call>, j: int)
    requires width > 0 && 0 <= j < |calls|
  {
    UseLog(After(start, width, calls[..j]), calls[j].now, Key(calls[j].keyId, calls[j].nonce)).1
  }

  /** The log is exactly the accepted calls, each in the window of its own
      instant, and `window` is the window of the latest call. */
  ghost predicate Faithful(start: int, width: int, calls: seq<Call>, l: Log)
    requires width > 0
  {
    && l.start == start && l.width == width
    && (calls == [] ==> l.window == 0)
    && (calls != [] ==> l.window == WindowOf(start, width, calls[|calls| - 1].now))
    && (forall i :: 0 <= i < |calls| && !Refused(start, width, calls, i) ==> Recorded(l, UseOf(start, width, calls[i])))
    && (forall u :: Recorded(l, u) ==>
          exists i :: 0 <= i < |calls| && !Refused(start, width, calls, i) && u == UseOf(start, width, calls[i]))
  }

  predicate Recorded(l: Log, u: Use) {
    u in l.uses
  }

  function UseOf(start: int, width: int, c: Call): Use
    requires width > 0
  {
    Use(c.now, WindowOf(start, width, c.now), Key(c.keyId, c.nonce))
  }

  lemma WindowMonotone(start: int, width: int, s: int, t: int)
    requires width > 0 && s <= t
    ensures WindowOf(start, width, s) <= WindowOf(start, width, t)
  {
    var q := (s - start) / width;
    DivAtLeast(t - start, width, q);
  }

  lemma {:induction false} LogIsFaithful(start: int, width: int, calls: seq<Call>)
    requires width > 0 && Ordered(start, calls)
    ensures Faithful(start, width, calls, After(start, width, calls))
  {
    if calls != [] {
      var n := |calls| - 1;
      var pre, c := calls[..n], calls[n];
      LogIsFaithful(start, width, pre);
      var l := After(start, width, pre);
      WindowMonotone(start, width, if n == 0 then start else pre[n - 1].now, c.now);
      assert Advance(l, c.now).window == WindowOf(start, width, c.now);
      RefusedPrefix(start, width, calls, n);
      Extend(start, width, calls, l);
    }
  }

  /** What comes later does not change what was refused. */
  lemma RefusedPrefix(start: int, width: int, calls: seq<Call>, n: int)
    requires width > 0 && 0 <= n <= |calls|
    ensures forall i :: 0 <= i < n ==> Refused(start, width, calls, i) == Refused(start, width, calls[..n], i)
  {
    forall i | 0 <= i < n ensures Refused(start, width, calls, i) == Refused(start, width, calls[..n], i) {
      assert calls[..i] == calls[..n][..i];
    }
  }

  lemma Extend(start: int, width: int, calls: seq<Call>, l: Log)
    requires width > 0 && |calls| > 0
    requires l == After(start, width, calls[..|calls| - 1])
    requires Faithful(start, width, calls[..|calls| - 1], l)
    requires Advance(l, calls[|calls| - 1].now).window == WindowOf(start, width, calls[|calls| - 1].now)
    requires forall i :: 0 <= i < |calls| - 1 ==>
               Refused(start, width, calls, i) == Refused(start, width, calls[..|calls| - 1], i)
    ensures Faithful(start, width, calls, After(start, width, calls))
  {
    var n := |calls| - 1;
    var pre, c := calls[..n], calls[n];
    var l' := After(start, width, calls);
    var u := UseOf(start, width, c);
    assert Refused(start, width, calls, n) <==> Held(Advance(l, c.now), u.key);
    assert l'.uses == if Refused(start, width, calls, n) then l.uses else l.uses + [u];
    forall i | 0 <= i < |calls| && !Refused(start, width, calls, i)
      ensures Recorded(l', UseOf(start, width, calls[i]))
    {
      if i < n { assert pre[i] == calls[i]; assert Recorded(l, UseOf(start, width, pre[i])); }
    }
    forall v | Recorded(l', v)
      ensures exists i :: 0 <= i < |calls| && !Refused(start, width, calls, i) && v == UseOf(start, width, calls[i])
    {
      if Recorded(l, v) {
        var i :| 0 <= i < n && !Refused(start, width, pre, i) && v == UseOf(start, width, pre[i]);
        assert calls[i] == pre[i];
      } else {
        assert v == UseOf(start, width, calls[n]);
      }
    }
  }

  /** Call i was accepted, under the key of call j, and fell in its window or
      one of the six before. */
  predicate Blocks(start: int, width: int, calls: seq<Call>, i: int, j: int)
    requires width > 0 && 0 <= i < j < |calls|
  {
    && !Refused(start, width, calls, i)
    && Key(calls[i].keyId, calls[i].nonce) == Key(calls[j].keyId, calls[j].nonce)
    && WindowOf(start, width, calls[i].now) >= WindowOf(start, width, calls[j].now) - NONCE_BUCKETS
  }

  /** The log as call j finds it. */
  function LogAt(start: int, width: int, calls: seq<Call>, j: int): Log
    requires width > 0 && 0 <= j < |calls|
  {
    Advance(After(start, width, calls[..j]), calls[j].now)
  }

  lemma LogBefore(start: int, width: int, calls: seq<Call>, j: int)
    requires width > 0 && Ordered(start, calls) && 0 <= j < |calls|
    ensures LogAt(start, width, calls, j).window == WindowOf(start, width, calls[j].now)
    ensures Refused(start, width, calls, j) <==>
              Held(LogAt(start, width, calls, j), Key(calls[j].keyId, calls[j].nonce))
  {
    var pre, c := calls[..j], calls[j];
    LogIsFaithful(start, width, pre);
    WindowMonotone(start, width, if j == 0 then start else pre[j - 1].now, c.now);
  }

  /** Every use accepted before call j is in the log. */
  lemma AcceptedIsRecorded(start: int, width: int, calls: seq<Call>, i: int, j: int)
    requires width > 0 && Ordered(start, calls) && 0 <= i < j < |calls| && !Refused(start, width, calls, i)
    ensures Recorded(LogAt(start, width, calls, j), UseOf(start, width, calls[i]))
  {
    var pre := calls[..j];
    LogIsFaithful(start, width, pre);
    RefusedPrefix(start, width, calls, j);
    assert pre[i] == calls[i] && !Refused(start, width, pre, i);
    assert Recorded(After(start, width, pre), UseOf(start, width, pre[i]));
  }

  /** Nothing else is. */
  lemma RecordedWasAccepted(start: int, width: int, calls: seq<Call>, j: int, u: Use) returns (i: int)
    requires width > 0 && Ordered(start, calls) && 0 <= j < |calls| && Recorded(LogAt(start, width, calls, j), u)
    ensures 0 <= i < j && !Refused(start, width, calls, i) && u == UseOf(start, width, calls[i])
  {
    var pre := calls[..j];
    LogIsFaithful(start, width, pre);
    RefusedPrefix(start, width, calls, j);
    assert Recorded(After(start, width, pre), u);
    i :| 0 <= i < j && !Refused(start, width, pre, i) && u == UseOf(start, width, pre[i]);
  }

  /** A use is refused exactly when an accepted use of the same key fell in
      its window or one of the six before. */
  lemma RefusedExactly(start: int, width: int, calls: seq<Call>, j: int)
    requires width > 0 && Ordered(start, calls) && 0 <= j < |calls|
    ensures Refused(start, width, calls, j) <==> exists i :: 0 <= i < j && Blocks(start, width, calls, i, j)
  {
    var l, key := LogAt(start, width, calls, j), Key(calls[j].keyId, calls[j].nonce);
    LogBefore(start, width, calls, j);
    if Held(l, key) {
      var k :| 0 <= k < |l.uses| && l.uses[k].key == key && l.uses[k].window >= l.window - NONCE_BUCKETS;
      var i := RecordedWasAccepted(start, width, calls, j, l.uses[k]);
      assert Blocks(start, width, calls, i, j);
    }
    if i :| 0 <= i < j && Blocks(start, width, calls, i, j) {
      AcceptedIsRecorded(start, width, calls, i, j);
    }
  }

  // ------------------------------------------------------------ the key

  /** With no NUL in the key id the composite names one pair. */
  lemma KeyInjective(a: string, n: string, b: string, m: string)
    requires NulFree(a) && NulFree(b) && Key(a, n) == Key(b, m)
    ensures a == b && n == m
  {
    NulJoin(a, n, b, m);
  }

  /** Two pairs whose composites collide, once key ids may hold NUL. */
  lemma KeyCollision()
    ensures Key("a\0b", "c") == Key("a", "b\0c")
  {
    assert "a\0b" + "\0" + "c" == ['a', '\0', 'b', '\0', 'c'];
  }

  // --------------------------------------------------------- the window

  /** A pair used again within six bucket widths is refused. */
  lemma ReplayRefused(start: int, width: int, calls: seq<Call>, i: int, j: int)
    requires width > 0 && Ordered(start, calls) && 0 <= i < j < |calls|
    requires !Refused(start, width, calls, i)
    requires calls[i].keyId == calls[j].keyId && calls[i].nonce == calls[j].nonce
    requires calls[j].now - calls[i].now <= NONCE_BUCKETS * width
    ensures Refused(start, width, calls, j)
  {
    WindowShift(start, width, calls[i].now, NONCE_BUCKETS);
    WindowMonotone(start, width, calls[j].now, calls[i].now + NONCE_BUCKETS * width);
    RefusedExactly(start, width, calls, j);
    assert Blocks(start, width, calls, i, j);
  }

  lemma {:induction false} WindowShift(start: int, width: int, t: int, k: nat)
    requires width > 0
    ensures WindowOf(start, width, t + k * width) == WindowOf(start, width, t) + k
  {
    var x := t - start;
    var y := x + k * width;
    assert x == (x / width) * width + x % width;
    assert y == (x / width + k) * width + x % width;
    DivAtLeast(y, width, x / width + k);
    assert y < (x / width + k + 1) * width by { assert (x / width + k + 1) * width == (x / width + k) * width + width; }
    DivBelow(y, width, x / width + k + 1);
  }

  /** A pair not used in the last seven bucket widths is accepted. */
  lemma OldUseForgotten(start: int, width: int, calls: seq<Call>, j: int)
    requires width > 0 && Ordered(start, calls) && 0 <= j < |calls| && NulFree(calls[j].keyId)
    requires forall i :: 0 <= i < j && !Refused(start, width, calls, i) ==>
               && NulFree(calls[i].keyId)
               && (calls[i].keyId == calls[j].keyId && calls[i].nonce == calls[j].nonce ==>
                     calls[j].now - calls[i].now >= (NONCE_BUCKETS + 1) * width)
    ensures !Refused(start, width, calls, j)
  {
    RefusedExactly(start, width, calls, j);
    forall i | 0 <= i < j ensures !Blocks(start, width, calls, i, j) {
      var ci, cj := calls[i], calls[j];
      if !Refused(start, width, calls, i) && Key(ci.keyId, ci.nonce) == Key(cj.keyId, cj.nonce) {
        KeyInjective(calls[i].keyId, calls[i].nonce, calls[j].keyId, calls[j].nonce);
        WindowShift(start, width, calls[i].now, NONCE_BUCKETS + 1);
        WindowMonotone(start, width, calls[i].now + (NONCE_BUCKETS + 1) * width, calls[j].now);
      }
    }
  }

  /** Pairs are kept for at least `ttl`. */
  ghost predicate KeepsFor(width: int, ttl: int)
    requires width > 0
  {
    forall start, calls: seq<Call>, i, j ::
      Ordered(start, calls) && 0 <= i < j < |calls| && !Refused(start, width, calls, i)
      && calls[i].keyId == calls[j].keyId && calls[i].nonce == calls[j].nonce
      && calls[j].now - calls[i].now <= ttl
      ==> Refused(start, width, calls, j)
  }

  /** The promised retention of `ttl` is met exactly when six divides it:
      otherwise the six whole buckets are shorter than `ttl`. */
  lemma RetentionExactly(ttl: int)
    requires ttl >= NONCE_BUCKETS
    ensures KeepsFor(ttl / NONCE_BUCKETS, ttl) <==> ttl % NONCE_BUCKETS == 0
  {
    var width := ttl / NONCE_BUCKETS;
    if ttl % NONCE_BUCKETS == 0 {
      forall start, calls: seq<Call>, i, j |
        Ordered(start, calls) && 0 <= i < j < |calls| && !Refused(start, width, calls, i)
        && calls[i].keyId == calls[j].keyId && calls[i].nonce == calls[j].nonce
        && calls[j].now - calls[i].now <= ttl
        ensures Refused(start, width, calls, j)
      {
        ReplayRefused(start, width, calls, i, j);
      }
    } else {
      EarlyForget(ttl);
    }
  }

  /** One use at the end of a window, the same pair again `ttl` later. */
  lemma EarlyForget(ttl: int)
    requires ttl >= NONCE_BUCKETS && ttl % NONCE_BUCKETS != 0
    ensures
      var width := ttl / NONCE_BUCKETS;
      var calls := [Call("k", "n", width - 1), Call("k", "n", width - 1 + ttl)];
      Ordered(0, calls) && !Refused(0, width, calls, 0) && !Refused(0, width, calls, 1)
  {
    var width := ttl / NONCE_BUCKETS;
    var calls := [Call("k", "n", width - 1), Call("k", "n", width - 1 + ttl)];
    RefusedExactly(0, width, calls, 0);
    RefusedExactly(0, width, calls, 1);
    DivBelow(width - 1, width, 1);
    DivAtLeast(width - 1 + ttl, width, 7);
  }

  // --------------------------------------------------- whether rotation ends

  /** Where the edge stands after n turns of the rotation loop. */
  function Turned(rotateAt: int, width: int, n: nat): int {
    if n == 0 then rotateAt else Turned(rotateAt, width, n - 1) + width
  }

  /** Some number of turns takes the edge past the clock, so the loop ends. */
  ghost predicate RotationEnds(rotateAt: int, width: int, now: int) {
    exists n: nat :: now < Turned(rotateAt, width, n)
  }

  lemma {:induction false} TurnsAdvance(rotateAt: int, width: int, n: nat)
    ensures width > 0 ==> Turned(rotateAt, width, n) >= rotateAt + n
    ensures width <= 0 ==> Turned(rotateAt, width, n) <= rotateAt
  {
    if n > 0 { TurnsAdvance(rotateAt, width, n - 1); }
  }

  /** Once due, the rotation ends exactly when a bucket has any width. */
  lemma EndsExactly(rotateAt: int, width: int, now: int)
    requires now >= rotateAt
    ensures RotationEnds(rotateAt, width, now) <==> width > 0
  {
    if width > 0 {
      TurnsAdvance(rotateAt, width, now - rotateAt + 1);
    } else {
      forall n: nat ensures now >= Turned(rotateAt, width, n) { TurnsAdvance(rotateAt, width, n); }
    }
  }

  function WidthFor(ttl: int): int { (if ttl <= 0 then DEFAULT_TTL else ttl) / NONCE_BUCKETS }

  /** A store built with `ttl` at `start` answers every later use exactly when
      ttl is not 1 to 5 nanoseconds; with those the first use never returns. */
  lemma AnswersExactly(ttl: int, start: int, now: int)
    requires now >= start + WidthFor(ttl)
    ensures RotationEnds(start + WidthFor(ttl), WidthFor(ttl), now) <==> ttl <= 0 || ttl >= NONCE_BUCKETS
    ensures 0 < ttl < NONCE_BUCKETS ==> WidthFor(ttl) == 0
  {
    EndsExactly(start + WidthFor(ttl), WidthFor(ttl), now);
  }
}
