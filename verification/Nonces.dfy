/** Replay defence: seven rotating buckets of used nonces, which must answer as
    an unbounded log of accepted uses would. Instants are nanoseconds. */
module Nonces {

  const NONCE_BUCKETS := 6
  const DEFAULT_TTL := 600_000_000_000

  /** The composite a pair is stored under. */
  function Key(keyId: string, nonce: string): string {
    keyId + "\0" + nonce
  }

  // ------------------------------------------------------- the unbounded log

  datatype Use = Use(at: int, window: int, key: string)

  /** Every accepted use, each in the window it fell in; `window` is the
      latest one reached. */
  datatype Log = Log(start: int, width: int, window: int, uses: seq<Use>)

  function WindowOf(start: int, width: int, t: int): int
    requires width > 0
  {
    (t - start) / width
  }

  function Advance(l: Log, now: int): Log
    requires l.width > 0
  {
    var w := WindowOf(l.start, l.width, now);
    if w > l.window then l.(window := w) else l
  }

  /** Used in the current window or one of the six before it. */
  predicate Held(l: Log, key: string) {
    exists i :: 0 <= i < |l.uses| && l.uses[i].key == key && l.uses[i].window >= l.window - NONCE_BUCKETS
  }

  function UseLog(l: Log, now: int, key: string): (Log, bool)
    requires l.width > 0
  {
    var a := Advance(l, now);
    if Held(a, key) then (a, true) else (a.(uses := a.uses + [Use(now, a.window, key)]), false)
  }

  function KeysIn(l: Log, w: int): set<string> {
    set i | 0 <= i < |l.uses| && l.uses[i].window == w :: l.uses[i].key
  }

  // ----------------------------------------------------------- the ring

  function Slot(head: int, age: int): int {
    (head + 7 - age) % 7
  }

  /** The instant the current window ends. */
  function Edge(l: Log): int {
    l.start + (l.window + 1) * l.width
  }

  /** Each bucket holds exactly the keys accepted in its window. */
  ghost predicate Ring(l: Log, buckets: seq<set<string>>, head: int) {
    && |buckets| == 7 && 0 <= head < 7
    && (forall age :: 0 <= age <= 6 ==> buckets[Slot(head, age)] == KeysIn(l, l.window - age))
    && forall i :: 0 <= i < |l.uses| ==> l.uses[i].window <= l.window
  }

  class NonceStore {
    const bucketDur: int
    const buckets: array<set<string>>
    var head: int
    var rotateAt: int
    ghost var log: Log

    ghost predicate Valid()
      reads this, buckets
    {
      && bucketDur > 0 && log.width == bucketDur && log.window >= 0
      && rotateAt == Edge(log)
      && Ring(log, buckets[..], head)
    }

    /** A ttl of 1 to 5 nanoseconds leaves no bucket width, and a store that
        could never rotate; every other ttl gives a working store. */
    constructor (ttl: int, now: int)
      ensures Valid() <==> ttl <= 0 || ttl >= NONCE_BUCKETS
      ensures bucketDur == (if ttl <= 0 then DEFAULT_TTL else ttl) / NONCE_BUCKETS
      ensures log == Log(now, bucketDur, 0, []) && fresh(buckets)
    {
      var t := if ttl <= 0 then DEFAULT_TTL else ttl;
      bucketDur := t / NONCE_BUCKETS;
      buckets := new set<string>[NONCE_BUCKETS + 1](_ => {});
      head := 0;
      rotateAt := now + t / NONCE_BUCKETS;
      log := Log(now, t / NONCE_BUCKETS, 0, []);
    }

    /** Move to the window of `now`, clearing each bucket taken over. */
    method Rotate(now: int)
      requires Valid()
      modifies this`head, this`rotateAt, this`log, buckets
      ensures Valid() && now < rotateAt
      ensures log == Advance(old(log), now)
    {
      var l0 := log;
      while now >= rotateAt
        invariant Valid()
        invariant log == l0.(window := log.window) && log.window >= l0.window
        invariant log.window > l0.window ==> WindowOf(l0.start, l0.width, now) >= log.window
        decreases now - rotateAt
      {
        WindowReached(log, now);
        Turn(log, buckets[..], head, buckets[..][(head + 1) % 7 := {}]);
        head := (head + 1) % buckets.Length;
        buckets[head] := {};
        rotateAt := rotateAt + bucketDur;
        log := log.(window := log.window + 1);
      }
      WindowNotReached(log, now);
    }

    /** Refused exactly when the log still holds the pair. */
    method UseNonce(keyId: string, nonce: string, now: int) returns (replay: bool)
      requires Valid()
      modifies this`head, this`rotateAt, this`log, buckets
      ensures Valid()
      ensures (log, replay) == UseLog(old(log), now, Key(keyId, nonce))
    {
      var key := Key(keyId, nonce);
      Rotate(now);
      for i := 0 to buckets.Length
        invariant forall j :: 0 <= j < i ==> key !in buckets[j]
      {
        if key in buckets[i] {
          FoundMeansHeld(log, buckets[..], head, key, i);
          return true;
        }
      }
      AbsentMeansNotHeld(log, buckets[..], head, key);
      Insert(log, buckets[..], head, Use(now, log.window, key), buckets[..][head := buckets[head] + {key}]);
      buckets[head] := buckets[head] + {key};
      log := log.(uses := log.uses + [Use(now, log.window, key)]);
      return false;
    }
  }

  lemma WindowReached(l: Log, now: int)
    requires l.width > 0 && now >= Edge(l)
    ensures WindowOf(l.start, l.width, now) >= l.window + 1
  {
    DivAtLeast(now - l.start, l.width, l.window + 1);
  }

  lemma WindowNotReached(l: Log, now: int)
    requires l.width > 0 && now < Edge(l)
    ensures WindowOf(l.start, l.width, now) <= l.window
  {
    DivBelow(now - l.start, l.width, l.window + 1);
  }

  lemma DivAtLeast(x: int, d: int, q: int)
    requires d > 0 && x >= q * d
    ensures x / d >= q
  {
    MulMonotone(q, x / d + 1, d);
  }

  lemma DivBelow(x: int, d: int, q: int)
    requires d > 0 && x < q * d
    ensures x / d < q
  {
    MulMonotone(x / d, q, d);
  }

  lemma MulMonotone(a: int, b: int, d: int)
    requires d > 0
    ensures a * d < b * d <==> a < b
  {
    if a < b { assert (b - a) * d > 0; } else { assert (a - b) * d >= 0; }
  }

  lemma SlotTurns(head: int, age: int)
    requires 0 <= head < 7 && 1 <= age <= 6
    ensures Slot((head + 1) % 7, age) == Slot(head, age - 1) != (head + 1) % 7
  {
  }

  /** One rotation: every bucket is a window older, the new head is empty. */
  lemma Turn(l: Log, before: seq<set<string>>, head: int, after: seq<set<string>>)
    requires Ring(l, before, head)
    requires after == before[(head + 1) % 7 := {}]
    ensures Ring(l.(window := l.window + 1), after, (head + 1) % 7)
    ensures Edge(l.(window := l.window + 1)) == Edge(l) + l.width
  {
    var l', h := l.(window := l.window + 1), (head + 1) % 7;
    forall age | 0 <= age <= 6 ensures after[Slot(h, age)] == KeysIn(l', l'.window - age) {
      if age == 0 {
        assert KeysIn(l', l'.window) == {};
      } else {
        SlotTurns(head, age);
        assert KeysIn(l', l'.window - age) == KeysIn(l, l.window - (age - 1));
      }
    }
  }

  lemma Insert(l: Log, before: seq<set<string>>, head: int, u: Use, after: seq<set<string>>)
    requires Ring(l, before, head) && u.window == l.window
    requires after == before[head := before[head] + {u.key}]
    ensures Ring(l.(uses := l.uses + [u]), after, head)
  {
    var l' := l.(uses := l.uses + [u]);
    forall age | 0 <= age <= 6 ensures after[Slot(head, age)] == KeysIn(l', l'.window - age) {
      KeysAppend(l, u, l.window - age);
      assert Slot(head, 0) == head;
    }
  }

  lemma KeysAppend(l: Log, u: Use, w: int)
    ensures KeysIn(l.(uses := l.uses + [u]), w) == KeysIn(l, w) + if u.window == w then {u.key} else {}
  {
    var l' := l.(uses := l.uses + [u]);
    forall k | k in KeysIn(l, w) ensures k in KeysIn(l', w) {
      var i :| 0 <= i < |l.uses| && l.uses[i].window == w && l.uses[i].key == k;
      assert l'.uses[i] == l.uses[i];
    }
    if u.window == w { assert l'.uses[|l.uses|] == u; }
  }

  lemma FoundMeansHeld(l: Log, buckets: seq<set<string>>, head: int, key: string, i: int)
    requires Ring(l, buckets, head) && 0 <= i < 7 && key in buckets[i]
    ensures Held(l, key)
  {
    var age := (head + 7 - i) % 7;
    assert Slot(head, age) == i;
    assert key in KeysIn(l, l.window - age);
  }

  lemma AbsentMeansNotHeld(l: Log, buckets: seq<set<string>>, head: int, key: string)
    requires Ring(l, buckets, head) && forall j :: 0 <= j < 7 ==> key !in buckets[j]
    ensures !Held(l, key)
  {
    forall i | 0 <= i < |l.uses| && l.uses[i].window >= l.window - NONCE_BUCKETS ensures l.uses[i].key != key {
      var age := l.window - l.uses[i].window;
      assert l.uses[i].key in KeysIn(l, l.window - age);
      assert l.uses[i].key in buckets[Slot(head, age)];
    }
  }
}
