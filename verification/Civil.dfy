/** Intervals that follow one another: the i-th is [start(i), start(i + 1)). */
module Tiles {

  ghost predicate Strides(start: int -> int) {
    forall m, n :: m < n ==> start(m) + (n - m) <= start(n)
  }

  function From(start: int -> int, x: int, m: int): (r: int)
    requires Strides(start) && start(m) <= x
    ensures start(r) <= x < start(r + 1)
    decreases x - start(m)
  {
    if x < start(m + 1) then m else From(start, x, m + 1)
  }

  /** The interval x falls in. */
  function Index(start: int -> int, x: int): (r: int)
    requires Strides(start)
    ensures start(r) <= x < start(r + 1)
  {
    if start(0) <= x then From(start, x, 0) else From(start, x, x - start(0))
  }

  /** Starts of months: they tile the days, none longer than 31. */
  ghost predicate Months(start: int -> int) {
    Strides(start) && forall m {:trigger Short(start, m)} :: Short(start, m)
  }

  predicate Short(start: int -> int, m: int) {
    start(m + 1) - start(m) <= 31
  }

  lemma IndexUnique(start: int -> int, x: int, m: int)
    requires Strides(start) && start(m) <= x < start(m + 1)
    ensures Index(start, x) == m
  {
  }
}

/** The proleptic Gregorian calendar in UTC. Days count from 1 January of year
    0; a month is numbered 12 * year + (month - 1). */
module Civil {
  import opened Tiles

  function LeapsBefore(y: int): int {
    (y + 3) / 4 - (y + 99) / 100 + (y + 399) / 400
  }

  predicate Leap(y: int) {
    y % 4 == 0 && (y % 100 != 0 || y % 400 == 0)
  }

  function YearStart(y: int): int {
    365 * y + LeapsBefore(y)
  }

  function DaysBefore(month: int, leap: bool): int
    requires 0 <= month <= 12
  {
    var d := [0, 31, 59, 90, 120, 151, 181, 212, 243, 273, 304, 334, 365][month];
    if leap && month >= 2 then d + 1 else d
  }

  function MonthStart(m: int): int {
    YearStart(m / 12) + DaysBefore(m % 12, Leap(m / 12))
  }

  function DaysIn(m: int): int {
    var k := m % 12;
    DaysBefore(k + 1, Leap(m / 12)) - DaysBefore(k, Leap(m / 12))
  }

  lemma YearLength(y: int)
    ensures YearStart(y + 1) == YearStart(y) + if Leap(y) then 366 else 365
  {
    LeapCount(y);
  }

  lemma LeapCount(y: int)
    ensures LeapsBefore(y + 1) == LeapsBefore(y) + if Leap(y) then 1 else 0
  {
    Ceil4(y);
    Ceil100(y);
    Ceil400(y);
    if y % 400 == 0 { By100(y); }
    if y % 100 == 0 { By4(y); }
  }

  lemma By100(y: int)
    requires y % 400 == 0
    ensures y % 100 == 0
  {
  }

  lemma By4(y: int)
    requires y % 100 == 0
    ensures y % 4 == 0
  {
  }

  lemma Ceil4(y: int)
    ensures (y + 4) / 4 == (y + 3) / 4 + if y % 4 == 0 then 1 else 0
  {
  }

  lemma Ceil100(y: int)
    ensures (y + 100) / 100 == (y + 99) / 100 + if y % 100 == 0 then 1 else 0
  {
  }

  lemma Ceil400(y: int)
    ensures (y + 400) / 400 == (y + 399) / 400 + if y % 400 == 0 then 1 else 0
  {
  }

  /** Months follow one another without a gap. */
  lemma MonthLength(m: int)
    ensures MonthStart(m + 1) == MonthStart(m) + DaysIn(m)
    ensures 28 <= DaysIn(m) <= 31
  {
    var y, k := m / 12, m % 12;
    YearLength(y);
    if k == 11 {
      assert (m + 1) / 12 == y + 1 && (m + 1) % 12 == 0;
    } else {
      assert (m + 1) / 12 == y && (m + 1) % 12 == k + 1;
    }
  }

  lemma {:induction false} MonthsIncrease(m: int, n: int)
    requires m < n
    ensures MonthStart(m) + 28 * (n - m) <= MonthStart(n)
    decreases n - m
  {
    MonthLength(n - 1);
    if m < n - 1 { MonthsIncrease(m, n - 1); }
  }

  /** The months tile the days, each 28 to 31 long. */
  lemma GregorianMonths()
    ensures Months(MonthStart)
  {
    forall m, n | m < n ensures MonthStart(m) + (n - m) <= MonthStart(n) { MonthsIncrease(m, n); }
    forall m ensures Short(MonthStart, m) { MonthLength(m); }
  }
}
