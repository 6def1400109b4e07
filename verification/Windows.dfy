/** The windows of an allowance: fixed UTC hours, days and months, each with an
    id that names it in a counter key. Instants are nanoseconds since 1 January
    of year 0. */
module Windows {
  import opened Decimals
  import Tiles

  datatype Period = Hour | Day | Month

  const HOUR := 3_600_000_000_000
  const DAY := 86_400_000_000_000

  /** Where each month begins, in days. The Gregorian calendar is one. */
  type Calendar = f: int -> int | Tiles.Months(f) ghost witness (m: int) => 31 * m

  function MonthOf(cal: Calendar, day: int): (m: int)
    ensures cal(m) <= day < cal(m + 1)
  {
    Tiles.Index(cal, day)
  }

  /** Day of the month, from 1. */
  function DayOfMonth(cal: Calendar, day: int): (d: int)
    ensures 1 <= d <= 31
  {
    assert Tiles.Short(cal, MonthOf(cal, day));
    day - cal(MonthOf(cal, day)) + 1
  }

  // --------------------------------------------------------------- the windows

  /** Which window of its kind an instant falls in. */
  function Number(cal: Calendar, p: Period, t: int): int {
    match p
    case Hour => t / HOUR
    case Day => t / DAY
    case Month => MonthOf(cal, t / DAY)
  }

  /** Where a window begins. */
  function Edge(cal: Calendar, p: Period, n: int): int {
    match p
    case Hour => n * HOUR
    case Day => n * DAY
    case Month => cal(n) * DAY
  }

  function Start(cal: Calendar, p: Period, t: int): int { Edge(cal, p, Number(cal, p, t)) }

  function End(cal: Calendar, p: Period, t: int): int { Edge(cal, p, Number(cal, p, t) + 1) }

  /** Windows tile time: an instant is inside its own window and no other. */
  lemma Tiling(cal: Calendar, p: Period, t: int, u: int)
    ensures Start(cal, p, t) <= t < End(cal, p, t)
    ensures Number(cal, p, u) == Number(cal, p, t) <==> Start(cal, p, t) <= u < End(cal, p, t)
  {
    match p
    case Hour =>
      var n := t / HOUR;
      WholeHour(n, t); WholeHour(n + 1, t); WholeHour(n, u); WholeHour(n + 1, u);
    case Day =>
      var n := t / DAY;
      WholeDay(n, t); WholeDay(n + 1, t); WholeDay(n, u); WholeDay(n + 1, u);
    case Month => MonthTiling(cal, t, u);
  }

  lemma MonthTiling(cal: Calendar, t: int, u: int)
    ensures Start(cal, Month, t) <= t < End(cal, Month, t)
    ensures Number(cal, Month, u) == Number(cal, Month, t) <==> Start(cal, Month, t) <= u < End(cal, Month, t)
  {
    var m := MonthOf(cal, t / DAY);
    WholeDay(cal(m), t);
    WholeDay(cal(m + 1), t);
    WholeDay(cal(m), u);
    WholeDay(cal(m + 1), u);
    if cal(m) <= u / DAY < cal(m + 1) { Tiles.IndexUnique(cal, u / DAY, m); }
  }

  lemma WholeHour(n: int, t: int)
    ensures n <= t / HOUR <==> n * HOUR <= t
  {
  }

  lemma WholeDay(n: int, t: int)
    ensures n <= t / DAY <==> n * DAY <= t
  {
  }

  // ------------------------------------------------------------------- the ids

  function YearText(y: int): string {
    if y < 0 then "-" + Padded(-y, 4) else Padded(y, 4)
  }

  function MonthText(m: int): string {
    YearText(m / 12) + Padded(m % 12 + 1, 2)
  }

  function DayText(cal: Calendar, day: int): string {
    MonthText(MonthOf(cal, day)) + Padded(DayOfMonth(cal, day), 2)
  }

  function HourText(cal: Calendar, n: int): string {
    DayText(cal, n / 24) + Padded(n % 24, 2)
  }

  function Id(cal: Calendar, p: Period, t: int): string {
    match p
    case Hour => "h" + HourText(cal, Number(cal, p, t))
    case Day => "d" + DayText(cal, Number(cal, p, t))
    case Month => "m" + MonthText(Number(cal, p, t))
  }

  /** An id spells the year, the month from 1, the day from 1 and the hour from 0
      of its window's start. */
  lemma {:induction false} IdReads(cal: Calendar, y: int, month: int, day: int, hour: int, t: int)
    requires 1 <= month <= 12 && 0 <= hour < 24 && 1 <= day <= cal(12 * y + month) - cal(12 * y + month - 1)
    requires t / HOUR == 24 * (cal(12 * y + month - 1) + day - 1) + hour
    ensures Id(cal, Month, t) == "m" + (YearText(y) + Padded(month, 2))
    ensures Id(cal, Day, t) == "d" + (YearText(y) + Padded(month, 2) + Padded(day, 2))
    ensures Id(cal, Hour, t) == "h" + (YearText(y) + Padded(month, 2) + Padded(day, 2) + Padded(hour, 2))
  {
    var m := 12 * y + month - 1;
    var d := cal(m) + day - 1;
    HoursOfDay(t);
    Divided(t / HOUR, 24, d, hour);
    Divided(m, 12, y, month - 1);
    Tiles.IndexUnique(cal, d, m);
  }

  lemma Divided(n: int, k: int, q: int, r: int)
    requires (k == 12 || k == 24) && n == k * q + r && 0 <= r < k
    ensures n / k == q && n % k == r
  {
  }

  lemma HoursOfDay(t: int)
    ensures t / DAY == (t / HOUR) / 24
  {
  }

  lemma YearInjective(y: int, z: int)
    requires YearText(y) == YearText(z)
    ensures y == z
  {
    ValueOfPadded(if y < 0 then -y else y, 4);
    ValueOfPadded(if z < 0 then -z else z, 4);
    assert y < 0 ==> YearText(y)[0] == '-' && YearText(y)[1..] == Padded(-y, 4);
    assert z < 0 ==> YearText(z)[0] == '-' && YearText(z)[1..] == Padded(-z, 4);
  }

  /** A two-digit tail splits off. */
  lemma TailInjective(s: string, a: nat, t: string, b: nat)
    requires a < 100 && b < 100 && s + Padded(a, 2) == t + Padded(b, 2)
    ensures s == t && a == b
  {
    Padded2(a);
    Padded2(b);
    var u := s + Padded(a, 2);
    assert s == u[..|u| - 2] && t == u[..|u| - 2];
    assert Padded(a, 2) == u[|u| - 2..] && Padded(b, 2) == u[|u| - 2..];
    ValueOfPadded(a, 2);
    ValueOfPadded(b, 2);
  }

  lemma MonthInjective(m: int, n: int)
    requires MonthText(m) == MonthText(n)
    ensures m == n
  {
    TailInjective(YearText(m / 12), m % 12 + 1, YearText(n / 12), n % 12 + 1);
    YearInjective(m / 12, n / 12);
  }

  lemma DayInjective(cal: Calendar, d: int, e: int)
    requires DayText(cal, d) == DayText(cal, e)
    ensures d == e
  {
    TailInjective(MonthText(MonthOf(cal, d)), DayOfMonth(cal, d), MonthText(MonthOf(cal, e)), DayOfMonth(cal, e));
    MonthInjective(MonthOf(cal, d), MonthOf(cal, e));
  }

  lemma HourInjective(cal: Calendar, m: int, n: int)
    requires HourText(cal, m) == HourText(cal, n)
    ensures m == n
  {
    TailInjective(DayText(cal, m / 24), m % 24, DayText(cal, n / 24), n % 24);
    DayInjective(cal, m / 24, n / 24);
  }

  /** Two instants share an id exactly when they share the window. */
  lemma IdNamesWindow(cal: Calendar, p: Period, t: int, q: Period, u: int)
    ensures Id(cal, p, t) == Id(cal, q, u) <==> p == q && Start(cal, p, t) <= u < End(cal, p, t)
  {
    Tiling(cal, p, t, u);
    if Id(cal, p, t) == Id(cal, q, u) {
      assert Id(cal, p, t)[0] == Id(cal, q, u)[0];
      assert Id(cal, p, t)[1..] == Id(cal, q, u)[1..];
      SameText(cal, p, Number(cal, p, t), Number(cal, p, u));
    }
  }

  function Text(cal: Calendar, p: Period, n: int): string {
    match p case Hour => HourText(cal, n) case Day => DayText(cal, n) case Month => MonthText(n)
  }

  lemma SameText(cal: Calendar, p: Period, m: int, n: int)
    requires Text(cal, p, m) == Text(cal, p, n)
    ensures m == n
  {
    match p
    case Hour => HourInjective(cal, m, n);
    case Day => DayInjective(cal, m, n);
    case Month => MonthInjective(m, n);
  }
}
