/** A VTIMEZONE component built by sampling a zone every hour and bisecting each
    hour in which the offset changed. Instants are nanoseconds. */
module VTimezone {
  import opened Decimals
  import Civil

  const SECOND := 1_000_000_000
  const HOUR := 3600 * SECOND

  /** A zone's abbreviation and offset (seconds east) at an instant. */
  datatype Zone = Zone(name: string, off: int)

  datatype Observance = Observance(at: int, fromOff: int, toOff: int, name: string, daylight: bool)

  /** The instant with its fraction of a second dropped. */
  function Whole(t: int): int {
    t - t % SECOND
  }

  ghost predicate Transition(zone: int -> Zone, p: int) {
    p % SECOND == 0 && zone(p).off != zone(p - SECOND).off
  }

  /** In the window [lo, hi) offsets change on whole seconds, at least an hour
      apart. */
  ghost predicate Regular(zone: int -> Zone, lo: int, hi: int) {
    && lo % SECOND == 0
    && (forall t :: lo <= t < hi ==> zone(t).off == zone(Whole(t)).off)
    && (forall p, q :: lo < p < q < hi && Transition(zone, p) && Transition(zone, q) ==> q - p >= HOUR)
  }

  /** What a table says of an instant: the offset of the last observance whose
      onset, to the second, is not after it. */
  function OffsetAt(obs: seq<Observance>, x: int): int
    requires |obs| > 0
  {
    var last := obs[|obs| - 1];
    if |obs| == 1 || Whole(last.at) <= x then last.toOff else OffsetAt(obs[..|obs| - 1], x)
  }

  ghost predicate Agrees(zone: int -> Zone, obs: seq<Observance>, from: int, till: int) {
    |obs| > 0 && forall x :: from <= x <= till ==> OffsetAt(obs, x) == zone(x).off
  }

  /** The name is the zone's within the hour after the onset. */
  ghost predicate Named(zone: int -> Zone, o: Observance) {
    exists t :: o.at <= t < o.at + HOUR && zone(t) == Zone(o.name, o.toOff)
  }

  /** A change of the zone's offset within the window. */
  ghost predicate Onset(zone: int -> Zone, o: Observance, from: int, till: int) {
    && Transition(zone, Whole(o.at)) && from < Whole(o.at) <= till
    && o.fromOff == zone(Whole(o.at) - SECOND).off && o.toOff == zone(Whole(o.at)).off
    && (o.daylight <==> o.toOff > o.fromOff)
  }

  /** The first entry describes the window's start; every other one a change,
      in order. */
  ghost predicate Faithful(zone: int -> Zone, obs: seq<Observance>, from: int, till: int) {
    && |obs| > 0 && obs[0] == Observance(from, zone(from).off, zone(from).off, zone(from).name, false)
    && (forall i :: 0 <= i < |obs| ==> Named(zone, obs[i]))
    && (forall i :: 0 < i < |obs| ==> Onset(zone, obs[i], from, till))
    && (forall i, j :: 0 <= i < j < |obs| ==> Whole(obs[i].at) < Whole(obs[j].at))
  }

  // ---------------------------------------------------------------- the zone

  /** Without a change in (a, b] the offset is the same at both. */
  lemma {:induction false} SameOffset(zone: int -> Zone, lo: int, hi: int, a: int, b: int)
    requires Regular(zone, lo, hi) && lo <= a <= b < hi
    requires forall p :: a < p <= b ==> !Transition(zone, p)
    ensures zone(a).off == zone(b).off
    decreases b - a
  {
    var fa, fb := Whole(a), Whole(b);
    assert zone(a).off == zone(fa).off && zone(b).off == zone(fb).off;
    if fa != fb {
      WholeStep(a, b);
      assert !Transition(zone, fb);
      if fb - SECOND >= a { SameOffset(zone, lo, hi, a, fb - SECOND); } else { WholeNext(a, fb); }
    }
  }

  lemma WholeStep(a: int, b: int)
    requires a <= b && Whole(a) != Whole(b)
    ensures a < Whole(b) <= b && Whole(b) % SECOND == 0
  {
  }

  lemma WholeNext(a: int, f: int)
    requires f % SECOND == 0 && f - SECOND < a < f
    ensures Whole(a) == f - SECOND
  {
  }

  /** Two samples an hour apart tell whether the hour holds a change. */
  lemma HourConstant(zone: int -> Zone, lo: int, hi: int, a: int, b: int)
    requires Regular(zone, lo, hi) && lo <= a <= b < hi && b <= a + HOUR && zone(a).off == zone(b).off
    ensures forall p :: a < p <= b ==> !Transition(zone, p)
  {
    forall p | a < p <= b ensures !Transition(zone, p) {
      if Transition(zone, p) {
        OneChange(zone, lo, hi, a, b, p, b);
        OneChange(zone, lo, hi, a, b, p, a);
      }
    }
  }

  /** With its one change at p, the hour has the old offset before p and the
      new one from p on. */
  lemma OneChange(zone: int -> Zone, lo: int, hi: int, a: int, b: int, p: int, x: int)
    requires Regular(zone, lo, hi) && lo <= a <= x <= b < hi && b <= a + HOUR && a < p <= b && Transition(zone, p)
    ensures zone(x).off == if x < p then zone(a).off else zone(b).off
    ensures zone(a).off == zone(p - SECOND).off && zone(b).off == zone(p).off
  {
    forall q | a < q <= b && q != p ensures !Transition(zone, q) {}
    SameOffset(zone, lo, hi, p, b);
    if p - SECOND >= a { SameOffset(zone, lo, hi, a, p - SECOND); } else { WholeNextOffset(zone, lo, hi, a, p); }
    if x < p { SameOffset(zone, lo, hi, a, x); } else { SameOffset(zone, lo, hi, x, b); }
  }

  lemma WholeNextOffset(zone: int -> Zone, lo: int, hi: int, a: int, p: int)
    requires Regular(zone, lo, hi) && lo <= a < hi && Transition(zone, p) && p - SECOND < a < p
    ensures zone(a).off == zone(p - SECOND).off
  {
    WholeNext(a, p);
    assert zone(a).off == zone(Whole(a)).off;
  }

  // ------------------------------------------------------------- the builder

  /** Halve (lo, hi] until it is a second wide: its whole second is where the
      offset stops being `prev`. */
  method Bisect(zone: int -> Zone, lo0: int, hi0: int, prev: int, ghost from: int, ghost to: int) returns (hi: int)
    requires from <= lo0 < hi0 < to && zone(lo0).off == prev && zone(hi0).off != prev
    ensures lo0 < hi <= hi0
    ensures Regular(zone, from, to) ==> lo0 < Whole(hi) && Transition(zone, Whole(hi))
  {
    var lo := lo0;
    hi := hi0;
    while hi - lo > SECOND
      invariant lo0 <= lo < hi <= hi0
      invariant zone(lo).off == prev && zone(hi).off != prev
      decreases hi - lo
    {
      var mid := lo + (hi - lo) / 2;
      if zone(mid).off == prev { lo := mid; } else { hi := mid; }
    }
    if Regular(zone, from, to) { ChangeAtWhole(zone, from, to, lo, hi); }
  }

  lemma ChangeAtWhole(zone: int -> Zone, from: int, to: int, lo: int, hi: int)
    requires Regular(zone, from, to) && from <= lo && hi < to && lo < hi <= lo + SECOND && zone(lo).off != zone(hi).off
    ensures Transition(zone, Whole(hi)) && lo < Whole(hi) <= hi
  {
    if p :| lo < p <= hi && Transition(zone, p) {
      assert Whole(hi) == p;
    } else {
      SameOffset(zone, from, to, lo, hi);
    }
  }

  /** The table for a window: with offset changes on whole seconds an hour or
      more apart, it gives the zone's offset at every instant from the window's
      start to an hour before its end, and is already in order. */
  method Build(zone: int -> Zone, from: int, to: int) returns (obs: seq<Observance>)
    requires from % SECOND == 0
    ensures |obs| > 0
    ensures Regular(zone, from, to) ==>
      exists till :: to - HOUR <= till && (till < to || till == from) && Faithful(zone, obs, from, till)
    ensures Regular(zone, from, to) ==> Agrees(zone, obs, from, to - HOUR)
  {
    var prevOff := zone(from).off;
    obs := [Observance(from, prevOff, prevOff, zone(from).name, false)];
    var t := from;
    ghost var last := from;
    assert Named(zone, obs[0]) by { assert zone(from) == Zone(zone(from).name, prevOff); }
    assert Faithful(zone, obs, from, from);
    assert Agrees(zone, obs, from, from);
    while t < to
      invariant |obs| > 0 && from <= last && prevOff == zone(last).off
      invariant if t == from then last == from else last == t - HOUR
      invariant (last < to || last == from) && (t >= to ==> last >= to - HOUR)
      invariant Regular(zone, from, to) ==> Faithful(zone, obs, from, last)
      invariant Regular(zone, from, to) ==> Agrees(zone, obs, from, last)
    {
      var here := zone(t);
      if here.off != prevOff {
        var hi := Bisect(zone, t - HOUR, t, prevOff, from, to);
        var o := Observance(hi, prevOff, here.off, here.name, here.off > prevOff);
        if Regular(zone, from, to) {
          assert Named(zone, o) by { assert zone(t) == Zone(o.name, o.toOff); }
          AppendChange(zone, obs, from, to, last, t, o);
        }
        obs := obs + [o];
        prevOff := here.off;
      } else if Regular(zone, from, to) {
        ExtendConstant(zone, obs, from, to, last, t);
      }
      last := t;
      t := t + HOUR;
    }
  }

  lemma ExtendConstant(zone: int -> Zone, obs: seq<Observance>, from: int, to: int, last: int, t: int)
    requires Regular(zone, from, to) && from <= last <= t < to && t <= last + HOUR && zone(last).off == zone(t).off
    requires Faithful(zone, obs, from, last) && Agrees(zone, obs, from, last)
    ensures Faithful(zone, obs, from, t) && Agrees(zone, obs, from, t)
  {
    HourConstant(zone, from, to, last, t);
    forall x | from <= x <= t ensures OffsetAt(obs, x) == zone(x).off {
      if x > last {
        SameOffset(zone, from, to, last, x);
        LaterSame(zone, obs, from, last, x);
      }
    }
  }

  /** Past its last onset a table keeps saying the same. */
  lemma LaterSame(zone: int -> Zone, obs: seq<Observance>, from: int, last: int, x: int)
    requires Faithful(zone, obs, from, last) && from <= last <= x
    ensures OffsetAt(obs, x) == OffsetAt(obs, last)
  {
  }

  lemma AppendChange(zone: int -> Zone, obs: seq<Observance>, from: int, to: int, last: int, t: int, o: Observance)
    requires Regular(zone, from, to) && from <= last < t < to && t <= last + HOUR
    requires Faithful(zone, obs, from, last) && Agrees(zone, obs, from, last)
    requires last < Whole(o.at) <= t && Transition(zone, Whole(o.at))
    requires o.fromOff == zone(last).off && o.toOff == zone(t).off && (o.daylight <==> o.toOff > o.fromOff)
    requires Named(zone, o)
    ensures Faithful(zone, obs + [o], from, t) && Agrees(zone, obs + [o], from, t)
  {
    OneChange(zone, from, to, last, t, Whole(o.at), t);
    AppendFaithful(zone, obs, from, last, t, o);
    forall x | from <= x <= t ensures OffsetAt(obs + [o], x) == zone(x).off {
      AppendOffset(obs, o, x);
      if x >= last {
        OneChange(zone, from, to, last, t, Whole(o.at), x);
        if x < Whole(o.at) { LaterSame(zone, obs, from, last, x); }
      }
    }
  }

  lemma AppendOffset(obs: seq<Observance>, o: Observance, x: int)
    requires |obs| > 0
    ensures OffsetAt(obs + [o], x) == if Whole(o.at) <= x then o.toOff else OffsetAt(obs, x)
  {
    assert (obs + [o])[..|obs|] == obs;
  }

  lemma AppendFaithful(zone: int -> Zone, obs: seq<Observance>, from: int, last: int, t: int, o: Observance)
    requires Faithful(zone, obs, from, last) && from % SECOND == 0 && from <= last < Whole(o.at) <= t
    requires Transition(zone, Whole(o.at)) && (o.daylight <==> o.toOff > o.fromOff) && Named(zone, o)
    requires o.fromOff == zone(Whole(o.at) - SECOND).off && o.toOff == zone(Whole(o.at)).off
    ensures Faithful(zone, obs + [o], from, t)
  {
    var more := obs + [o];
    assert Whole(from) == from;
    forall i | 0 <= i < |obs| ensures more[i] == obs[i] && Whole(obs[i].at) < Whole(o.at) {
      if i > 0 { assert Onset(zone, obs[i], from, last); }
    }
    forall i | 0 < i < |more| ensures Onset(zone, more[i], from, t) {
      if i < |obs| { assert Onset(zone, obs[i], from, last); }
    }
  }

  // ------------------------------------------------ what a client reads back

  /** UTC-OFFSET of section 3.3.14 of RFC 5545, seconds left out. */
  function FormatOffset(sec: int): string {
    var a := if sec < 0 then -sec else sec;
    (if sec < 0 then "-" else "+") + Padded(a / 3600, 2) + Padded(a % 3600 / 60, 2)
  }

  /** Sign, two digits of hours, two of minutes. */
  function ReadOffset(s: string): int
    requires |s| == 5 && Digits(s[1..])
  {
    var a := Value(s[1..3]) * 3600 + Value(s[3..]) * 60;
    if s[0] == '-' then -a else a
  }

  predicate TwoDigitHours(sec: int) {
    -360_000 < sec < 360_000
  }

  lemma FormatShape(sec: int)
    requires TwoDigitHours(sec)
    ensures |FormatOffset(sec)| == 5 && Digits(FormatOffset(sec)[1..])
    ensures
      var a := if sec < 0 then -sec else sec;
      FormatOffset(sec)[1..3] == Padded(a / 3600, 2) && FormatOffset(sec)[3..] == Padded(a % 3600 / 60, 2)
  {
    var a := if sec < 0 then -sec else sec;
    var h, m := Padded(a / 3600, 2), Padded(a % 3600 / 60, 2);
    Padded2(a / 3600);
    Padded2(a % 3600 / 60);
    ValueOfPadded(a / 3600, 2);
    ValueOfPadded(a % 3600 / 60, 2);
    var s := FormatOffset(sec);
    assert s[1..] == h + m && s[1..3] == h && s[3..] == m;
  }

  /** An offset survives the round trip exactly when it is whole minutes. */
  lemma OffsetRoundTrip(sec: int)
    requires TwoDigitHours(sec)
    ensures |FormatOffset(sec)| == 5 && Digits(FormatOffset(sec)[1..])
    ensures ReadOffset(FormatOffset(sec)) == sec <==> sec % 60 == 0
  {
    FormatShape(sec);
    var a := if sec < 0 then -sec else sec;
    ValueOfPadded(a / 3600, 2);
    ValueOfPadded(a % 3600 / 60, 2);
    Minutes(a);
  }

  lemma Minutes(a: int)
    ensures a / 3600 * 3600 + a % 3600 / 60 * 60 == a - a % 60
    ensures a % 60 == 0 <==> (-a) % 60 == 0
  {
    var h, m, s := a / 3600, a % 3600 / 60, a % 3600 % 60;
    Mod60(a, 60 * h + m, s);
    if s == 0 { Mod60(-a, -(60 * h + m), 0); } else { Mod60(-a, -(60 * h + m) - 1, 60 - s); }
  }

  lemma Mod60(x: int, q: int, s: int)
    requires x == 60 * q + s && 0 <= s < 60
    ensures x % 60 == s
  {
  }

  /** The onset as rendered (seconds of local time at the prior offset), and
      the two offsets. */
  datatype Rendered = Rendered(dtstart: int, offsetFrom: string, offsetTo: string)

  function RenderOne(o: Observance): Rendered {
    Rendered((o.at + o.fromOff * SECOND) / SECOND, FormatOffset(o.fromOff), FormatOffset(o.toOff))
  }

  predicate WholeMinutes(o: Observance) {
    && TwoDigitHours(o.fromOff) && o.fromOff % 60 == 0
    && TwoDigitHours(o.toOff) && o.toOff % 60 == 0
  }

  /** A client takes the prior offset from the local onset, and gets the
      onset's whole second and the new offset (section 3.6.5 of RFC 5545). */
  lemma ClientReadsBack(o: Observance)
    requires WholeMinutes(o)
    ensures
      var r := RenderOne(o);
      && |r.offsetFrom| == 5 && Digits(r.offsetFrom[1..]) && |r.offsetTo| == 5 && Digits(r.offsetTo[1..])
      && (r.dtstart - ReadOffset(r.offsetFrom)) * SECOND == Whole(o.at)
      && ReadOffset(r.offsetTo) == o.toOff
  {
    OffsetRoundTrip(o.fromOff);
    OffsetRoundTrip(o.toOff);
    assert (o.at + o.fromOff * SECOND) / SECOND == o.at / SECOND + o.fromOff;
  }

  predicate WellFormed(r: Rendered) {
    |r.offsetFrom| == 5 && Digits(r.offsetFrom[1..]) && |r.offsetTo| == 5 && Digits(r.offsetTo[1..])
  }

  function RenderAll(obs: seq<Observance>): seq<Rendered> {
    if obs == [] then [] else RenderAll(obs[..|obs| - 1]) + [RenderOne(obs[|obs| - 1])]
  }

  /** The offset a client takes from the component for an instant. */
  function ClientOffset(rs: seq<Rendered>, x: int): int
    requires |rs| > 0 && forall i :: 0 <= i < |rs| ==> WellFormed(rs[i])
  {
    var last := rs[|rs| - 1];
    assert WellFormed(last);
    if |rs| == 1 || (last.dtstart - ReadOffset(last.offsetFrom)) * SECOND <= x then ReadOffset(last.offsetTo)
    else ClientOffset(rs[..|rs| - 1], x)
  }

  /** For offsets of whole minutes the component a client reads says what the
      table says. */
  lemma {:induction false} ClientAgrees(obs: seq<Observance>, x: int)
    requires |obs| > 0 && forall o :: o in obs ==> WholeMinutes(o)
    ensures |RenderAll(obs)| == |obs| && forall i :: 0 <= i < |obs| ==> WellFormed(RenderAll(obs)[i])
    ensures ClientOffset(RenderAll(obs), x) == OffsetAt(obs, x)
  {
    var pre, last := obs[..|obs| - 1], obs[|obs| - 1];
    assert last in obs;
    ClientReadsBack(last);
    if |obs| > 1 {
      ClientAgrees(pre, x);
      var rs := RenderAll(obs);
      assert rs[..|rs| - 1] == RenderAll(pre);
    } else {
      assert RenderAll(pre) == [] && RenderAll(obs) == [RenderOne(last)];
    }
  }

  // ------------------------------------------------------------- end to end

  /** The first instant of a year, in UTC. */
  function NewYear(year: int): int { Civil.MonthStart(12 * year) * (24 * HOUR) }

  /** Every offset of the window is whole minutes. */
  ghost predicate MinuteOffsets(zone: int -> Zone, from: int, to: int) {
    forall t :: from <= t < to ==> TwoDigitHours(zone(t).off) && zone(t).off % 60 == 0
  }

  ghost predicate Plain(zone: int -> Zone, from: int, to: int) {
    Regular(zone, from, to) && MinuteOffsets(zone, from, to)
  }

  lemma FaithfulMinutes(zone: int -> Zone, obs: seq<Observance>, from: int, till: int, to: int)
    requires from % SECOND == 0 && from <= till < to && Faithful(zone, obs, from, till) && MinuteOffsets(zone, from, to)
    ensures forall o :: o in obs ==> WholeMinutes(o)
  {
    forall o | o in obs ensures WholeMinutes(o) {
      var i :| 0 <= i < |obs| && obs[i] == o;
      if i > 0 {
        assert Whole(o.at) - SECOND >= from by { Apart(from, Whole(o.at)); }
      }
    }
  }

  lemma Apart(a: int, b: int)
    requires a % SECOND == 0 && b % SECOND == 0 && a < b
    ensures b - SECOND >= a
  {
  }

  /** The component for a year: from a year before it to three after. A client
      computes the zone's offset from it at every instant of that window but its
      last hour, when the zone's changes there are on whole seconds an hour or more
      apart and its offsets whole minutes (section 3.6.5 of RFC 5545). */
  method Component(zone: int -> Zone, year: int) returns (rs: seq<Rendered>)
    ensures Plain(zone, NewYear(year - 1), NewYear(year + 3)) ==>
      && |rs| > 0 && (forall i :: 0 <= i < |rs| ==> WellFormed(rs[i]))
      && forall x :: NewYear(year - 1) <= x <= NewYear(year + 3) - HOUR ==> ClientOffset(rs, x) == zone(x).off
  {
    var from, to := NewYear(year - 1), NewYear(year + 3);
    YearWindow(year);
    var obs := Build(zone, from, to);
    rs := RenderAll(obs);
    if Plain(zone, from, to) {
      var till :| to - HOUR <= till && (till < to || till == from) && Faithful(zone, obs, from, till);
      FaithfulMinutes(zone, obs, from, till, to);
      ClientAgrees(obs, from);
      forall x | from <= x <= to - HOUR ensures ClientOffset(rs, x) == zone(x).off { ClientAgrees(obs, x); }
    }
  }

  lemma YearWindow(year: int)
    ensures NewYear(year - 1) % SECOND == 0 && NewYear(year - 1) + HOUR <= NewYear(year + 3)
  {
    Civil.MonthsIncrease(12 * (year - 1), 12 * (year + 3));
    WholeDays(Civil.MonthStart(12 * (year - 1)));
  }

  lemma WholeDays(d: int)
    ensures d * (24 * HOUR) % SECOND == 0
  {
    assert d * (24 * HOUR) == SECOND * (d * 86400);
  }
}
