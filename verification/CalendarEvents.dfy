/** Materializing an event into a calendar: render it, compare with what is
    stored under its UID, and write only when the content changed, under a
    raised SEQUENCE. */
module CalendarEvents {
  import opened Wrappers
  import opened Decimals
  import opened Folding
  import opened Calendar
  import opened CalendarRuns
  import opened Strings

  datatype Facts = Facts(summary: string, dtstart: string, dtend: string, recurs: bool)

  /** An event, as the lines it renders to around its two volatile ones, and
      the facts a parse of those lines gives back. */
  datatype Event = Event(
    uid: string, before: seq<string>, between: seq<string>, after: seq<string>, sequence: int, facts: Facts)

  /** The lines of the encoding; the last line end leaves an empty piece. */
  function RenderLines(ev: Event, stamp: string): seq<string>
    requires ev.sequence >= 0
  {
    ev.before + ["DTSTAMP:" + stamp] + (ev.between + ["SEQUENCE:" + Decimal(ev.sequence)] + (ev.after + [""]))
  }

  function Stable(ev: Event): seq<string> {
    ev.before + (ev.between + (ev.after + [""]))
  }

  predicate Settled(lines: seq<string>) {
    forall i :: 0 <= i < |lines| ==> CleanLine(lines[i]) && !Volatile(lines[i])
  }

  predicate Lined(ev: Event, stamp: string) {
    Settled(ev.before) && Settled(ev.between) && Settled(ev.after) && CleanLine("DTSTAMP:" + stamp)
  }

  predicate Shaped(ev: Event, stamp: string) {
    TrimSpace(ev.uid) != "" && Lined(ev, stamp)
  }

  predicate Renders(ev: Event, stamp: string) {
    Shaped(ev, stamp) && ev.sequence >= 0
  }

  /** Lines fold after 75 characters, and every 74 from then on. */
  function FoldLine(line: string, room: nat): seq<Piece>
    decreases |line|, room == 0
  {
    if line == "" then []
    else if room == 0 then [Fold(false)] + FoldLine(line, 74)
    else [Ch(line[0])] + FoldLine(line[1..], room - 1)
  }

  function FoldAll(lines: seq<string>): seq<Piece> {
    if lines == [] then []
    else if |lines| == 1 then FoldLine(lines[0], 75)
    else FoldLine(lines[0], 75) + [Sep] + FoldAll(lines[1..])
  }

  function Render(ev: Event, stamp: string): Result<string, Error> {
    if Renders(ev, stamp) then Ok(Text(FoldAll(RenderLines(ev, stamp)))) else Err(Invalid)
  }

  // ---------------------------------------------- names the caller leaves out

  predicate NameChars(s: string) { forall i :: 0 <= i < |s| ==> NameChar(s[i]) }

  /** Each run of characters a name cannot hold becomes one '-'. */
  function Sanitized(s: string): (r: string)
    ensures NameChars(r)
    decreases |s|
  {
    if s == "" then ""
    else if NameChar(s[0]) then [s[0]] + Sanitized(s[1..])
    else "-" + Sanitized(TrimLeft(s[1..], Bad))
  }

  predicate Bad(c: char) { !NameChar(c) }

  predicate Edge(c: char) { c == '-' || c == '.' }

  function Local(uid: string): string {
    var at := IndexOf(uid, '@');
    var local := Trim(Sanitized(if at > 0 then uid[..at] else uid), Edge);
    if local == "" then "event" else if |local| > 200 then local[..200] else local
  }

  function DefaultObjectName(uid: string): string { Local(uid) + ".ics" }

  lemma {:induction false} TrimLeftIsClean(s: string)
    requires NameChars(s)
    ensures NameChars(TrimLeft(s, Edge))
  {
    if s != "" && Edge(s[0]) {
      assert NameChars(s[1..]);
      TrimLeftIsClean(s[1..]);
    }
  }

  lemma TrimIsClean(s: string)
    requires NameChars(s)
    ensures NameChars(Trim(s, Edge))
  {
    TrimLeftIsClean(s);
    assert Trim(s, Edge) <= TrimLeft(s, Edge);
  }

  lemma LocalIsClean(uid: string)
    ensures NameChars(Local(uid)) && 1 <= |Local(uid)| <= 200
  {
    var at := IndexOf(uid, '@');
    TrimIsClean(Sanitized(if at > 0 then uid[..at] else uid));
  }

  lemma DefaultNameIsValid(uid: string)
    ensures ValidObjectName(DefaultObjectName(uid))
  {
    LocalIsClean(uid);
    AddSuffix(Local(uid), ".ics");
  }

  lemma AddSuffix(a: string, b: string)
    requires NameChars(a) && NameChars(b)
    ensures NameChars(a + b)
  {
  }

  function Stem(name: string): string {
    var base := if |name| >= 4 && name[|name| - 4..] == ".ics" then name[..|name| - 4] else name;
    Trim(Sanitized(base), Edge)
  }

  function Personal(username: string): string {
    var at := LastIndexOf(username, '@');
    var local, domain := if at > 0 then username[..at] else username, if at > 0 then username[at + 1..] else "";
    if domain == "" then local else local + "@" + domain
  }

  function DefaultUid(name: string, username: string): string { Stem(name) + "." + Personal(username) }

  /** A name that could stand in a URL as it is. */
  predicate Neat(s: string) { NameChars(s) && (s != "" ==> !Edge(s[0]) && !Edge(s[|s| - 1])) }

  lemma {:induction false} CleanIsSanitized(s: string)
    requires NameChars(s)
    ensures Sanitized(s) == s
  {
    if s != "" {
      assert NameChars(s[1..]);
      CleanIsSanitized(s[1..]);
    }
  }

  /** A username without the `@` that ends it. */
  function Persona(u: string): string { if |u| > 1 && u[|u| - 1] == '@' then u[..|u| - 1] else u }

  lemma {:induction false} NeatIsStem(base: string)
    requires Neat(base)
    ensures Stem(base + ".ics") == base
  {
    var name := base + ".ics";
    assert name[..|name| - 4] == base && name[|name| - 4..] == ".ics";
    CleanIsSanitized(base);
  }

  lemma {:induction false} PersonalIs(u: string)
    ensures Personal(u) == Persona(u)
  {
    var at := LastIndexOf(u, '@');
    if at > 0 {
      assert u == u[..at] + "@" + u[at + 1..];
      if at + 1 < |u| { assert u[|u| - 1] != '@'; }
    }
  }

  /** The UID of an object left without one is its name, without `.ics`, and the
      persona it is for. */
  lemma {:induction false} DefaultUidIs(base: string, u: string)
    requires Neat(base)
    ensures DefaultUid(base + ".ics", u) == base + "." + Persona(u)
  {
    NeatIsStem(base);
    PersonalIs(u);
  }

  /** Two personas never share the UID derived for a name; two usernames do
      exactly when they differ by an `@` at the end. */
  lemma {:induction false} UidPerPersona(name: string, u: string, v: string)
    ensures DefaultUid(name, u) == DefaultUid(name, v) <==> Persona(u) == Persona(v)
  {
    PersonalIs(u);
    PersonalIs(v);
    SameAfter(Stem(name) + ".", Persona(u), Persona(v));
  }

  lemma SameAfter(pre: string, a: string, b: string)
    ensures pre + a == pre + b <==> a == b
  {
    assert (pre + a)[|pre|..] == a && (pre + b)[|pre|..] == b;
  }

  /** The name of an object left without one is its UID up to the `@`. */
  lemma {:induction false} DefaultNameIs(local: string, rest: string)
    requires Neat(local) && 1 <= |local| <= 200
    ensures DefaultObjectName(local + "@" + rest) == local + ".ics"
  {
    var uid := local + "@" + rest;
    FirstAt(local, rest);
    assert uid[..|local|] == local;
    CleanIsSanitized(local);
  }

  lemma {:induction false} FirstAt(local: string, rest: string)
    requires NameChars(local)
    ensures IndexOf(local + "@" + rest, '@') == |local|
  {
    var uid := local + "@" + rest;
    assert uid[|local|] == '@';
    assert forall i :: 0 <= i < |local| ==> uid[i] == local[i];
  }

  // ---------------------------------------------------------------- the put

  /** What a parse of the text gives back; the text holds the UID trimmed. */
  function ObjectOf(ev: Event, name: string, text: string): NewObject
    requires ev.sequence >= 0
  {
    NewObject(name, TrimSpace(ev.uid), "VEVENT", text, ev.facts.summary, ev.facts.dtstart, ev.facts.dtend,
              ev.facts.recurs, ev.sequence)
  }

  /** The row holds the facts of the text. */
  predicate Shows(row: Object, f: Facts) {
    && row.component == "VEVENT" && row.summary == f.summary && row.dtstart == f.dtstart && row.dtend == f.dtend
    && row.recurs == f.recurs
  }

  predicate Holds(row: Object, o: NewObject) {
    && row.ical == o.ical && row.sequence == o.sequence && row.summary == o.summary && row.dtstart == o.dtstart
    && row.dtend == o.dtend && row.recurs == o.recurs && (o.component != "" ==> row.component == o.component)
  }

  const BY_UID := PutOpts(true, Unset, Unset)

  /** What to store over the row read: the event under a sequence no lower
      than the stored one, one above it when the content differs. */
  function Raise(row: Option<Object>, ev: Event, stamp: string): Result<Event, Error> {
    var ev1 := if row.Some? && ev.sequence < row.value.sequence then ev.(sequence := row.value.sequence) else ev;
    var text := Render(ev1, stamp);
    if text.Err? then Err(text.error)
    else if row.Some? && !SameContent(row.value.ical, text.value) then Ok(ev1.(sequence := row.value.sequence + 1))
    else Ok(ev1)
  }

  /** Render, parse back and store, addressed by UID. */
  ghost function PutRendered(db: Db, cal: string, name: string, ev: Event, stamp: string, now: int)
    : (Db, Result<PutResult, Error>)
  {
    var text := Render(ev, stamp);
    if text.Err? then (db, Err(text.error))
    else Put(db, cal, Trimmed(ObjectOf(ev, name, text.value)), BY_UID, now)
  }

  /** The event with its UID: the one given, blanks and all, or one derived. */
  function Filled(name: string, ev: Event, username: string): Event {
    if TrimSpace(ev.uid) == "" then ev.(uid := DefaultUid(name, username)) else ev
  }

  /** The name it would be created under. */
  function NameFor(name: string, ev: Event): string {
    if name == "" then DefaultObjectName(TrimSpace(ev.uid)) else name
  }

  predicate Unaddressed(name: string, ev: Event) {
    (name != "" && !ValidObjectName(name)) || (TrimSpace(ev.uid) == "" && name == "")
  }

  ghost function RowFor(db: Db, cal: string, uid: string): Option<Object> {
    var found := ByUid(db, cal, uid);
    if found.Some? then Some(db.objects[Slot(cal, found.value)]) else None
  }

  /** The stored row is looked up by the UID as given, and written by the
      trimmed one. */
  ghost function PutEvent(db: Db, cal: string, given: string, ev: Event, username: string, stamp: string, now: int)
    : (Db, Result<PutResult, Error>)
  {
    var name := TrimSpace(given);
    if Unaddressed(name, ev) then (db, Err(Invalid))
    else
      var ev0 := Filled(name, ev, username);
      var last := Raise(RowFor(db, cal, ev0.uid), ev0, stamp);
      if last.Err? then (db, Err(last.error))
      else PutRendered(db, cal, NameFor(name, ev0), last.value, stamp, now)
  }

  /** The same, on the store: one read by UID, one or two renderings, one put. */
  method Materialized(s: Store, cal: string, given: string, ev: Event, username: string, stamp: string, now: int)
    returns (r: Result<PutResult, Error>)
    requires UidsUnique(s.Tables())
    modifies s
    ensures (s.Tables(), r) == PutEvent(old(s.Tables()), cal, given, ev, username, stamp, now)
  {
    var name := TrimSpace(given);
    if name != "" && !ValidObjectName(name) { return Err(Invalid); }
    var e := ev;
    if TrimSpace(e.uid) == "" {
      if name == "" { return Err(Invalid); }
      e := e.(uid := DefaultUid(name, username));
    }
    var found := s.FindUid(cal, e.uid);
    var row := if found.Some? then Some(s.objects[Slot(cal, found.value)]) else None;
    var last := Raised(row, e, stamp);
    if last.Err? { return Err(last.error); }
    var text := Render(last.value, stamp);
    if text.Err? { return Err(text.error); }
    r := s.PutObject(cal, ObjectOf(last.value, NameFor(name, e), text.value), BY_UID, now);
  }

  method Raised(row: Option<Object>, ev: Event, stamp: string) returns (r: Result<Event, Error>)
    ensures r == Raise(row, ev, stamp)
  {
    var e := ev;
    if row.Some? && e.sequence < row.value.sequence { e := e.(sequence := row.value.sequence); }
    var text := Render(e, stamp);
    if text.Err? { return Err(text.error); }
    if row.Some? && !SameContent(row.value.ical, text.value) { e := e.(sequence := row.value.sequence + 1); }
    return Ok(e);
  }

  // ---------------------------------------------- what the encoding folds

  lemma {:induction false} LinesOfFoldLine(line: string, room: nat, rest: seq<Piece>)
    ensures LinesOf(FoldLine(line, room) + rest) == [line + LinesOf(rest)[0]] + LinesOf(rest)[1..]
    decreases |line|, room == 0
  {
    if line == "" {
      assert FoldLine(line, room) + rest == rest;
      assert line + LinesOf(rest)[0] == LinesOf(rest)[0];
    } else if room == 0 {
      var more := FoldLine(line, 74);
      LinesOfFoldLine(line, 74, rest);
      LinesOfFold(false, more + rest);
      assert FoldLine(line, room) + rest == [Fold(false)] + (more + rest);
    } else {
      var more := FoldLine(line[1..], room - 1);
      LinesOfFoldLine(line[1..], room - 1, rest);
      LinesOfCh(line[0], more + rest);
      assert FoldLine(line, room) + rest == [Ch(line[0])] + (more + rest);
      assert [line[0]] + (line[1..] + LinesOf(rest)[0]) == line + LinesOf(rest)[0];
    }
  }

  lemma LinesOfCh(c: char, tail: seq<Piece>)
    ensures LinesOf([Ch(c)] + tail) == [[c] + LinesOf(tail)[0]] + LinesOf(tail)[1..]
  {
    assert ([Ch(c)] + tail)[1..] == tail;
  }

  lemma LinesOfFold(tab: bool, tail: seq<Piece>)
    ensures LinesOf([Fold(tab)] + tail) == LinesOf(tail)
  {
    assert ([Fold(tab)] + tail)[1..] == tail;
  }

  lemma {:induction false} LinesOfFoldAll(lines: seq<string>)
    requires lines != []
    ensures LinesOf(FoldAll(lines)) == lines
  {
    if |lines| == 1 {
      LinesOfFoldLine(lines[0], 75, []);
      assert FoldLine(lines[0], 75) + [] == FoldLine(lines[0], 75);
      assert lines[0] + "" == lines[0];
    } else {
      LinesOfFoldAll(lines[1..]);
      var rest := [Sep] + FoldAll(lines[1..]);
      assert rest[1..] == FoldAll(lines[1..]);
      LinesOfFoldLine(lines[0], 75, rest);
      assert FoldLine(lines[0], 75) + [Sep] + FoldAll(lines[1..]) == FoldLine(lines[0], 75) + rest;
      assert lines[0] + "" == lines[0];
    }
  }

  lemma {:induction false} KeepConcat(a: seq<string>, b: seq<string>)
    ensures Keep(a + b) == Keep(a) + Keep(b)
  {
    if a == [] {
      assert a + b == b;
    } else {
      assert (a + b)[1..] == a[1..] + b;
      KeepConcat(a[1..], b);
    }
  }

  lemma {:induction false} KeepSettled(a: seq<string>)
    requires Settled(a)
    ensures Keep(a) == a
  {
    if a != [] { KeepSettled(a[1..]); }
  }

  lemma VolatilePair(stamp: string, n: nat)
    ensures Keep(["DTSTAMP:" + stamp]) == [] && Keep(["SEQUENCE:" + Decimal(n)]) == []
  {
    var d, s := "DTSTAMP:" + stamp, "SEQUENCE:" + Decimal(n);
    assert d[..8] == "DTSTAMP:" && s[..9] == "SEQUENCE:";
    assert HasPrefix(d, "DTSTAMP") by { assert forall i :: 0 <= i < 7 ==> d[i] == d[..8][i]; }
    assert HasPrefix(s, "SEQUENCE") by { assert forall i :: 0 <= i < 8 ==> s[i] == s[..9][i]; }
  }

  lemma StableLines(ev: Event, stamp: string)
    requires Lined(ev, stamp) && ev.sequence >= 0
    ensures Keep(RenderLines(ev, stamp)) == Stable(ev)
  {
    VolatilePair(stamp, ev.sequence);
    KeepSettled(ev.after + [""]);
    KeepAround(ev.between, ["SEQUENCE:" + Decimal(ev.sequence)], ev.after + [""]);
    KeepAround(ev.before, ["DTSTAMP:" + stamp],
               ev.between + ["SEQUENCE:" + Decimal(ev.sequence)] + (ev.after + [""]));
  }

  lemma KeepAround(a: seq<string>, v: seq<string>, rest: seq<string>)
    requires Settled(a) && Keep(v) == []
    ensures Keep(a + v + rest) == a + Keep(rest)
  {
    KeepConcat(a + v, rest);
    KeepConcat(a, v);
    KeepSettled(a);
  }

  lemma CleanRender(ev: Event, stamp: string)
    requires Lined(ev, stamp) && ev.sequence >= 0
    ensures Clean(FoldAll(RenderLines(ev, stamp)))
    ensures LinesOf(FoldAll(RenderLines(ev, stamp))) == RenderLines(ev, stamp)
  {
    LinesOfFoldAll(RenderLines(ev, stamp));
    SequenceIsClean(ev.sequence);
  }

  lemma SequenceIsClean(n: nat)
    ensures CleanLine("SEQUENCE:" + Decimal(n))
  {
    ValueOfDecimal(n);
    var s := "SEQUENCE:" + Decimal(n);
    assert forall i :: 9 <= i < |s| ==> s[i] == Decimal(n)[i - 9];
  }

  /** Two renderings have the same content exactly when their stable lines
      agree, whatever their stamps and sequences. */
  lemma SameRendering(a: Event, sa: string, b: Event, sb: string)
    requires Renders(a, sa) && Renders(b, sb)
    ensures SameContent(Render(a, sa).value, Render(b, sb).value) <==> Stable(a) == Stable(b)
  {
    CleanRender(a, sa);
    CleanRender(b, sb);
    StableLines(a, sa);
    StableLines(b, sb);
    SameContentExactly(FoldAll(RenderLines(a, sa)), FoldAll(RenderLines(b, sb)));
  }

  /** What is left of an event's text once the volatile lines are dropped. */
  function Content(ev: Event): string { JoinLines(Stable(ev)) }

  lemma RenderedContent(ev: Event, stamp: string)
    requires Renders(ev, stamp)
    ensures Render(ev, stamp).Ok? && Render(ev, stamp).value != ""
    ensures Stripped(Render(ev, stamp).value) == Content(ev)
  {
    CleanRender(ev, stamp);
    StableLines(ev, stamp);
    StrippedFolding(FoldAll(RenderLines(ev, stamp)));
    assert |LinesOf([])| == 1;
    assert |RenderLines(ev, stamp)| >= 3;
  }

  // --------------------------------------------------- re-materialization

  datatype Call = Call(name: string, ev: Event, username: string, stamp: string, now: int)

  function EventOf(c: Call): Event { Filled(TrimSpace(c.name), c.ev, c.username) }

  /** The UID the call is stored under. */
  function StoredUid(c: Call): string { TrimSpace(EventOf(c).uid) }

  function CreatedName(c: Call): string { NameFor(TrimSpace(c.name), EventOf(c)) }

  ghost function Called(db: Db, cal: string, c: Call): (Db, Result<PutResult, Error>) {
    PutEvent(db, cal, c.name, c.ev, c.username, c.stamp, c.now)
  }

  predicate Addressed(c: Call) {
    !Unaddressed(TrimSpace(c.name), c.ev) && Shaped(EventOf(c), c.stamp)
  }

  /** A call that can be stored over a row of its UID: when the UID is bare its
      sequence may be anything, as it is raised to the row's. */
  predicate Accepted(c: Call) {
    Addressed(c) && (Bare(EventOf(c).uid) || EventOf(c).sequence >= 0)
  }

  /** A live calendar with whatever put `at` there under the UID: a client, an
      import, or an earlier call. */
  ghost predicate Stored(db: Db, cal: string, uid: string, at: string) {
    Inv(db) && CalLive(db, cal) && cal != "" && HasUid(db, cal, uid, at)
  }

  function Greater(a: int, b: int): int { if a > b then a else b }

  /** The sequence rendered over the row read: one above the stored one when the
      content differs, whatever was asked for, else the greater of the two. */
  lemma RaiseExactly(row: Object, ev: Event, stamp: string)
    requires Shaped(ev, stamp)
    ensures
      var r := Raise(Some(row), ev, stamp);
      && r.Ok? && Renders(r.value, stamp) && r.value == ev.(sequence := r.value.sequence)
      && r.value.sequence ==
           if Stripped(row.ical) != Content(ev) then row.sequence + 1 else Greater(row.sequence, ev.sequence)
  {
    var ev1 := if ev.sequence < row.sequence then ev.(sequence := row.sequence) else ev;
    RenderedContent(ev1, stamp);
  }

  /** No stored UID has a blank at an end, so one that has is never found. */
  lemma BlankIsNotFound(db: Db, cal: string, uid: string)
    requires Inv(db) && !Bare(uid)
    ensures !LiveUid(db, cal, uid) && RowFor(db, cal, uid) == None
  {
    forall n ensures !HasUid(db, cal, uid, n) {
      if Slot(cal, n) in db.objects { assert RowOk(db, Slot(cal, n)); }
    }
  }

  /** What a call puts: the event as rendered, under the name and UID trimmed. */
  lemma CallPuts(db: Db, cal: string, c: Call) returns (o: NewObject, last: Event)
    requires Inv(db) && Addressed(c)
    requires RowFor(db, cal, EventOf(c).uid).Some? || EventOf(c).sequence >= 0
    ensures Called(db, cal, c) == Put(db, cal, o, BY_UID, c.now)
    ensures Raise(RowFor(db, cal, EventOf(c).uid), EventOf(c), c.stamp) == Ok(last) && last.sequence >= 0
    ensures o == ObjectOf(last, CreatedName(c), o.ical) && o.uid == StoredUid(c) && Bare(o.uid)
    ensures Stripped(o.ical) == Content(EventOf(c)) && o.ical != "" && o.name != "" && ValidObjectName(o.name)
  {
    var ev := EventOf(c);
    var row := RowFor(db, cal, ev.uid);
    if row.Some? { RaiseExactly(row.value, ev, c.stamp); } else { RenderedContent(ev, c.stamp); }
    last := Raise(row, ev, c.stamp).value;
    RenderedContent(last, c.stamp);
    o := ObjectOf(last, CreatedName(c), Render(last, c.stamp).value);
    NamedOk(c);
    TrimIsBare(ev.uid);
    BareIsTrimmed(o.uid);
    ValidIsBare(o.name);
    BareIsTrimmed(o.name);
  }

  lemma ValidIsBare(name: string)
    requires ValidObjectName(name)
    ensures Bare(name)
  {
    assert NameChar(name[0]) && NameChar(name[|name| - 1]);
  }

  lemma NamedOk(c: Call)
    requires Addressed(c)
    ensures ValidObjectName(CreatedName(c))
  {
    DefaultNameIsValid(StoredUid(c));
  }

  /** The sequence a call with changed content leaves over a row. */
  function SequenceOver(row: nat, c: Call): int {
    if Bare(EventOf(c).uid) then row + 1 else EventOf(c).sequence
  }

  /** A call over any live row of its UID: the same content leaves the whole
      store as it was; changed content is stored, under the same name and the
      next modseq. Its SEQUENCE is one above the stored one when the UID was
      given bare, and just the event's own when it was not. */
  lemma PutAgain(db: Db, cal: string, at: string, c: Call)
    requires Accepted(c) && Stored(db, cal, StoredUid(c), at)
    ensures
      var (row, ev) := (db.objects[Slot(cal, at)], EventOf(c));
      var (db', r) := Called(db, cal, c);
      && Stored(db', cal, StoredUid(c), at) && r.Ok? && r.value.name == at
      && (r.value.noop <==> Stripped(row.ical) == Content(ev))
      && (r.value.noop ==> db' == db)
      && (!r.value.noop ==>
            && db'.cals[cal].token == db.cals[cal].token + 1 == db'.objects[Slot(cal, at)].modseq
            && db'.objects[Slot(cal, at)].sequence == SequenceOver(row.sequence, c)
            && Shows(db'.objects[Slot(cal, at)], ev.facts))
      && Stripped(db'.objects[Slot(cal, at)].ical) == Content(ev)
  {
    RaisedOver(db, cal, at, c);
    var o, last := CallPuts(db, cal, c);
    PutOver(db, cal, at, o, c.now);
    PutInv(db, cal, o, BY_UID, c.now);
  }

  lemma RaisedOver(db: Db, cal: string, at: string, c: Call)
    requires Accepted(c) && Stored(db, cal, StoredUid(c), at)
    ensures
      var (row, ev) := (db.objects[Slot(cal, at)], EventOf(c));
      var (found, last) := (RowFor(db, cal, ev.uid), Raise(RowFor(db, cal, ev.uid), ev, c.stamp));
      && (found.Some? || ev.sequence >= 0) && last.Ok?
      && (Stripped(row.ical) != Content(ev) ==> last.value.sequence == SequenceOver(row.sequence, c))
  {
    var row, ev := db.objects[Slot(cal, at)], EventOf(c);
    BareIsTrimmed(ev.uid);
    if Bare(ev.uid) {
      assert ByUid(db, cal, ev.uid) == Some(at);
      RaiseExactly(row, ev, c.stamp);
    } else {
      BlankIsNotFound(db, cal, ev.uid);
    }
  }

  /** Over a live row changed content raises the stored SEQUENCE exactly when the
      UID is given without a blank at its ends, or the event's own is higher. */
  lemma RaisedExactly(db: Db, cal: string, at: string, c: Call)
    requires Accepted(c) && Stored(db, cal, StoredUid(c), at)
    requires Stripped(db.objects[Slot(cal, at)].ical) != Content(EventOf(c))
    ensures Stored(Called(db, cal, c).0, cal, StoredUid(c), at)
    ensures
      var (row, row') := (db.objects[Slot(cal, at)], Called(db, cal, c).0.objects[Slot(cal, at)]);
      row'.sequence > row.sequence <==> Bare(EventOf(c).uid) || EventOf(c).sequence > row.sequence
  {
    PutAgain(db, cal, at, c);
  }

  /** A put by UID over a live object of that UID. */
  lemma PutOver(db: Db, cal: string, at: string, o: NewObject, now: int)
    requires UidsUnique(db) && CalLive(db, cal) && !Malformed(cal, o) && HasUid(db, cal, o.uid, at)
    ensures
      var (db', r) := Put(db, cal, o, BY_UID, now);
      && r.Ok? && r.value.name == at && CalLive(db', cal) && HasUid(db', cal, o.uid, at)
      && (r.value.noop <==> SameContent(db.objects[Slot(cal, at)].ical, o.ical))
      && (r.value.noop ==> db' == db)
      && (!r.value.noop ==>
            && db'.cals[cal].token == db.cals[cal].token + 1 == db'.objects[Slot(cal, at)].modseq
            && Holds(db'.objects[Slot(cal, at)], o))
  {
    assert ByUid(db, cal, o.uid) == Some(at);
  }

  /** Under its name the call would find a live object of another UID that reads
      the same; then it stores nothing. */
  ghost predicate Shadowed(db: Db, cal: string, c: Call) {
    var slot := Slot(cal, CreatedName(c));
    LiveAt(db, cal, slot.name) && Stripped(db.objects[slot].ical) == Content(EventOf(c))
  }

  /** It does not happen where UIDs are read from the text: the same content
      then has the same UID. */
  lemma ReadUidsDoNotShadow(db: Db, cal: string, c: Call, uidIn: string -> string)
    requires forall n :: LiveAt(db, cal, n) ==>
               db.objects[Slot(cal, n)].uid == uidIn(Stripped(db.objects[Slot(cal, n)].ical))
    requires uidIn(Content(EventOf(c))) == StoredUid(c) && !LiveUid(db, cal, StoredUid(c))
    ensures !Shadowed(db, cal, c)
  {
    if LiveAt(db, cal, CreatedName(c)) { assert !HasUid(db, cal, StoredUid(c), CreatedName(c)); }
  }

  /** A call whose UID is not live creates the object under its name, with the
      sequence it asks for, over whatever other UID is live there. */
  lemma PutFirst(db: Db, cal: string, c: Call)
    requires Inv(db) && CalLive(db, cal) && cal != ""
    requires Addressed(c) && EventOf(c).sequence >= 0 && !LiveUid(db, cal, StoredUid(c))
    ensures
      var (at, ev) := (CreatedName(c), EventOf(c));
      var (db', r) := Called(db, cal, c);
      && r.Ok? && r.value.name == at && (r.value.noop <==> Shadowed(db, cal, c))
      && (r.value.noop ==> db' == db)
      && (!r.value.noop ==>
            && Stored(db', cal, StoredUid(c), at) && db'.objects[Slot(cal, at)].sequence == ev.sequence
            && db'.cals[cal].token == db.cals[cal].token + 1 == db'.objects[Slot(cal, at)].modseq
            && Stripped(db'.objects[Slot(cal, at)].ical) == Content(ev) && Shows(db'.objects[Slot(cal, at)], ev.facts)
            && db'.objects == db.objects[Slot(cal, at) := db'.objects[Slot(cal, at)]])
  {
    NotFound(db, cal, c);
    var o, last := CallPuts(db, cal, c);
    RenderedContent(EventOf(c), c.stamp);
    PutNew(db, cal, o, c.now);
    PutInv(db, cal, o, BY_UID, c.now);
  }

  lemma NotFound(db: Db, cal: string, c: Call)
    requires Inv(db) && !LiveUid(db, cal, StoredUid(c))
    ensures RowFor(db, cal, EventOf(c).uid) == None
  {
    var uid := EventOf(c).uid;
    BareIsTrimmed(uid);
    if Bare(uid) {
      assert ByUid(db, cal, uid) == None;
    } else {
      BlankIsNotFound(db, cal, uid);
    }
  }

  /** A put by UID of a UID that is not live. */
  lemma PutNew(db: Db, cal: string, o: NewObject, now: int)
    requires CalLive(db, cal) && !Malformed(cal, o) && o.name != "" && !LiveUid(db, cal, o.uid)
    ensures
      var (db', r) := Put(db, cal, o, BY_UID, now);
      && r.Ok? && r.value.name == o.name && CalLive(db', cal)
      && (r.value.noop <==> LiveAt(db, cal, o.name) && SameContent(db.objects[Slot(cal, o.name)].ical, o.ical))
      && (r.value.noop ==> db' == db)
      && (!r.value.noop ==>
            && HasUid(db', cal, o.uid, o.name)
            && db'.cals[cal].token == db.cals[cal].token + 1 == db'.objects[Slot(cal, o.name)].modseq
            && Holds(db'.objects[Slot(cal, o.name)], o)
            && db'.objects == db.objects[Slot(cal, o.name) := db'.objects[Slot(cal, o.name)]])
  {
    assert ByUid(db, cal, o.uid) == None;
  }

  /** Creating under a name that another UID holds takes that UID out of the
      calendar. */
  lemma SharedNameReplaces(db: Db, cal: string, c: Call, u: string)
    requires Inv(db) && CalLive(db, cal) && cal != ""
    requires Addressed(c) && EventOf(c).sequence >= 0 && !LiveUid(db, cal, StoredUid(c))
    requires HasUid(db, cal, u, CreatedName(c)) && !Shadowed(db, cal, c)
    ensures !LiveUid(Called(db, cal, c).0, cal, u)
  {
    PutFirst(db, cal, c);
    Overwritten(db, Called(db, cal, c).0, cal, StoredUid(c), u, CreatedName(c));
  }

  /** A call that cannot be rendered changes nothing; with no row to raise it
      to, that includes one with a negative sequence. */
  lemma PutFails(db: Db, cal: string, c: Call)
    requires Inv(db) && (!Accepted(c) || (EventOf(c).sequence < 0 && !LiveUid(db, cal, StoredUid(c))))
    ensures Called(db, cal, c).0 == db && Called(db, cal, c).1.Err?
  {
    var uid := EventOf(c).uid;
    if Addressed(c) {
      if Bare(uid) { NotFound(db, cal, c); } else { BlankIsNotFound(db, cal, uid); }
    }
  }

  // -------------------------------------------------- whole sequences of puts

  ghost predicate OneWriter(uid: string, calls: seq<Call>) {
    forall i :: 0 <= i < |calls| && Accepted(calls[i]) ==> StoredUid(calls[i]) == uid
  }

  ghost function Materialize(db: Db, cal: string, calls: seq<Call>): Db
    decreases |calls|
  {
    if calls == [] then db else Materialize(Called(db, cal, calls[0]).0, cal, calls[1..])
  }

  /** How many accepted calls changed the content there was. */
  function Changes(was: string, calls: seq<Call>): nat
    decreases |calls|
  {
    if calls == [] then 0
    else if !Accepted(calls[0]) then Changes(was, calls[1..])
    else (if Content(EventOf(calls[0])) == was then 0 else 1) + Changes(Content(EventOf(calls[0])), calls[1..])
  }

  /** The content the last accepted call leaves. */
  function Left(was: string, calls: seq<Call>): string
    decreases |calls|
  {
    if calls == [] then was
    else Left(if Accepted(calls[0]) then Content(EventOf(calls[0])) else was, calls[1..])
  }

  /** The sequence they leave. */
  function Sequenced(was: string, n: nat, calls: seq<Call>): nat
    decreases |calls|
  {
    if calls == [] then n
    else if !Accepted(calls[0]) then Sequenced(was, n, calls[1..])
    else
      var now := Content(EventOf(calls[0]));
      Sequenced(now, if now == was then n else SequenceOver(n, calls[0]), calls[1..])
  }

  /** Every accepted call gives the UID without a blank at its ends. */
  ghost predicate AllBare(calls: seq<Call>) {
    forall i :: 0 <= i < |calls| && Accepted(calls[i]) ==> Bare(EventOf(calls[i]).uid)
  }

  /** Then the sequence counts the changes. */
  lemma {:induction false} BareCounts(was: string, n: nat, calls: seq<Call>)
    requires AllBare(calls)
    ensures Sequenced(was, n, calls) == n + Changes(was, calls)
    decreases |calls|
  {
    if calls != [] {
      var c := calls[0];
      var now := Content(EventOf(c));
      if Accepted(c) {
        BareCounts(now, if now == was then n else n + 1, calls[1..]);
      } else {
        BareCounts(was, n, calls[1..]);
      }
    }
  }

  /** However often one writer puts its event over a live UID, whoever wrote the
      row first, the sync token counts exactly the times the content changed,
      the object keeps its name and holds the content put last, and with no
      change the store is untouched. The stored SEQUENCE counts the changes too
      when the UID is always given bare. */
  lemma {:induction false} Rematerialize(db: Db, cal: string, at: string, uid: string, calls: seq<Call>)
    requires Stored(db, cal, uid, at) && OneWriter(uid, calls)
    ensures
      var (row, db') := (db.objects[Slot(cal, at)], Materialize(db, cal, calls));
      var n := Changes(Stripped(row.ical), calls);
      && Stored(db', cal, uid, at)
      && db'.objects[Slot(cal, at)].sequence == Sequenced(Stripped(row.ical), row.sequence, calls)
      && (AllBare(calls) ==> db'.objects[Slot(cal, at)].sequence == row.sequence + n)
      && db'.cals[cal].token == db.cals[cal].token + n
      && Stripped(db'.objects[Slot(cal, at)].ical) == Left(Stripped(row.ical), calls)
      && (n == 0 ==> db' == db)
    decreases |calls|
  {
    var row := db.objects[Slot(cal, at)];
    if AllBare(calls) { BareCounts(Stripped(row.ical), row.sequence, calls); }
    if calls != [] {
      var c := calls[0];
      if Accepted(c) { PutAgain(db, cal, at, c); } else { PutFails(db, cal, c); }
      Rematerialize(Called(db, cal, c).0, cal, at, uid, calls[1..]);
    }
  }

  /** The same from any reachable store, live UID or not: when it is not, the
      first call creates the object and the others count from there. */
  lemma RematerializeFromAny(steps: seq<Step>, cal: string, uid: string, calls: seq<Call>)
    requires CalLive(Run(EMPTY, steps), cal) && cal != "" && OneWriter(uid, calls)
    requires calls != []
    requires LiveUid(Run(EMPTY, steps), cal, uid)
          || (Addressed(calls[0]) && EventOf(calls[0]).sequence >= 0 && !Shadowed(Run(EMPTY, steps), cal, calls[0]))
    ensures
      var db := Run(EMPTY, steps);
      var (row, first, db') := (RowFor(db, cal, uid), EventOf(calls[0]), Materialize(db, cal, calls));
      var at := if row.Some? then ByUid(db, cal, uid).value else CreatedName(calls[0]);
      var (was, seq0, rest) :=
        if row.Some? then (Stripped(row.value.ical), row.value.sequence as int, calls)
        else (Content(first), first.sequence, calls[1..]);
      var n := Changes(was, rest);
      && Stored(db', cal, uid, at) && seq0 >= 0
      && db'.objects[Slot(cal, at)].sequence == Sequenced(was, seq0, rest)
      && (AllBare(rest) ==> db'.objects[Slot(cal, at)].sequence == seq0 + n)
      && db'.cals[cal].token == db.cals[cal].token + n + (if row.Some? then 0 else 1)
      && Stripped(db'.objects[Slot(cal, at)].ical) == Left(was, rest)
  {
    var db := Run(EMPTY, steps);
    RunInv(EMPTY, steps);
    if LiveUid(db, cal, uid) {
      Rematerialize(db, cal, ByUid(db, cal, uid).value, uid, calls);
    } else {
      PutFirst(db, cal, calls[0]);
      Rematerialize(Called(db, cal, calls[0]).0, cal, CreatedName(calls[0]), uid, calls[1..]);
    }
  }
}
