/** When each operation of the calendar store succeeds, what it then leaves, and
    which error it answers otherwise, said of the tables before the call. */
module CalendarAnswers {
  import opened Wrappers
  import opened Strings
  import opened Folding
  import opened Calendar
  import opened CalendarRuns

  // ---------------------------------------------------------------------- put

  predicate UrlChar(c: char) {
    'a' <= c <= 'z' || 'A' <= c <= 'Z' || '0' <= c <= '9' || c == '.' || c == '_' || c == '~' || c == '-'
  }

  /** A name that is one segment of a URL, of at most 255 characters. */
  predicate UrlSegment(s: string) {
    0 < |s| < 256 && s != "." && s != ".." && forall c :: c in s ==> UrlChar(c)
  }

  lemma SegmentIsName(s: string)
    ensures UrlSegment(s) <==> ValidObjectName(s)
  {
    assert forall i :: 0 <= i < |s| ==> s[i] in s;
  }

  predicate Writable(db: Db, cal: string, o: NewObject) {
    && cal != "" && o.uid != "" && o.ical != "" && (o.name != "" ==> UrlSegment(o.name))
  }

  /** What a store trims: blanks at the ends of the name and of the UID, and
      nothing else. */
  lemma TrimmedExactly(o: NewObject, a: string, name: string, b: string, c: string, uid: string, d: string)
    requires Blank(a) && Bare(name) && Blank(b) && Blank(c) && Bare(uid) && Blank(d)
    requires o.name == a + name + b && o.uid == c + uid + d
    ensures Trimmed(o) == NewObject(name, uid, o.component, o.ical, o.summary, o.dtstart, o.dtend, o.recurs, o.sequence)
  {
    TrimsBlanks(a, name, b);
    TrimsBlanks(c, uid, d);
  }

  /** The row a put is for: by UID the live object of that UID, where it is; else
      the one under its own name, if no other live object has its UID. */
  ghost predicate IsFor(db: Db, cal: string, o: NewObject, opts: PutOpts, n: string) {
    if opts.byUid && LiveUid(db, cal, o.uid) then HasUid(db, cal, o.uid, n)
    else n == o.name && n != "" && forall m :: HasUid(db, cal, o.uid, m) ==> m == n
  }

  ghost predicate Resolves(db: Db, cal: string, o: NewObject, opts: PutOpts) {
    exists n :: IsFor(db, cal, o, opts, n)
  }

  /** Something is live under the name, with this content. */
  predicate LiveWith(db: Db, cal: string, n: string, etag: ETag) {
    LiveAt(db, cal, n) && Sha256(db.objects[Slot(cal, n)].ical) == etag
  }

  /** If-Match holds (section 13.1.1 of RFC 9110). */
  predicate MatchHolds(db: Db, cal: string, n: string, c: Cond) {
    match c
    case Unset => true
    case Any => LiveAt(db, cal, n)
    case Tag(etag) => LiveWith(db, cal, n, etag)
  }

  /** If-None-Match holds (section 13.1.2 of RFC 9110). */
  predicate NoneMatchHolds(db: Db, cal: string, n: string, c: Cond) {
    match c
    case Unset => true
    case Any => !LiveAt(db, cal, n)
    case Tag(etag) => !LiveWith(db, cal, n, etag)
  }

  lemma ResolveIsFor(db: Db, cal: string, o: NewObject, opts: PutOpts, n: string)
    requires Inv(db)
    ensures IsFor(db, cal, o, opts, n) <==> Resolve(db, cal, o, opts, ByUid(db, cal, o.uid)) == Ok(n)
  {
    var found := ByUid(db, cal, o.uid);
    if found.Some? { assert HasUid(db, cal, o.uid, found.value); }
  }

  lemma HoldsIsNotRefused(db: Db, cal: string, n: string, opts: PutOpts)
    requires Inv(db)
    ensures Refused(db, cal, n, opts) <==>
      !(MatchHolds(db, cal, n, opts.ifMatch) && NoneMatchHolds(db, cal, n, opts.ifNoneMatch))
  {
    if LiveAt(db, cal, n) { assert RowOk(db, Slot(cal, n)); }
  }

  /** A put succeeds exactly when it is well formed, its calendar is live, it
      resolves to a row, and what is live there meets both its conditions; and
      it is answered for that row. */
  lemma PutSucceedsExactly(db: Db, cal: string, o: NewObject, opts: PutOpts, now: int, n: string)
    requires Inv(db)
    ensures
      var r := Put(db, cal, o, opts, now).1;
      (r.Ok? && r.value.name == n) <==>
        && Writable(db, cal, o) && CalLive(db, cal) && IsFor(db, cal, o, opts, n)
        && MatchHolds(db, cal, n, opts.ifMatch) && NoneMatchHolds(db, cal, n, opts.ifNoneMatch)
  {
    var r := Resolve(db, cal, o, opts, ByUid(db, cal, o.uid));
    SegmentIsName(o.name);
    ResolveIsFor(db, cal, o, opts, n);
    HoldsIsNotRefused(db, cal, n, opts);
    if r.Ok? { HoldsIsNotRefused(db, cal, r.value, opts); }
  }

  /** The first thing wrong gives the error; nothing has changed. */
  lemma PutFailsBecause(db: Db, cal: string, o: NewObject, opts: PutOpts, now: int)
    requires Inv(db) && Put(db, cal, o, opts, now).1.Err?
    ensures Put(db, cal, o, opts, now).0 == db
    ensures
      var e := Put(db, cal, o, opts, now).1.error;
      if !Writable(db, cal, o) then e == Invalid
      else if !CalLive(db, cal) then e == NotFound
      else if !Resolves(db, cal, o, opts) then e == if o.name == "" then Invalid else UidConflict
      else e == Precondition
  {
    var r := Resolve(db, cal, o, opts, ByUid(db, cal, o.uid));
    SegmentIsName(o.name);
    if r.Ok? { ResolveIsFor(db, cal, o, opts, r.value); }
    forall n ensures IsFor(db, cal, o, opts, n) <==> r == Ok(n) { ResolveIsFor(db, cal, o, opts, n); }
  }

  /** Every column comes from the object, and only the creation time from a row,
      live or not, already there; the calendar has the next token. */
  predicate Saved(db: Db, db': Db, slot: Slot, o: NewObject, now: int) {
    && slot.cal in db.cals && slot in db'.objects
    && var (row, token) := (db'.objects[slot], db.cals[slot.cal].token + 1);
    && row.uid == o.uid && row.ical == o.ical && row.etag == Sha256(o.ical) && row.summary == o.summary
    && row.dtstart == o.dtstart && row.dtend == o.dtend && row.recurs == o.recurs
    && row.sequence == o.sequence && row.deleted.None?
    && row.component == (if o.component == "" then "VEVENT" else o.component)
    && row.modseq == token && row.updated == now
    && row.created == (if slot in db.objects then db.objects[slot].created else now)
    && db'.objects == db.objects[slot := row]
    && db'.cals == db.cals[slot.cal := db.cals[slot.cal].(token := token, updated := now)]
  }

  lemma WriteStores(db: Db, cal: string, name: string, o: NewObject, now: int)
    requires cal in db.cals
    ensures
      var ((db', r), slot) := (Write(db, cal, name, o, now), Slot(cal, name));
      && r.name == name && slot in db'.objects
      && var row := db'.objects[slot];
      && r.etag == row.etag && r.uid == row.uid && r.sequence == row.sequence && r.modseq == row.modseq
      && (r.noop <==> LiveAt(db, cal, name) && SameContent(db.objects[slot].ical, o.ical))
      && (r.created <==> !LiveAt(db, cal, name))
      && (r.noop ==> db' == db)
      && (!r.noop ==> Saved(db, db', slot, o, now))
  {
  }

  /** What a put that succeeds stores and answers: content that reads the same as
      what is live leaves everything; else the object is saved. */
  lemma PutStores(db: Db, cal: string, o: NewObject, opts: PutOpts, now: int)
    requires Put(db, cal, o, opts, now).1.Ok?
    ensures
      var (db', a) := Put(db, cal, o, opts, now);
      var (r, slot) := (a.value, Slot(cal, a.value.name));
      && slot in db'.objects
      && var row := db'.objects[slot];
      && r.etag == row.etag && r.uid == row.uid && r.sequence == row.sequence && r.modseq == row.modseq
      && (r.noop <==> LiveAt(db, cal, r.name) && SameContent(db.objects[slot].ical, o.ical))
      && (r.created <==> !LiveAt(db, cal, r.name))
      && (r.noop ==> db' == db)
      && (!r.noop ==> Saved(db, db', slot, o, now))
  {
    WriteStores(db, cal, Put(db, cal, o, opts, now).1.value.name, o, now);
  }

  // ------------------------------------------------------------------- delete

  /** A delete takes a live object out: a tombstone under the next token is left
      of it, its UID is live nowhere, and nothing else has changed. With nothing
      live there it changes nothing. */
  lemma DeleteExactly(db: Db, cal: string, name: string, now: int)
    requires Inv(db)
    ensures
      var ((db', r), slot) := (Delete(db, cal, name, now), Slot(cal, name));
      && (!CalLive(db, cal) ==> r == Err(NotFound) && db' == db)
      && (CalLive(db, cal) && !LiveAt(db, cal, name) ==> r == Ok(None) && db' == db)
      && (CalLive(db, cal) && LiveAt(db, cal, name) ==>
            && r == Ok(Some(Sha256(db.objects[slot].ical)))
            && !LiveAt(db', cal, name) && !LiveUid(db', cal, db.objects[slot].uid)
            && db'.cals == db.cals[cal := db.cals[cal].(token := db.cals[cal].token + 1, updated := now)]
            && slot in db'.objects && db'.objects == db.objects[slot := db'.objects[slot]]
            && db'.objects[slot] ==
                 db.objects[slot].(deleted := Some(now), modseq := db.cals[cal].token + 1, updated := now))
  {
    var db', slot := Delete(db, cal, name, now).0, Slot(cal, name);
    if CalLive(db, cal) && LiveAt(db, cal, name) {
      assert RowOk(db, slot);
      var uid := db.objects[slot].uid;
      assert HasUid(db, cal, uid, name);
      forall n ensures !HasUid(db', cal, uid, n) {
        if n != name && HasUid(db', cal, uid, n) { assert HasUid(db, cal, uid, n); }
      }
    }
  }

  /** What was deleted is out of every listing but the one that asks for
      tombstones. */
  lemma DeletedIsNotListed(db: Db, cal: string, name: string, now: int, since: int, names: set<string>)
    requires Inv(db) && CalLive(db, cal) && LiveAt(db, cal, name)
    ensures
      var db' := Delete(db, cal, name, now).0;
      && name !in List(db', cal, since, false, names)
      && (since <= db.cals[cal].token && names == {} ==> name in List(db', cal, since, true, names))
  {
    DeleteExactly(db, cal, name, now);
    var db' := Delete(db, cal, name, now).0;
    ListExactly(db', cal, since, false, names, name);
    ListExactly(db', cal, since, true, names, name);
  }

  /** A listing: the rows of the calendar, each by its name, that are asked for. */
  lemma ListExactly(db: Db, cal: string, since: int, deleted: bool, names: set<string>, n: string)
    ensures
      var l := List(db, cal, since, deleted, names);
      && (n in l <==>
            && Slot(cal, n) in db.objects && (deleted || LiveAt(db, cal, n))
            && (since <= 0 || since < db.objects[Slot(cal, n)].modseq) && (names == {} || n in names))
      && (n in l ==> l[n] == db.objects[Slot(cal, n)])
  {
    if Slot(cal, n) in db.objects {
      var s := Slot(cal, n);
      assert s.cal == cal && s.name == n;
    }
  }

  // ------------------------------------------------------------------- calendars

  /** Removing a live calendar takes it and everything live in it out, under one
      token above the old one, and its feed with it; no other calendar and no
      tombstone changes. */
  lemma RemoveExactly(db: Db, cal: string, now: int)
    requires Inv(db)
    ensures
      var (db', did) := Remove(db, cal, now);
      && (did <==> CalLive(db, cal)) && (!did ==> db' == db)
      && (did ==>
            && !CalLive(db', cal) && (forall n :: !LiveAt(db', cal, n)) && (forall u :: !LiveUid(db', cal, u))
            && db'.cals.Keys == db.cals.Keys && db'.objects.Keys == db.objects.Keys
            && (forall c :: c in db.cals && c != cal ==> db'.cals[c] == db.cals[c])
            && db'.cals[cal] ==
                 db.cals[cal].(token := db.cals[cal].token + 1, updated := now, deleted := Some(now), feed := "")
            && (forall s :: s in db.objects ==>
                  db'.objects[s] ==
                    if s.cal == cal && db.objects[s].deleted.None?
                    then db.objects[s].(deleted := Some(now), modseq := db.cals[cal].token + 1, updated := now)
                    else db.objects[s]))
  {
  }

  /** A removed calendar takes no put and no delete. */
  lemma RemovedIsClosed(db: Db, cal: string, now: int, o: NewObject, opts: PutOpts, name: string, later: int)
    requires Inv(db) && CalLive(db, cal)
    ensures
      var db' := Remove(db, cal, now).0;
      && Put(db', cal, o, opts, later).1.Err? && Put(db', cal, o, opts, later).0 == db'
      && Delete(db', cal, name, later) == (db', Err(NotFound))
  {
  }

  predicate SegmentChar(c: char) {
    'A' <= c <= 'Z' || 'a' <= c <= 'z' || '0' <= c <= '9' || c in {'.', '_', '~', '-'}
  }

  /** A letter or digit, then up to 127 more characters of a URL segment. */
  predicate CalendarName(s: string) {
    && s != "" && SegmentChar(s[0]) && s[0] !in {'.', '_', '~', '-'} && |s[1..]| <= 127
    && forall c :: c in s[1..] ==> SegmentChar(c)
  }

  lemma CalendarNameIsValid(s: string)
    ensures CalendarName(s) <==> ValidCalendarName(s)
  {
    if CalendarName(s) {
      forall i | 0 <= i < |s| ensures NameChar(s[i]) {
        if i > 0 { assert s[1..][i - 1] == s[i]; assert s[i] in s[1..]; }
      }
    }
    if ValidCalendarName(s) {
      forall c | c in s[1..] ensures SegmentChar(c) {
        var i :| 0 <= i < |s[1..]| && s[1..][i] == c;
        assert s[i + 1] == c;
      }
    }
  }

  /** Ensuring a calendar fails exactly for a key without tenant, user or a name
      that is a URL segment, for a policy that does not parse, and, when there is
      none of that key, for an id that is taken; then nothing changes. */
  lemma EnsureFailsExactly(db: Db, key: CalKey, c: Props, json: bool, id: string, now: int)
    requires Inv(db)
    ensures
      var (db', r) := Ensure(db, key, c, json, CalByKey(db, key), id, now);
      && (r.Err? <==>
            || key.tenant == "" || key.username == "" || !CalendarName(key.name) || (c.policy != "" && !json)
            || (id in db.cals && forall f :: f in db.cals ==> db.cals[f].key != key))
      && (r.Err? ==> db' == db)
  {
    CalendarNameIsValid(key.name);
  }

  /** The fields of the calendar ensured: those given, and for the others what
      there was, or nothing in a new one but an empty policy. */
  lemma EnsuredFields(db: Db, key: CalKey, c: Props, json: bool, id: string, now: int)
    requires Inv(db) && Ensure(db, key, c, json, CalByKey(db, key), id, now).1.Ok?
    ensures
      var db' := Ensure(db, key, c, json, CalByKey(db, key), id, now).0;
      var f := CalByKey(db', key);
      && f.Some?
      && var (is_, known) := (db'.cals[f.value], f.value in db.cals);
      var was := if known then db.cals[f.value].props else Props("", "", "", 0, "", "{}");
      && is_.key == key && is_.updated == now && is_.deleted.None?
      && is_.props.displayName == (if c.displayName == "" then was.displayName else c.displayName)
      && is_.props.description == (if c.description == "" then was.description else c.description)
      && is_.props.color == (if c.color == "" then was.color else c.color)
      && is_.props.sortOrder == (if c.sortOrder == 0 then was.sortOrder else c.sortOrder)
      && is_.props.timezone == (if c.timezone == "" then was.timezone else c.timezone)
      && is_.props.policy == (if c.policy == "" then was.policy else c.policy)
      && is_.feed == (if known && db.cals[f.value].deleted.None? then db.cals[f.value].feed else "")
      && is_.token == (if known then db.cals[f.value].token else 0)
  {
    Ensured(db, key, c, json, id, now);
  }
}
