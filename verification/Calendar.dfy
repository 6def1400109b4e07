/** The calendar object store: resource name and UID are two identities for one
    row, deletes leave tombstones, and a sync token advances with every change.
    The tables are maps; each operation is one transaction. */
module Calendar {
  import opened Wrappers
  import opened Folding
  import opened Strings

  /** sha256 of the bytes, taken as collision free. */
  datatype ETag = Sha256(content: string)

  datatype Slot = Slot(cal: string, name: string)

  /** A parse never gives a negative SEQUENCE. */
  datatype Object = Object(
    uid: string, etag: ETag, component: string, ical: string, summary: string,
    dtstart: string, dtend: string, recurs: bool, sequence: nat, modseq: int,
    created: int, updated: int, deleted: Option<int>)

  datatype CalKey = CalKey(tenant: string, username: string, name: string)

  /** What a calendar shows of itself; empty and zero mean not given. */
  datatype Props = Props(
    displayName: string, description: string, color: string, sortOrder: int, timezone: string, policy: string)

  datatype CalRow = CalRow(key: CalKey, props: Props, feed: string, token: int, updated: int, deleted: Option<int>)

  datatype Db = Db(cals: map<string, CalRow>, objects: map<Slot, Object>)

  /** A conditional header: not sent, `*`, or an etag. */
  datatype Cond = Unset | Any | Tag(etag: ETag)

  datatype PutOpts = PutOpts(byUid: bool, ifMatch: Cond, ifNoneMatch: Cond)

  datatype NewObject = NewObject(
    name: string, uid: string, component: string, ical: string, summary: string,
    dtstart: string, dtend: string, recurs: bool, sequence: nat)

  datatype PutResult = PutResult(
    name: string, uid: string, etag: ETag, created: bool, noop: bool, sequence: int, modseq: int)

  datatype Error = Invalid | NotFound | UidConflict | Precondition | Taken

  predicate NameChar(c: char) {
    'A' <= c <= 'Z' || 'a' <= c <= 'z' || '0' <= c <= '9' || c in "._~-"
  }

  predicate ValidObjectName(s: string) {
    1 <= |s| <= 255 && s != "." && s != ".." && forall i :: 0 <= i < |s| ==> NameChar(s[i])
  }

  predicate CalLive(db: Db, cal: string) {
    cal in db.cals && db.cals[cal].deleted.None?
  }

  predicate LiveAt(db: Db, cal: string, name: string) {
    Slot(cal, name) in db.objects && db.objects[Slot(cal, name)].deleted.None?
  }

  predicate HasUid(db: Db, cal: string, uid: string, name: string) {
    LiveAt(db, cal, name) && db.objects[Slot(cal, name)].uid == uid
  }

  /** The name of the live object with this UID. */
  ghost function ByUid(db: Db, cal: string, uid: string): (r: Option<string>)
    ensures r.Some? ==> HasUid(db, cal, uid, r.value)
    ensures r.None? ==> forall n :: !HasUid(db, cal, uid, n)
  {
    if exists n :: HasUid(db, cal, uid, n) then
      var n :| HasUid(db, cal, uid, n);
      Some(n)
    else None
  }

  /** The name a put writes under, given the live object with its UID. */
  function Resolve(db: Db, cal: string, o: NewObject, opts: PutOpts, byUid: Option<string>): Result<string, Error> {
    if opts.byUid && byUid.Some? then Ok(byUid.value)
    else if o.name == "" then Err(Invalid)
    else if byUid.Some? && (!LiveAt(db, cal, o.name) || byUid.value != o.name) then Err(UidConflict)
    else Ok(o.name)
  }

  predicate Refused(db: Db, cal: string, name: string, opts: PutOpts) {
    var live := LiveAt(db, cal, name);
    || (opts.ifNoneMatch.Any? && live)
    || (opts.ifNoneMatch.Tag? && live && db.objects[Slot(cal, name)].etag == opts.ifNoneMatch.etag)
    || (opts.ifMatch != Unset && !live)
    || (opts.ifMatch.Tag? && live && db.objects[Slot(cal, name)].etag != opts.ifMatch.etag)
  }

  predicate Malformed(cal: string, o: NewObject) {
    cal == "" || o.uid == "" || o.ical == "" || (o.name != "" && !ValidObjectName(o.name))
  }

  function RowOf(o: NewObject, created: int, now: int, modseq: int): Object {
    Object(o.uid, Sha256(o.ical), if o.component == "" then "VEVENT" else o.component, o.ical, o.summary,
           o.dtstart, o.dtend, o.recurs, o.sequence, modseq, created, now, None)
  }

  /** Store under a resolved name: the no-op rule, then the write. */
  function Write(db: Db, cal: string, name: string, o: NewObject, now: int): (Db, PutResult)
    requires cal in db.cals
  {
    var slot := Slot(cal, name);
    if LiveAt(db, cal, name) && SameContent(db.objects[slot].ical, o.ical) then
      var t := db.objects[slot];
      (db, PutResult(name, t.uid, t.etag, false, true, t.sequence, t.modseq))
    else
      var token := db.cals[cal].token + 1;
      var row := RowOf(o, if slot in db.objects then db.objects[slot].created else now, now, token);
      (Db(db.cals[cal := db.cals[cal].(token := token, updated := now)], db.objects[slot := row]),
       PutResult(name, o.uid, row.etag, !LiveAt(db, cal, name), false, o.sequence, token))
  }

  /** The object as it is stored: no blanks around its name and UID. */
  function Trimmed(o: NewObject): NewObject {
    o.(name := TrimSpace(o.name), uid := TrimSpace(o.uid))
  }

  /** The put of an object whose name and UID are trimmed. */
  ghost function Put(db: Db, cal: string, o: NewObject, opts: PutOpts, now: int): (Db, Result<PutResult, Error>) {
    if Malformed(cal, o) then (db, Err(Invalid))
    else if !CalLive(db, cal) then (db, Err(NotFound))
    else
      var name := Resolve(db, cal, o, opts, ByUid(db, cal, o.uid));
      if name.Err? then (db, Err(name.error))
      else if Refused(db, cal, name.value, opts) then (db, Err(Precondition))
      else
        var (db', r) := Write(db, cal, name.value, o, now);
        (db', Ok(r))
  }

  function Delete(db: Db, cal: string, name: string, now: int): (Db, Result<Option<ETag>, Error>) {
    if !CalLive(db, cal) then (db, Err(NotFound))
    else if !LiveAt(db, cal, name) then (db, Ok(None))
    else
      var slot := Slot(cal, name);
      var token := db.cals[cal].token + 1;
      var row := db.objects[slot].(deleted := Some(now), modseq := token, updated := now);
      (Db(db.cals[cal := db.cals[cal].(token := token, updated := now)], db.objects[slot := row]),
       Ok(Some(row.etag)))
  }

  function Remove(db: Db, cal: string, now: int): (Db, bool) {
    if !CalLive(db, cal) then (db, false)
    else
      var token := db.cals[cal].token + 1;
      (Db(db.cals[cal := db.cals[cal].(token := token, updated := now, deleted := Some(now), feed := "")],
          map s | s in db.objects ::
            if s.cal == cal && db.objects[s].deleted.None?
            then db.objects[s].(deleted := Some(now), modseq := token, updated := now)
            else db.objects[s]),
       true)
  }

  ghost function CalByKey(db: Db, key: CalKey): (r: Option<string>)
    ensures r.Some? ==> r.value in db.cals && db.cals[r.value].key == key
    ensures r.None? ==> forall c :: c in db.cals ==> db.cals[c].key != key
  {
    if exists c :: c in db.cals && db.cals[c].key == key then
      var c :| c in db.cals && db.cals[c].key == key;
      Some(c)
    else None
  }

  predicate ValidCalendarName(s: string) {
    1 <= |s| <= 128 && NameChar(s[0]) && s[0] !in "._~-" && forall i :: 0 <= i < |s| ==> NameChar(s[i])
  }

  /** The fields given replace those there were. */
  function Applied(was: Props, c: Props): Props {
    Props(if c.displayName != "" then c.displayName else was.displayName,
          if c.description != "" then c.description else was.description,
          if c.color != "" then c.color else was.color,
          if c.sortOrder != 0 then c.sortOrder else was.sortOrder,
          if c.timezone != "" then c.timezone else was.timezone,
          if c.policy != "" then c.policy else was.policy)
  }

  predicate Unnamed(key: CalKey) {
    key.tenant == "" || key.username == "" || !ValidCalendarName(key.name)
  }

  /** Create the calendar, or bring the one of that name back, and apply the
      fields given; `id` is the new row's id, `json` whether the policy parses.
      The answer is whether it was absent or deleted. */
  function Ensure(db: Db, key: CalKey, c: Props, json: bool, found: Option<string>, id: string, now: int)
    : (Db, Result<bool, Error>)
    requires found.Some? ==> found.value in db.cals
  {
    if Unnamed(key) || (c.policy != "" && !json) then (db, Err(Invalid))
    else match found
      case Some(f) =>
        var row := db.cals[f].(props := Applied(db.cals[f].props, c), updated := now);
        (db.(cals := db.cals[f := if row.deleted.Some? then row.(deleted := None, feed := "") else row]),
         Ok(row.deleted.Some?))
      case None =>
        if id in db.cals then (db, Err(Taken))
        else
          var props := c.(policy := if c.policy == "" then "{}" else c.policy);
          (db.(cals := db.cals[id := CalRow(key, props, "", 0, now, None)]), Ok(true))
  }

  /** A calendar's rows, tombstones included. */
  function Rows(db: Db, cal: string): map<string, Object> {
    map s | s in db.objects && s.cal == cal :: s.name := db.objects[s]
  }

  /** ListObjects; `names` empty means all. */
  function List(db: Db, cal: string, since: int, deleted: bool, names: set<string>): map<string, Object> {
    map s | s in db.objects && s.cal == cal
            && (deleted || db.objects[s].deleted.None?)
            && (since > 0 ==> db.objects[s].modseq > since)
            && (names != {} ==> s.name in names) :: s.name := db.objects[s]
  }

  // ------------------------------------------------------------- invariants

  ghost predicate UidsUnique(db: Db) {
    forall cal, uid, n, m :: HasUid(db, cal, uid, n) && HasUid(db, cal, uid, m) ==> n == m
  }

  predicate RowOk(db: Db, s: Slot)
    requires s in db.objects
  {
    var o := db.objects[s];
    s.cal in db.cals && 1 <= o.modseq <= db.cals[s.cal].token && o.etag == Sha256(o.ical) && Bare(o.uid)
  }

  ghost predicate KeysUnique(db: Db) {
    forall c, d :: c in db.cals && d in db.cals && db.cals[c].key == db.cals[d].key ==> c == d
  }

  ghost predicate Inv(db: Db) {
    && UidsUnique(db) && KeysUnique(db)
    && (forall s {:trigger RowOk(db, s)} :: s in db.objects ==> RowOk(db, s))
    && (forall c :: c in db.cals ==> db.cals[c].token >= 0)
  }

  // ------------------------------------------------------------- the store

  class Store {
    var cals: map<string, CalRow>
    var objects: map<Slot, Object>

    ghost function Tables(): Db
      reads this
    {
      Db(cals, objects)
    }

    constructor ()
      ensures Tables() == Db(map[], map[])
    {
      cals, objects := map[], map[];
    }

    /** SELECT of the live row with the UID: a scan of the calendar's rows. */
    method FindUid(cal: string, uid: string) returns (r: Option<string>)
      requires UidsUnique(Tables())
      ensures r == ByUid(Tables(), cal, uid)
    {
      var rest := objects.Keys;
      while rest != {}
        invariant rest <= objects.Keys
        invariant forall s :: s in objects && s !in rest ==> !HasUid(Tables(), cal, uid, s.name) || s.cal != cal
        decreases rest
      {
        var s :| s in rest;
        if s.cal == cal && objects[s].uid == uid && objects[s].deleted.None? {
          assert HasUid(Tables(), cal, uid, s.name);
          return Some(s.name);
        }
        rest := rest - {s};
      }
      forall n ensures !HasUid(Tables(), cal, uid, n) {
        if Slot(cal, n) in objects { assert Slot(cal, n) !in rest; }
      }
      return None;
    }

    method PutObject(cal: string, given: NewObject, opts: PutOpts, now: int) returns (r: Result<PutResult, Error>)
      requires UidsUnique(Tables())
      modifies this
      ensures (Tables(), r) == Put(old(Tables()), cal, Trimmed(given), opts, now)
    {
      r := PutTrimmed(cal, Trimmed(given), opts, now);
    }

    method PutTrimmed(cal: string, o: NewObject, opts: PutOpts, now: int) returns (r: Result<PutResult, Error>)
      requires UidsUnique(Tables())
      modifies this
      ensures (Tables(), r) == Put(old(Tables()), cal, o, opts, now)
    {
      if cal == "" || o.uid == "" || o.ical == "" { return Err(Invalid); }
      if o.name != "" && !ValidObjectName(o.name) { return Err(Invalid); }
      if cal !in cals || cals[cal].deleted.Some? { return Err(NotFound); }
      var token := cals[cal].token;
      var byUid := FindUid(cal, o.uid);
      var name := o.name;
      if opts.byUid && byUid.Some? {
        name := byUid.value;
      } else {
        if name == "" { return Err(Invalid); }
        var have := Slot(cal, name) in objects;
        if byUid.Some? && (!have || objects[Slot(cal, name)].deleted.Some? || byUid.value != name) {
          return Err(UidConflict);
        }
      }
      var slot := Slot(cal, name);
      var have := slot in objects;
      var live := have && objects[slot].deleted.None?;
      if opts.ifNoneMatch == Any && live { return Err(Precondition); }
      if opts.ifNoneMatch.Tag? && live && objects[slot].etag == opts.ifNoneMatch.etag { return Err(Precondition); }
      if opts.ifMatch != Unset && (!live || (opts.ifMatch.Tag? && objects[slot].etag != opts.ifMatch.etag)) {
        return Err(Precondition);
      }
      if live && SameContent(objects[slot].ical, o.ical) {
        var t := objects[slot];
        return Ok(PutResult(name, t.uid, t.etag, false, true, t.sequence, t.modseq));
      }
      token := token + 1;
      var row := RowOf(o, if have then objects[slot].created else now, now, token);
      objects := objects[slot := row];
      cals := cals[cal := cals[cal].(token := token, updated := now)];
      return Ok(PutResult(name, o.uid, row.etag, !live, false, o.sequence, token));
    }

    method DeleteObject(cal: string, name: string, now: int) returns (r: Result<Option<ETag>, Error>)
      modifies this
      ensures (Tables(), r) == Delete(old(Tables()), cal, name, now)
    {
      if cal !in cals || cals[cal].deleted.Some? { return Err(NotFound); }
      var slot := Slot(cal, name);
      if slot !in objects || objects[slot].deleted.Some? { return Ok(None); }
      var token := cals[cal].token + 1;
      r := Ok(Some(objects[slot].etag));
      objects := objects[slot := objects[slot].(deleted := Some(now), modseq := token, updated := now)];
      cals := cals[cal := cals[cal].(token := token, updated := now)];
    }

    method RemoveCalendar(cal: string, now: int) returns (did: bool)
      modifies this
      ensures (Tables(), did) == Remove(old(Tables()), cal, now)
    {
      if cal !in cals || cals[cal].deleted.Some? { return false; }
      var token := cals[cal].token + 1;
      objects := map s | s in objects ::
        if s.cal == cal && objects[s].deleted.None?
        then objects[s].(deleted := Some(now), modseq := token, updated := now) else objects[s];
      cals := cals[cal := cals[cal].(token := token, updated := now, deleted := Some(now), feed := "")];
      return true;
    }

    method EnsureCalendar(key: CalKey, c: Props, json: bool, id: string, now: int) returns (r: Result<bool, Error>)
      requires KeysUnique(Tables())
      modifies this`cals
      ensures (Tables(), r) == Ensure(old(Tables()), key, c, json, CalByKey(old(Tables()), key), id, now)
    {
      if key.tenant == "" || key.username == "" || !ValidCalendarName(key.name) { return Err(Invalid); }
      if c.policy != "" && !json { return Err(Invalid); }
      var created := true;
      if f :| f in cals && cals[f].key == key {
        assert CalByKey(Tables(), key) == Some(f);
        var row := cals[f].(updated := now);
        created := row.deleted.Some?;
        if created { row := row.(deleted := None, feed := ""); }
        var p := row.props;
        if c.displayName != "" { p := p.(displayName := c.displayName); }
        if c.description != "" { p := p.(description := c.description); }
        if c.color != "" { p := p.(color := c.color); }
        if c.sortOrder != 0 { p := p.(sortOrder := c.sortOrder); }
        if c.timezone != "" { p := p.(timezone := c.timezone); }
        if c.policy != "" { p := p.(policy := c.policy); }
        cals := cals[f := row.(props := p)];
      } else {
        if id in cals { return Err(Taken); }
        var policy := if c.policy == "" then "{}" else c.policy;
        cals := cals[id := CalRow(key, c.(policy := policy), "", 0, now, None)];
      }
      return Ok(created);
    }
  }
}
