/** What holds of the calendar store over every run of puts, deletes, calendar
    removals and (re)creations. */
module CalendarRuns {
  import opened Wrappers
  import opened Folding
  import opened Calendar
  import opened Strings

  datatype Step =
    | PutStep(cal: string, o: NewObject, opts: PutOpts, now: int)
    | DeleteStep(cal: string, name: string, now: int)
    | RemoveStep(cal: string, now: int)
    | EnsureStep(key: CalKey, props: Props, json: bool, id: string, now: int)

  ghost function Next(db: Db, s: Step): Db {
    match s
    case PutStep(cal, o, opts, now) => Put(db, cal, Trimmed(o), opts, now).0
    case DeleteStep(cal, name, now) => Delete(db, cal, name, now).0
    case RemoveStep(cal, now) => Remove(db, cal, now).0
    case EnsureStep(key, c, json, id, now) => Ensure(db, key, c, json, CalByKey(db, key), id, now).0
  }

  ghost function Run(db: Db, steps: seq<Step>): Db {
    if steps == [] then db else Next(Run(db, steps[..|steps| - 1]), steps[|steps| - 1])
  }

  const EMPTY := Db(map[], map[])

  // ------------------------------------------------------------ one put

  /** A put names one slot: every other row stays, and so does every calendar
      but its own. */
  lemma PutTouchesOneRow(db: Db, cal: string, o: NewObject, opts: PutOpts, now: int)
    ensures
      var (db', r) := Put(db, cal, o, opts, now);
      && (r.Err? || r.value.noop ==> db' == db)
      && (r.Ok? && !r.value.noop ==>
            && cal in db.cals
            && db'.cals == db.cals[cal := db.cals[cal].(token := db.cals[cal].token + 1, updated := now)]
            && Slot(cal, r.value.name) in db'.objects
            && db'.objects == db.objects[Slot(cal, r.value.name) := db'.objects[Slot(cal, r.value.name)]]
            && HasUid(db', cal, o.uid, r.value.name)
            && db'.objects[Slot(cal, r.value.name)].ical == o.ical
            && db'.objects[Slot(cal, r.value.name)].modseq == db.cals[cal].token + 1 == r.value.modseq)
  {
  }

  /** An object addressed by UID keeps the resource name it has. */
  lemma ByUidKeepsName(db: Db, cal: string, o: NewObject, opts: PutOpts, now: int, n: string)
    requires Inv(db) && opts.byUid && HasUid(db, cal, o.uid, n) && Put(db, cal, o, opts, now).1.Ok?
    ensures Put(db, cal, o, opts, now).1.value.name == n
  {
  }

  /** A put that asked for an etag replaced only the content of that etag. */
  lemma IfMatchReplacesOnlyNamed(db: Db, cal: string, o: NewObject, opts: PutOpts, now: int)
    requires Inv(db) && opts.ifMatch.Tag? && Put(db, cal, o, opts, now).1.Ok?
    ensures
      var name := Put(db, cal, o, opts, now).1.value.name;
      LiveAt(db, cal, name) && Sha256(db.objects[Slot(cal, name)].ical) == opts.ifMatch.etag
  {
    assert RowOk(db, Slot(cal, Put(db, cal, o, opts, now).1.value.name));
  }

  /** A create-only put never replaces a live object. */
  lemma CreateOnlyCreates(db: Db, cal: string, o: NewObject, opts: PutOpts, now: int)
    requires opts.ifNoneMatch.Any? && Put(db, cal, o, opts, now).1.Ok?
    ensures
      var r := Put(db, cal, o, opts, now).1.value;
      !LiveAt(db, cal, r.name) && r.created && !r.noop
  {
  }

  ghost predicate LiveUid(db: Db, cal: string, uid: string) {
    exists n :: HasUid(db, cal, uid, n)
  }

  /** Every UID live in the calendar but `uid` is still live. */
  ghost predicate OthersSurvive(db: Db, db': Db, cal: string, uid: string) {
    forall u {:trigger LiveUid(db, cal, u)} :: u != uid && LiveUid(db, cal, u) ==> LiveUid(db', cal, u)
  }

  /** A put that succeeds keeps every other live UID exactly when its own UID is
      live, nothing is live under its name, or what is reads the same: a UID
      that is not live creates under its own name, whoever holds that. */
  lemma PutKeepsOthers(db: Db, cal: string, o: NewObject, opts: PutOpts, now: int)
    requires Inv(db) && Put(db, cal, o, opts, now).1.Ok?
    ensures OthersSurvive(db, Put(db, cal, o, opts, now).0, cal, o.uid) <==>
      || LiveUid(db, cal, o.uid) || !LiveAt(db, cal, o.name)
      || SameContent(db.objects[Slot(cal, o.name)].ical, o.ical)
  {
    var (db', r) := Put(db, cal, o, opts, now);
    PutTouchesOneRow(db, cal, o, opts, now);
    var name := r.value.name;
    PutTakes(db, cal, o, opts, now);
    if r.value.noop {
      assert db' == db;
    } else if LiveAt(db, cal, name) && db.objects[Slot(cal, name)].uid != o.uid {
      var u := db.objects[Slot(cal, name)].uid;
      assert HasUid(db, cal, u, name);
      Overwritten(db, db', cal, o.uid, u, name);
      assert LiveUid(db, cal, u) && !LiveUid(db', cal, u);
    } else {
      forall u | u != o.uid && LiveUid(db, cal, u) ensures LiveUid(db', cal, u) {
        var n :| HasUid(db, cal, u, n);
        assert HasUid(db', cal, u, n);
      }
    }
  }

  /** What a put that succeeds finds under the name it writes to. */
  lemma PutTakes(db: Db, cal: string, o: NewObject, opts: PutOpts, now: int)
    requires Inv(db) && Put(db, cal, o, opts, now).1.Ok?
    ensures
      var r := Put(db, cal, o, opts, now).1.value;
      && (r.noop <==> LiveAt(db, cal, r.name) && SameContent(db.objects[Slot(cal, r.name)].ical, o.ical))
      && (LiveUid(db, cal, o.uid) ==> HasUid(db, cal, o.uid, r.name))
      && (!LiveUid(db, cal, o.uid) ==> r.name == o.name && !HasUid(db, cal, o.uid, o.name))
  {
    var found := ByUid(db, cal, o.uid);
    if found.Some? { assert HasUid(db, cal, o.uid, found.value); }
  }

  lemma Overwritten(db: Db, db': Db, cal: string, uid: string, u: string, name: string)
    requires UidsUnique(db) && HasUid(db, cal, u, name) && u != uid && HasUid(db', cal, uid, name)
    requires db'.objects == db.objects[Slot(cal, name) := db'.objects[Slot(cal, name)]]
    ensures !LiveUid(db', cal, u)
  {
    forall n ensures !HasUid(db', cal, u, n) {
      if n != name && HasUid(db', cal, u, n) { assert HasUid(db, cal, u, n); }
    }
  }

  /** Ensuring a calendar leaves one live of that key, with the fields given and
      otherwise as it was; its token and every object stay. */
  lemma Ensured(db: Db, key: CalKey, c: Props, json: bool, id: string, now: int)
    requires Inv(db) && Ensure(db, key, c, json, CalByKey(db, key), id, now).1.Ok?
    ensures
      var (db', r) := Ensure(db, key, c, json, CalByKey(db, key), id, now);
      var f := CalByKey(db', key);
      && f.Some? && CalLive(db', f.value) && db'.objects == db.objects
      && db'.cals == db.cals[f.value := db'.cals[f.value]]
      && (r.value <==> !CalLive(db, f.value))
      && (f.value in db.cals ==>
            && db'.cals[f.value].token == db.cals[f.value].token
            && db'.cals[f.value].props == Applied(db.cals[f.value].props, c))
  {
    var db', at := Ensure(db, key, c, json, CalByKey(db, key), id, now).0, CalByKey(db, key);
    var f := if at.Some? then at.value else id;
    assert f in db'.cals && db'.cals[f].key == key;
    EnsureInv(db, key, c, json, id, now);
    assert CalByKey(db', key) == Some(f);
  }

  // ------------------------------------------------------- every step keeps

  lemma PutKeepsUids(db: Db, cal: string, o: NewObject, opts: PutOpts, now: int)
    requires UidsUnique(db)
    ensures UidsUnique(Put(db, cal, o, opts, now).0)
  {
    var (db', r) := Put(db, cal, o, opts, now);
    if r.Ok? && !r.value.noop {
      PutTouchesOneRow(db, cal, o, opts, now);
      var name := r.value.name;
      forall c, uid, n, m | HasUid(db', c, uid, n) && HasUid(db', c, uid, m) ensures n == m {
        if Slot(c, n) != Slot(cal, name) { assert HasUid(db, c, uid, n); }
        if Slot(c, m) != Slot(cal, name) { assert HasUid(db, c, uid, m); }
        if c == cal && n == name && m != name { assert uid == o.uid; OthersLackUid(db, cal, o, opts, now, m); }
        if c == cal && m == name && n != name { assert uid == o.uid; OthersLackUid(db, cal, o, opts, now, n); }
      }
    }
  }

  /** The put was let through, so no other live object has its UID. */
  lemma OthersLackUid(db: Db, cal: string, o: NewObject, opts: PutOpts, now: int, m: string)
    requires UidsUnique(db) && Put(db, cal, o, opts, now).1.Ok?
    requires m != Put(db, cal, o, opts, now).1.value.name
    ensures !HasUid(db, cal, o.uid, m)
  {
  }

  lemma TombstonesKeepUids(db: Db, db': Db)
    requires UidsUnique(db)
    requires forall s :: s in db'.objects && db'.objects[s].deleted.None? ==>
               s in db.objects && db'.objects[s] == db.objects[s]
    ensures UidsUnique(db')
  {
    forall c, uid, n, m | HasUid(db', c, uid, n) && HasUid(db', c, uid, m) ensures n == m {
      assert HasUid(db, c, uid, n) && HasUid(db, c, uid, m);
    }
  }

  /** Whatever tables come out of a step: rows kept or rewritten as they should
      be, tokens no lower, keys as they were. */
  lemma KeepsInv(db: Db, db': Db)
    requires Inv(db) && UidsUnique(db') && KeysUnique(db')
    requires forall c :: c in db.cals ==> c in db'.cals && db.cals[c].token <= db'.cals[c].token
    requires forall c :: c in db'.cals && c !in db.cals ==> db'.cals[c].token >= 0
    requires forall x :: x in db'.objects ==> (x in db.objects && db'.objects[x] == db.objects[x]) || RowOk(db', x)
    ensures Inv(db')
  {
    forall x | x in db'.objects ensures RowOk(db', x) {
      if x in db.objects { assert RowOk(db, x); }
    }
  }

  lemma PutInv(db: Db, cal: string, o: NewObject, opts: PutOpts, now: int)
    requires Inv(db) && Bare(o.uid)
    ensures Inv(Put(db, cal, o, opts, now).0)
  {
    var (db', r) := Put(db, cal, o, opts, now);
    PutTouchesOneRow(db, cal, o, opts, now);
    PutKeepsUids(db, cal, o, opts, now);
    if r.Ok? && !r.value.noop {
      assert RowOk(db', Slot(cal, r.value.name));
      KeepsInv(db, db');
    } else {
      assert db' == db;
    }
  }

  lemma DeleteInv(db: Db, cal: string, name: string, now: int)
    requires Inv(db)
    ensures Inv(Delete(db, cal, name, now).0)
  {
    var db' := Delete(db, cal, name, now).0;
    TombstonesKeepUids(db, db');
    if db' != db {
      assert RowOk(db, Slot(cal, name));
      KeepsInv(db, db');
    }
  }

  lemma RemoveInv(db: Db, cal: string, now: int)
    requires Inv(db)
    ensures Inv(Remove(db, cal, now).0)
  {
    var db' := Remove(db, cal, now).0;
    TombstonesKeepUids(db, db');
    forall x | x in db'.objects ensures (x in db.objects && db'.objects[x] == db.objects[x]) || RowOk(db', x) {
      assert RowOk(db, x);
    }
    KeepsInv(db, db');
  }

  lemma EnsureInv(db: Db, key: CalKey, c: Props, json: bool, id: string, now: int)
    requires Inv(db)
    ensures Inv(Ensure(db, key, c, json, CalByKey(db, key), id, now).0)
  {
    var db' := Ensure(db, key, c, json, CalByKey(db, key), id, now).0;
    TombstonesKeepUids(db, db');
    KeepsInv(db, db');
  }

  lemma InvStep(db: Db, s: Step)
    requires Inv(db)
    ensures Inv(Next(db, s))
  {
    match s
    case PutStep(cal, o, opts, now) =>
      TrimIsBare(o.uid);
      PutInv(db, cal, Trimmed(o), opts, now);
    case DeleteStep(cal, name, now) => DeleteInv(db, cal, name, now);
    case RemoveStep(cal, now) => RemoveInv(db, cal, now);
    case EnsureStep(key, c, json, id, now) => EnsureInv(db, key, c, json, id, now);
  }

  lemma {:induction false} RunInv(db: Db, steps: seq<Step>)
    requires Inv(db)
    ensures Inv(Run(db, steps))
  {
    if steps != [] {
      RunInv(db, steps[..|steps| - 1]);
      InvStep(Run(db, steps[..|steps| - 1]), steps[|steps| - 1]);
    }
  }

  /** In every state reachable from an empty store a live UID names one object
      of its calendar, and a calendar name one calendar; no unique index is
      needed for either. */
  lemma ReachableIdentity(steps: seq<Step>)
    ensures UidsUnique(Run(EMPTY, steps)) && KeysUnique(Run(EMPTY, steps))
  {
    RunInv(EMPTY, steps);
  }

  // -------------------------------------------------------------- delta sync

  /** Everything of the calendar that is not as it was carries a modseq above
      `since`, and nothing is gone. */
  ghost predicate Advanced(db: Db, db': Db, cal: string, since: int) {
    && cal in db.cals && cal in db'.cals
    && since <= db'.cals[cal].token
    && forall n {:trigger Slot(cal, n)} ::
         && (Slot(cal, n) in db.objects ==> Slot(cal, n) in db'.objects)
         && (Slot(cal, n) in db'.objects ==>
               || (Slot(cal, n) in db.objects && db'.objects[Slot(cal, n)] == db.objects[Slot(cal, n)])
               || db'.objects[Slot(cal, n)].modseq > since)
  }

  lemma StepAdvances(db: Db, s: Step, cal: string)
    requires Inv(db) && cal in db.cals
    ensures Advanced(db, Next(db, s), cal, db.cals[cal].token)
  {
    match s
    case PutStep(c, o, opts, now) => PutAdvances(db, c, Trimmed(o), opts, now, cal);
    case DeleteStep(c, name, now) => DeleteAdvances(db, c, name, now, cal);
    case RemoveStep(c, now) => RemoveAdvances(db, c, now, cal);
    case EnsureStep(_, _, _, _, _) => assert Next(db, s).objects == db.objects;
  }

  lemma PutAdvances(db: Db, c: string, o: NewObject, opts: PutOpts, now: int, cal: string)
    requires Inv(db) && cal in db.cals
    ensures Advanced(db, Put(db, c, o, opts, now).0, cal, db.cals[cal].token)
  {
    PutTouchesOneRow(db, c, o, opts, now);
  }

  lemma DeleteAdvances(db: Db, c: string, name: string, now: int, cal: string)
    requires Inv(db) && cal in db.cals
    ensures Advanced(db, Delete(db, c, name, now).0, cal, db.cals[cal].token)
  {
  }

  lemma RemoveAdvances(db: Db, c: string, now: int, cal: string)
    requires Inv(db) && cal in db.cals
    ensures Advanced(db, Remove(db, c, now).0, cal, db.cals[cal].token)
  {
  }

  lemma {:induction false} RunAdvances(db: Db, steps: seq<Step>, cal: string)
    requires Inv(db) && cal in db.cals
    ensures Advanced(db, Run(db, steps), cal, db.cals[cal].token)
  {
    if steps != [] {
      var pre := steps[..|steps| - 1];
      var mid := Run(db, pre);
      RunAdvances(db, pre, cal);
      RunInv(db, pre);
      StepAdvances(mid, steps[|steps| - 1], cal);
      Compose(db, mid, Run(db, steps), cal);
    }
  }

  lemma Compose(a: Db, b: Db, c: Db, cal: string)
    requires cal in a.cals && Advanced(a, b, cal, a.cals[cal].token) && Advanced(b, c, cal, b.cals[cal].token)
    ensures Advanced(a, c, cal, a.cals[cal].token)
  {
  }

  lemma RowsHas(db: Db, cal: string, n: string)
    ensures n in Rows(db, cal) <==> Slot(cal, n) in db.objects
    ensures Slot(cal, n) in db.objects ==> Rows(db, cal)[n] == db.objects[Slot(cal, n)]
  {
    if Slot(cal, n) in db.objects {
      var s := Slot(cal, n);
      assert s.cal == cal && s.name == n;
    }
  }

  lemma ListHas(db: Db, cal: string, since: int, n: string)
    ensures n in List(db, cal, since, true, {}) <==>
              Slot(cal, n) in db.objects && (since > 0 ==> db.objects[Slot(cal, n)].modseq > since)
    ensures n in List(db, cal, since, true, {}) ==> List(db, cal, since, true, {})[n] == db.objects[Slot(cal, n)]
  {
    if Slot(cal, n) in db.objects {
      var s := Slot(cal, n);
      assert s.cal == cal && s.name == n;
    }
  }

  /** Delta sync refines full listing: the rows a client had when its token was
      current, overlaid with what the token's delta lists, are the rows now. */
  lemma DeltaSync(db: Db, steps: seq<Step>, cal: string)
    requires Inv(db) && cal in db.cals
    ensures
      var now := Run(db, steps);
      Rows(db, cal) + List(now, cal, db.cals[cal].token, true, {}) == Rows(now, cal)
  {
    RunAdvances(db, steps, cal);
    Overlay(db, Run(db, steps), cal);
  }

  lemma Overlay(db: Db, now: Db, cal: string)
    requires cal in db.cals && Advanced(db, now, cal, db.cals[cal].token)
    ensures Rows(db, cal) + List(now, cal, db.cals[cal].token, true, {}) == Rows(now, cal)
  {
    var a, b := Rows(db, cal) + List(now, cal, db.cals[cal].token, true, {}), Rows(now, cal);
    forall n ensures SameEntry(a, b, n) { OverlayAt(db, now, cal, n); }
    SameMap(a, b);
  }

  lemma SameMap(a: map<string, Object>, b: map<string, Object>)
    requires forall n :: SameEntry(a, b, n)
    ensures a == b
  {
    assert forall n :: n in a ==> SameEntry(a, b, n);
    assert forall n :: n in b ==> SameEntry(a, b, n);
  }

  ghost predicate SameEntry(a: map<string, Object>, b: map<string, Object>, n: string) {
    (n in a <==> n in b) && (n in a ==> a[n] == b[n])
  }

  lemma OverlayAt(db: Db, now: Db, cal: string, n: string)
    requires cal in db.cals && Advanced(db, now, cal, db.cals[cal].token)
    ensures SameEntry(Rows(db, cal) + List(now, cal, db.cals[cal].token, true, {}), Rows(now, cal), n)
  {
    RowsHas(db, cal, n);
    RowsHas(now, cal, n);
    ListHas(now, cal, db.cals[cal].token, n);
  }

  /** And nothing is listed for free: a name is in the delta exactly when its
      row is new or has changed. */
  lemma DeltaIsMinimal(db: Db, steps: seq<Step>, cal: string, n: string)
    requires Inv(db) && cal in db.cals
    ensures
      var now := Run(db, steps);
      n in List(now, cal, db.cals[cal].token, true, {}) <==>
        n in Rows(now, cal) && (n !in Rows(db, cal) || Rows(db, cal)[n] != Rows(now, cal)[n])
  {
    var now, m := Run(db, steps), db.cals[cal].token;
    RunAdvances(db, steps, cal);
    RowsHas(db, cal, n);
    RowsHas(now, cal, n);
    ListHas(now, cal, m, n);
    if Slot(cal, n) in db.objects { assert RowOk(db, Slot(cal, n)); }
  }

  // ------------------------------------------------------------ lost updates

  /** Two writers who read the same content and both ask for its etag: once
      one has changed it, the other succeeds only if the content is again
      byte for byte what it read. */
  lemma NoLostUpdate(db: Db, steps: seq<Step>, cal: string, read: string, o: NewObject, opts: PutOpts, now: int)
    requires Inv(db) && opts.ifMatch == Tag(Sha256(read))
    requires Put(Run(db, steps), cal, o, opts, now).1.Ok?
    ensures
      var name := Put(Run(db, steps), cal, o, opts, now).1.value.name;
      LiveAt(Run(db, steps), cal, name) && Run(db, steps).objects[Slot(cal, name)].ical == read
  {
    RunInv(db, steps);
    IfMatchReplacesOnlyNamed(Run(db, steps), cal, o, opts, now);
  }
}
