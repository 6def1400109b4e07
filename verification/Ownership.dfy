/** Principals of a tenant and the stacks that manage them. Every users,
    binding, credential and grant row records the stack that wrote it; only the
    stack that wrote a principal's first row may write another. */
module Ownership {
  import opened ByteOrder
  import opened Strings
  import opened Wrappers

  datatype Principal = User(uid: string) | Other(id: string)
  datatype Resource = Resource(kind: string, name: string)
  datatype What = Binding(subject: string) | Credential(shortId: string)
  datatype Row = Row(
    id: string, tenant: string, principal: Principal, createdBy: string, at: int, what: What,
    verified: bool, live: bool)
  datatype UserRow = UserRow(tenant: string, displayName: string, createdBy: string, active: bool)
  datatype Grant = Grant(id: string, tenant: string, principal: Principal, resource: Resource,
                         verbs: seq<string>, createdBy: string, live: bool)

  /** `rows` are the bindings and the credentials, as they were inserted. */
  datatype Db = Db(users: map<string, UserRow>, rows: seq<Row>, grants: seq<Grant>)

  datatype Error = NoStack | NotOwner(owner: string) | NotFound | Bound | Disabled | TooMany | Conflict
  datatype Reply = Done(db: Db) | Refused(error: Error)

  const MAX_GRANTS := 1024
  const MAX_CREDENTIALS := 64

  // ------------------------------------------------------------- the base stack

  predicate Slash(c: char) { c == '/' }

  function FirstSegment(s: string): (r: string)
    ensures r <= s && '/' !in r && (|r| < |s| ==> s[|r|] == '/')
  {
    if s == "" || s[0] == '/' then "" else [s[0]] + FirstSegment(s[1..])
  }

  function BaseStack(stack: string): string {
    FirstSegment(TrimLeft(TrimSpace(stack), Slash))
  }

  /** A stack name as it is written: one segment without blanks at its ends. */
  predicate Plain(s: string) {
    s != "" && '/' !in s && Bare(s)
  }

  /** A stack and its slots are one owner. */
  lemma SlotOfBase(base: string, slot: string)
    requires Plain(base)
    ensures BaseStack(base) == base && BaseStack(base + "/" + slot) == base
  {
    var s := base + "/" + slot;
    assert s[0] == base[0] && s[|base|] == '/';
    assert base + "/" <= TrimRight(s, Space) by { TrimKeeps(base + "/", slot); }
    var t := TrimRight(s, Space);
    assert t[0] == base[0] && t[|base|] == '/';
    SegmentIs(base, t);
    SegmentIs(base, base);
  }

  predicate Slashes(s: string) { forall i :: 0 <= i < |s| ==> s[i] == '/' }

  lemma {:induction false} TrimSlashes(a: string, s: string)
    requires Slashes(a) && (s != "" ==> s[0] != '/')
    ensures TrimLeft(a + s, Slash) == s
  {
    if a == "" {
      assert a + s == s;
    } else {
      assert (a + s)[1..] == a[1..] + s;
      TrimSlashes(a[1..], s);
    }
  }

  /** Blanks around a stack and slashes before it make no other owner, and a
      stack of nothing else has no base. */
  lemma {:induction false} BaseWithin(blank: string, slashes: string, base: string, after: string)
    requires Blank(blank) && Slashes(slashes) && Plain(base) && Blank(after)
    ensures BaseStack(blank + (slashes + base) + after) == base
    ensures BaseStack(blank + slashes + after) == ""
  {
    var s := slashes + base;
    assert s[|s| - 1] == base[|base| - 1] && (s[0] == '/' || s[0] == base[0]);
    TrimsBlanks(blank, s, after);
    TrimSlashes(slashes, base);
    SegmentIs(base, base);
    TrimsBlanks(blank, slashes, after);
    TrimSlashes(slashes, "");
    assert slashes + "" == slashes;
  }

  lemma TrimKeeps(a: string, b: string)
    requires a != "" && !Space(a[|a| - 1])
    ensures a <= TrimRight(a + b, Space)
  {
    var s, r := a + b, TrimRight(a + b, Space);
    assert s[|a| - 1] == a[|a| - 1];
    if |r| < |a| { TrimRightDrops(s, Space, |a| - 1); }
  }

  lemma {:induction false} SegmentIs(base: string, s: string)
    requires '/' !in base && base <= s && (|base| < |s| ==> s[|base|] == '/')
    ensures FirstSegment(s) == base
  {
    if base != "" { SegmentIs(base[1..], s[1..]); }
  }

  // -------------------------------------------------------------- who owns whom

  predicate Of(r: Row, t: string, p: Principal) { r.tenant == t && r.principal == p }

  predicate Before(a: Row, b: Row) { a.at < b.at || (a.at == b.at && Less(a.id, b.id)) }

  /** The row of p that sorts first by creation. */
  function Earliest(rows: seq<Row>, t: string, p: Principal): (e: Option<Row>)
    ensures e.Some? ==> e.value in rows && Of(e.value, t, p)
    ensures e.None? <==> forall r :: r in rows ==> !Of(r, t, p)
  {
    if rows == [] then None
    else
      var pre, r := rows[..|rows| - 1], rows[|rows| - 1];
      var e := Earliest(pre, t, p);
      assert rows == pre + [r];
      if Of(r, t, p) && (e.None? || Before(r, e.value)) then Some(r) else e
  }

  lemma BeforeTransitive(a: Row, b: Row, c: Row)
    requires !Before(a, b) && Before(c, b)
    ensures !Before(a, c)
  {
    LessTotal(a.id, b.id);
    LessTotal(a.id, c.id);
    if Less(a.id, c.id) && Less(c.id, b.id) { LessTransitive(a.id, c.id, b.id); }
  }

  /** No row of p sorts before it. */
  lemma {:induction false} EarliestIsFirst(rows: seq<Row>, t: string, p: Principal, r: Row)
    requires r in rows && Of(r, t, p)
    ensures !Before(r, Earliest(rows, t, p).value)
  {
    var pre, last := rows[..|rows| - 1], rows[|rows| - 1];
    var e := Earliest(pre, t, p);
    LessTotal(r.id, r.id);
    if r in pre {
      EarliestIsFirst(pre, t, p, r);
      if Of(last, t, p) && Before(last, e.value) { BeforeTransitive(r, e.value, last); }
    } else {
      assert r == last;
    }
  }

  datatype Owner = Nobody | By(stack: string) | Missing

  function OwnerOf(db: Db, t: string, p: Principal): Owner {
    match p
    case User(uid) => if uid in db.users && db.users[uid].tenant == t then By(db.users[uid].createdBy) else Missing
    case Other(_) =>
      match Earliest(db.rows, t, p) case None => Nobody case Some(r) => By(r.createdBy)
  }

  function Refusal(db: Db, t: string, base: string, p: Principal): Option<Error> {
    if base == "" then Some(NoStack)
    else match OwnerOf(db, t, p)
      case Missing => Some(NotFound)
      case Nobody => None
      case By(o) => if o == base then None else Some(NotOwner(o))
  }

  predicate Active(db: Db, t: string, p: Principal) {
    p.User? ==> p.uid in db.users && db.users[p.uid].tenant == t && db.users[p.uid].active
  }

  // ------------------------------------------------- users, bindings, credentials

  predicate Unused(rows: seq<Row>, id: string) { forall r :: r in rows ==> r.id != id }

  predicate Bears(r: Row, t: string, subject: string) { r.live && r.tenant == t && r.what == Binding(subject) }

  /** The live row that binds the subject. */
  function Bearer(rows: seq<Row>, t: string, subject: string): (i: Option<nat>)
    ensures i.Some? ==> i.value < |rows| && Bears(rows[i.value], t, subject)
  {
    if rows == [] then None
    else if Bears(rows[|rows| - 1], t, subject) then Some(|rows| - 1)
    else Bearer(rows[..|rows| - 1], t, subject)
  }

  /** An unverified binding becomes verified when asked; never the reverse. */
  function Upgraded(db: Db, i: nat, verified: bool): Db
    requires i < |db.rows|
  {
    if verified then db.(rows := db.rows[i := db.rows[i].(verified := true)]) else db
  }

  function Credentials(rows: seq<Row>, t: string, p: Principal): nat {
    if rows == [] then 0
    else
      var r := rows[|rows| - 1];
      Credentials(rows[..|rows| - 1], t, p) + if Of(r, t, p) && r.what.Credential? && r.live then 1 else 0
  }

  function AddRow(db: Db, r: Row): Reply {
    if Unused(db.rows, r.id) then Done(db.(rows := db.rows + [r])) else Refused(Conflict)
  }

  /** An address to bind, and whether the product has proved it. */
  datatype Address = Address(subject: string, verified: bool)

  function CreateUser(db: Db, t: string, base: string, a: Address, display: string, uid: string, id: string, at: int)
    : Reply
  {
    if base == "" then Refused(NoStack)
    else match Bearer(db.rows, t, a.subject)
      case Some(i) =>
        if db.rows[i].principal.Other? then Refused(Bound)
        else (match OwnerOf(db, t, db.rows[i].principal)
          case By(o) => if o == base then Done(Upgraded(db, i, a.verified)) else Refused(NotOwner(o))
          case _ => Refused(NotFound))
      case None =>
        if uid in db.users then Refused(Conflict)
        else AddRow(db.(users := db.users[uid := UserRow(t, display, base, true)]),
                    Row(id, t, User(uid), base, at, Binding(a.subject), a.verified, true))
  }

  function Bind(db: Db, t: string, base: string, p: Principal, a: Address, id: string, at: int): Reply {
    match Refusal(db, t, base, p)
    case Some(e) => Refused(e)
    case None =>
      match Bearer(db.rows, t, a.subject)
      case Some(i) => if db.rows[i].principal == p then Done(Upgraded(db, i, a.verified)) else Refused(Bound)
      case None => AddRow(db, Row(id, t, p, base, at, Binding(a.subject), a.verified, true))
  }

  predicate ShortFree(rows: seq<Row>, t: string, p: Principal, shortId: string) {
    forall r :: r in rows && Of(r, t, p) ==> r.what != Credential(shortId)
  }

  function Issue(db: Db, t: string, base: string, p: Principal, shortId: string, id: string, at: int): Reply {
    match Refusal(db, t, base, p)
    case Some(e) => Refused(e)
    case None =>
      if !Active(db, t, p) then Refused(Disabled)
      else if Credentials(db.rows, t, p) >= MAX_CREDENTIALS then Refused(TooMany)
      else if !ShortFree(db.rows, t, p, shortId) then Refused(Conflict)
      else AddRow(db, Row(id, t, p, base, at, Credential(shortId), false, true))
  }

  function Locate(rows: seq<Row>, t: string, id: string): (i: Option<nat>)
    ensures i.Some? ==> i.value < |rows| && rows[i.value].id == id && rows[i.value].tenant == t
  {
    if rows == [] then None
    else if rows[|rows| - 1].id == id && rows[|rows| - 1].tenant == t then Some(|rows| - 1)
    else Locate(rows[..|rows| - 1], t, id)
  }

  function RevokeCredential(db: Db, t: string, base: string, id: string): Reply {
    match Locate(db.rows, t, id)
    case None => Refused(NotFound)
    case Some(i) =>
      if !db.rows[i].what.Credential? then Refused(NotFound)
      else match Refusal(db, t, base, db.rows[i].principal)
        case Some(e) => Refused(e)
        case None => Done(db.(rows := db.rows[i := db.rows[i].(live := false)]))
  }

  function SetUserDisabled(db: Db, t: string, base: string, uid: string, disabled: bool): Reply {
    match Refusal(db, t, base, User(uid))
    case Some(e) => Refused(e)
    case None =>
      if uid in db.users then Done(db.(users := db.users[uid := db.users[uid].(active := !disabled)])) else Done(db)
  }

  // --------------------------------------------------------------------- grants

  predicate Holds(g: Grant, t: string, p: Principal) { g.live && g.tenant == t && g.principal == p }

  predicate HoldsOn(g: Grant, t: string, p: Principal, res: Resource) { Holds(g, t, p) && g.resource == res }

  function LiveGrant(gs: seq<Grant>, t: string, p: Principal, res: Resource): (i: Option<nat>)
    ensures i.Some? ==> i.value < |gs| && HoldsOn(gs[i.value], t, p, res)
    ensures i.None? <==> forall g :: g in gs ==> !HoldsOn(g, t, p, res)
  {
    if gs == [] then None
    else
      assert gs == gs[..|gs| - 1] + [gs[|gs| - 1]];
      if HoldsOn(gs[|gs| - 1], t, p, res) then Some(|gs| - 1) else LiveGrant(gs[..|gs| - 1], t, p, res)
  }

  function Held(gs: seq<Grant>, t: string, p: Principal): nat {
    if gs == [] then 0
    else Held(gs[..|gs| - 1], t, p) + if Holds(gs[|gs| - 1], t, p) then 1 else 0
  }

  function Ended(gs: seq<Grant>, i: nat): seq<Grant>
    requires i < |gs|
  {
    gs[i := gs[i].(live := false)]
  }

  predicate FreshGrant(gs: seq<Grant>, id: string) { forall g :: g in gs ==> g.id != id }

  function PutError(db: Db, t: string, base: string, p: Principal): Option<Error> {
    if base == "" then Some(NoStack)
    else match OwnerOf(db, t, p)
      case Missing | Nobody => Some(NotFound)
      case By(o) => if o != base then Some(NotOwner(o)) else if !Active(db, t, p) then Some(Disabled) else None
  }

  /** One pass at writing a grant under a new id. */
  function PutOnce(db: Db, t: string, base: string, p: Principal, res: Resource, verbs: seq<string>, id: string)
    : Reply
  {
    var g := Grant(id, t, p, res, verbs, base, true);
    match LiveGrant(db.grants, t, p, res)
    case Some(i) =>
      if db.grants[i].verbs == verbs then Done(db)
      else if !FreshGrant(db.grants, id) then Refused(Conflict)
      else Done(db.(grants := Ended(db.grants, i) + [g]))
    case None =>
      if Held(db.grants, t, p) >= MAX_GRANTS then Refused(TooMany)
      else if !FreshGrant(db.grants, id) then Refused(Conflict)
      else Done(db.(grants := db.grants + [g]))
  }

  function PutGrant(db: Db, t: string, base: string, p: Principal, res: Resource, verbs: seq<string>,
                    id: string, id': string): Reply
  {
    match PutError(db, t, base, p)
    case Some(e) => Refused(e)
    case None =>
      var r := PutOnce(db, t, base, p, res, verbs, id);
      if r == Refused(Conflict) then PutOnce(db, t, base, p, res, verbs, id') else r
  }

  function LocateGrant(gs: seq<Grant>, t: string, id: string): (i: Option<nat>)
    ensures i.Some? ==> i.value < |gs| && gs[i.value].id == id && gs[i.value].tenant == t
  {
    if gs == [] then None
    else if gs[|gs| - 1].id == id && gs[|gs| - 1].tenant == t then Some(|gs| - 1)
    else LocateGrant(gs[..|gs| - 1], t, id)
  }

  function RevokeGrant(db: Db, t: string, base: string, id: string): Reply {
    match LocateGrant(db.grants, t, id)
    case None => Refused(NotFound)
    case Some(i) =>
      match Refusal(db, t, base, db.grants[i].principal)
      case Some(e) => Refused(e)
      case None => Done(db.(grants := Ended(db.grants, i)))
  }

  // ------------------------------------------------------------------ the table

  /** What a call leaves behind when it answers `r`. */
  predicate Answers(r: Reply, was: Db, db: Db, e: Option<Error>) {
    if r.Done? then e.None? && db == r.db else e == Some(r.error) && db == was
  }

  class Store {
    var db: Db

    constructor ()
      ensures db == Db(map[], [], [])
    {
      db := Db(map[], [], []);
    }

    /** Insert under the first ids that collide with nothing: all the checks
        are made once, the insert up to five times. */
    method IssueCredential(t: string, stack: string, p: Principal, tries: seq<(string, string)>, at: int)
        returns (e: Option<Error>, ghost n: nat)
      requires |tries| == 5
      modifies this
      ensures n < 5 && Answers(Issue(old(db), t, BaseStack(stack), p, tries[n].0, tries[n].1, at), old(db), db, e)
      ensures forall j :: 0 <= j < n ==>
        Issue(old(db), t, BaseStack(stack), p, tries[j].0, tries[j].1, at) == Refused(Conflict)
      ensures e == Some(Conflict) ==> n == 4
    {
      n := 0;
      var base := BaseStack(stack);
      e := Refusal(db, t, base, p);
      if e.Some? { return; }
      if !Active(db, t, p) { return Some(Disabled), 0; }
      if Credentials(db.rows, t, p) >= MAX_CREDENTIALS { return Some(TooMany), 0; }
      for i := 0 to 5
        invariant db == old(db)
        invariant forall j :: 0 <= j < i ==>
          Issue(db, t, BaseStack(stack), p, tries[j].0, tries[j].1, at) == Refused(Conflict)
      {
        var (shortId, id) := tries[i];
        if ShortFree(db.rows, t, p, shortId) && Unused(db.rows, id) {
          db := db.(rows := db.rows + [Row(id, t, p, base, at, Credential(shortId), false, true)]);
          return None, i;
        }
      }
      return Some(Conflict), 4;
    }

    method BindPrincipal(t: string, stack: string, p: Principal, a: Address, ids: seq<string>, at: int)
        returns (e: Option<Error>, ghost n: nat)
      requires |ids| == 2
      modifies this
      ensures n < 2 && Answers(Bind(old(db), t, BaseStack(stack), p, a, ids[n], at), old(db), db, e)
      ensures n == 1 ==> Bind(old(db), t, BaseStack(stack), p, a, ids[0], at) == Refused(Conflict)
      ensures e == Some(Conflict) ==> n == 1
    {
      n := 0;
      var base := BaseStack(stack);
      e := Refusal(db, t, base, p);
      if e.Some? { return; }
      for attempt := 0 to 2
        invariant db == old(db)
        invariant attempt > 0 ==> Bearer(db.rows, t, a.subject).None? && !Unused(db.rows, ids[0])
        invariant attempt > 1 ==> !Unused(db.rows, ids[1])
      {
        var existing := Bearer(db.rows, t, a.subject);
        if existing.Some? {
          if db.rows[existing.value].principal != p { return Some(Bound), attempt; }
          UpgradeVerified(existing.value, a.verified);
          return None, attempt;
        }
        if Unused(db.rows, ids[attempt]) {
          db := db.(rows := db.rows + [Row(ids[attempt], t, p, base, at, Binding(a.subject), a.verified, true)]);
          return None, attempt;
        }
      }
      return Some(Conflict), 1;
    }

    method UpgradeVerified(i: nat, verified: bool)
      requires i < |db.rows|
      modifies this
      ensures db == Upgraded(old(db), i, verified)
    {
      if !verified || db.rows[i].verified {
        assert db.rows[i].verified ==> db.rows[i := db.rows[i].(verified := true)] == db.rows;
        return;
      }
      db := db.(rows := db.rows[i := db.rows[i].(verified := true)]);
    }

    /** The users row and its binding, in one transaction, in two passes. */
    method Create(t: string, stack: string, a: Address, display: string, tries: seq<(string, string)>, at: int)
        returns (e: Option<Error>, ghost n: nat)
      requires |tries| == 2
      modifies this
      ensures n < 2 &&
        Answers(CreateUser(old(db), t, BaseStack(stack), a, display, tries[n].0, tries[n].1, at), old(db), db, e)
      ensures n == 1 ==>
        CreateUser(old(db), t, BaseStack(stack), a, display, tries[0].0, tries[0].1, at) == Refused(Conflict)
      ensures e == Some(Conflict) ==> n == 1
    {
      var base := BaseStack(stack);
      if base == "" { return Some(NoStack), 0; }
      for attempt := 0 to 2
        invariant db == old(db)
        invariant forall j :: 0 <= j < attempt ==>
          CreateUser(db, t, BaseStack(stack), a, display, tries[j].0, tries[j].1, at) == Refused(Conflict)
      {
        var existing := Bearer(db.rows, t, a.subject);
        if existing.Some? {
          var p := db.rows[existing.value].principal;
          if p.Other? { return Some(Bound), attempt; }
          match OwnerOf(db, t, p)
          case By(o) =>
            if o != base { return Some(NotOwner(o)), attempt; }
            UpgradeVerified(existing.value, a.verified);
            return None, attempt;
          case _ => return Some(NotFound), attempt;
        }
        var (uid, id) := tries[attempt];
        if uid !in db.users && Unused(db.rows, id) {
          db := db.(users := db.users[uid := UserRow(t, display, base, true)],
                    rows := db.rows + [Row(id, t, User(uid), base, at, Binding(a.subject), a.verified, true)]);
          return None, attempt;
        }
      }
      return Some(Conflict), 1;
    }

    /** `did` is whether this call revoked the grant. */
    method Revoke(t: string, stack: string, id: string) returns (e: Option<Error>, did: bool)
      modifies this
      ensures Answers(RevokeGrant(old(db), t, BaseStack(stack), id), old(db), db, e)
      ensures did <==> e.None? && db != old(db)
    {
      did := false;
      var i := LocateGrant(db.grants, t, id);
      if i.None? { return Some(NotFound), false; }
      e := Refusal(db, t, BaseStack(stack), db.grants[i.value].principal);
      if e.Some? { return; }
      if !db.grants[i.value].live {
        assert Ended(db.grants, i.value) == db.grants;
        return;
      }
      did := true;
      assert !Ended(db.grants, i.value)[i.value].live;
      db := db.(grants := Ended(db.grants, i.value));
    }

    /** `did` is whether this call revoked the credential. */
    method EndCredential(t: string, stack: string, id: string) returns (e: Option<Error>, did: bool)
      modifies this
      ensures Answers(RevokeCredential(old(db), t, BaseStack(stack), id), old(db), db, e)
      ensures did <==> e.None? && db != old(db)
    {
      did := false;
      var i := Locate(db.rows, t, id);
      if i.None? || !db.rows[i.value].what.Credential? { return Some(NotFound), false; }
      e := Refusal(db, t, BaseStack(stack), db.rows[i.value].principal);
      if e.Some? { return; }
      var row := db.rows[i.value];
      if !row.live {
        assert db.rows[i.value := row.(live := false)] == db.rows;
        return;
      }
      did := true;
      assert !db.rows[i.value := row.(live := false)][i.value].live;
      db := db.(rows := db.rows[i.value := row.(live := false)]);
    }

    method SetDisabled(t: string, stack: string, uid: string, disabled: bool) returns (e: Option<Error>)
      modifies this
      ensures Answers(SetUserDisabled(old(db), t, BaseStack(stack), uid, disabled), old(db), db, e)
    {
      e := Refusal(db, t, BaseStack(stack), User(uid));
      if e.Some? { return; }
      if uid in db.users { db := db.(users := db.users[uid := db.users[uid].(active := !disabled)]); }
    }

    /** Two passes at the insert; the revocation of the replaced row and the
        insert of the new one are one transaction. */
    method Put(t: string, stack: string, p: Principal, res: Resource, verbs: seq<string>, ids: seq<string>)
        returns (e: Option<Error>, created: bool)
      requires |ids| == 2
      modifies this
      ensures
        && Answers(PutGrant(old(db), t, BaseStack(stack), p, res, verbs, ids[0], ids[1]), old(db), db, e)
        && (created <==> db != old(db))
    {
      var base := BaseStack(stack);
      e := PutError(db, t, base, p);
      if e.Some? { return e, false; }
      var attempt := 0;
      while true
        invariant attempt <= 1 && db == old(db)
        invariant attempt == 1 ==> PutOnce(db, t, base, p, res, verbs, ids[0]) == Refused(Conflict)
        decreases 2 - attempt
      {
        var existing := LiveGrant(db.grants, t, p, res);
        if existing.Some? && db.grants[existing.value].verbs == verbs { return None, false; }
        if existing.None? && Held(db.grants, t, p) >= MAX_GRANTS { return Some(TooMany), false; }
        if FreshGrant(db.grants, ids[attempt]) {
          var gs := if existing.Some? then Ended(db.grants, existing.value) else db.grants;
          db := db.(grants := gs + [Grant(ids[attempt], t, p, res, verbs, base, true)]);
          assert |db.grants| == |old(db).grants| + 1;
          return None, true;
        }
        if attempt > 0 { return Some(Conflict), false; }
        attempt := attempt + 1;
      }
    }
  }
}
