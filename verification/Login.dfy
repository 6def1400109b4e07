/** Logging in with an app password. A verified (credential, hash, password)
    triple is remembered for a while, so that a chatty client costs one slow
    password check; the credential row is read every time. */
module Login {
  import opened Wrappers
  import opened Strings

  // ------------------------------------------------------------ the login cache

  /** SHA-256, taken to be free of collisions. */
  datatype Digest = Sha256(text: string)

  function LoginKey(id: string, hash: string, password: string): Digest {
    Sha256(id + "\0" + hash + "\0" + password)
  }

  /** With no NUL in the id and the hash, a key names one triple. */
  lemma LoginKeyInjective(id: string, hash: string, pw: string, id': string, hash': string, pw': string)
    requires NulFree(id) && NulFree(hash)
    requires NulFree(id') && NulFree(hash')
    requires LoginKey(id, hash, pw) == LoginKey(id', hash', pw')
    ensures id == id' && hash == hash' && pw == pw'
  {
    var rest, rest' := hash + "\0" + pw, hash' + "\0" + pw';
    assert id + "\0" + hash + "\0" + pw == id + "\0" + rest;
    assert id' + "\0" + hash' + "\0" + pw' == id' + "\0" + rest';
    NulJoin(id, rest, id', rest');
    NulJoin(hash, pw, hash', pw');
  }

  /** A NUL in a hash would let one triple stand for another. */
  lemma LoginKeyClash()
    ensures LoginKey("c", "h\0x", "y") == LoginKey("c", "h", "x\0y")
  {
    assert "c" + "\0" + "h\0x" + "\0" + "y" == ['c', '\0', 'h', '\0', 'x', '\0', 'y'];
    assert "c" + "\0" + "h" + "\0" + "x\0y" == ['c', '\0', 'h', '\0', 'x', '\0', 'y'];
  }

  type Entries = map<Digest, int>

  function Unexpired(es: Entries, now: int): Entries { map k | k in es && now <= es[k] :: es[k] }

  /** What a put into a full cache leaves: the unexpired, or nothing if that
      does not help. */
  function Room(es: Entries, max: int, now: int): Entries {
    if |es| < max then es
    else if |Unexpired(es, now)| < max then Unexpired(es, now) else map[]
  }

  function Stored(es: Entries, max: int, ttl: int, key: Digest, now: int): Entries {
    Room(es, max, now)[key := now + ttl]
  }

  predicate Fresh(es: Entries, key: Digest, now: int) { key in es && now <= es[key] }

  function Looked(es: Entries, key: Digest, now: int): Entries {
    if key in es && now > es[key] then es - {key} else es
  }

  class LoginCache {
    const ttl: int
    const max: int
    var entries: Entries

    constructor (ttl: int, max: int)
      ensures this.ttl == ttl && this.max == max && entries == map[]
    {
      this.ttl, this.max := ttl, max;
      entries := map[];
    }

    method Hit(key: Digest, now: int) returns (hit: bool)
      modifies this
      ensures hit <==> Fresh(old(entries), key, now)
      ensures entries == Looked(old(entries), key, now)
    {
      if key !in entries { return false; }
      if now > entries[key] {
        entries := entries - {key};
        return false;
      }
      return true;
    }

    method Put(key: Digest, now: int)
      modifies this
      ensures entries == Stored(old(entries), max, ttl, key, now)
    {
      var before := entries;
      if |entries| >= max {
        var todo := entries.Keys;
        while todo != {}
          invariant todo <= before.Keys
          invariant entries == map k | k in before && (k in todo || now <= before[k]) :: before[k]
          decreases |todo|
        {
          var k :| k in todo;
          if now > before[k] { entries := entries - {k}; }
          todo := todo - {k};
        }
        assert entries == Unexpired(before, now);
        if |entries| >= max { entries := map[]; }
      }
      entries := entries[key := now + ttl];
    }
  }

  /** The cache never outgrows its bound. */
  lemma StoredSize(es: Entries, max: int, ttl: int, key: Digest, now: int)
    requires |es| <= max && 1 <= max
    ensures |Stored(es, max, ttl, key, now)| <= max
  {
    var room, to := Room(es, max, now), Stored(es, max, ttl, key, now);
    assert to.Keys == room.Keys + {key};
    assert |to| == |to.Keys| && |room| == |room.Keys|;
  }

  // ------------------------------------------------------------------ the rows

  datatype Scope = Scope(domain: string, inst: string, action: string)

  predicate Covers(s: Scope, want: Scope) {
    && s.domain == want.domain
    && (s.inst == "*" || s.inst == want.inst)
    && (s.action == "*" || s.action == want.action)
  }

  method Cover(scopes: seq<Scope>, want: Scope) returns (r: bool)
    ensures r <==> Covered(scopes, want)
  {
    for i := 0 to |scopes|
      invariant forall j :: 0 <= j < i ==> !Covers(scopes[j], want)
    {
      if Covers(scopes[i], want) { return true; }
    }
    return false;
  }

  predicate Covered(scopes: seq<Scope>, want: Scope) {
    exists i :: 0 <= i < |scopes| && Covers(scopes[i], want)
  }

  datatype Principal = User(id: string) | Other(id: string)

  datatype Credential = Credential(id: string, hash: string, scopes: seq<Scope>)

  datatype Slot = Slot(tenant: string, principal: Principal, shortId: string)

  /** The rows a login reads: live bindings and live credentials, and users
      with whether they are active. */
  datatype Db = Db(
    bindings: map<(string, string), Principal>,
    credentials: map<Slot, Credential>,
    users: map<(string, string), bool>)

  /** Credential ids and password hashes are text the chassis generates. */
  ghost predicate Clean(db: Db) {
    forall s :: s in db.credentials ==>
      NulFree(db.credentials[s].id) && NulFree(db.credentials[s].hash)
  }

  predicate Active(db: Db, tenant: string, p: Principal) {
    p.User? ==> (tenant, p.id) in db.users && db.users[(tenant, p.id)]
  }

  /** The door an attempt knocks on: its principal, or a username; a username
      that is no address is None. */
  datatype Door = Known(principal: Principal) | Named(username: Option<string>)

  datatype Attempt = Attempt(tenant: Option<string>, door: Door, password: string, want: Scope)

  datatype Outcome = OK(principal: Principal, credential: string) | Failed | OutOfScope | Disabled | Throttled | Error

  /** What is outside: how a password names its credential, and argon2 (None
      for a hash it cannot read). */
  datatype World = World(shortId: string -> string, verify: (string, string) -> Option<bool>)

  function Who(db: Db, tenant: string, d: Door): Option<Principal> {
    match d
    case Known(p) => Some(p)
    case Named(None) => None
    case Named(Some(u)) => if (tenant, u) in db.bindings then Some(db.bindings[(tenant, u)]) else None
  }

  function Admit(db: Db, tenant: string, p: Principal, c: Credential, want: Scope): Outcome {
    if !Covered(c.scopes, want) then OutOfScope
    else if !Active(db, tenant, p) then Disabled
    else OK(p, c.id)
  }

  // --------------------------------------------------------- without a cache

  /** The row a login works on: tenant, principal and credential. */
  function RowOf(w: World, db: Db, a: Attempt): Option<(string, Principal, Credential)> {
    if a.tenant.None? then None
    else match Who(db, a.tenant.value, a.door)
      case None => None
      case Some(p) =>
        var slot := Slot(a.tenant.value, p, w.shortId(a.password));
        if slot in db.credentials then Some((a.tenant.value, p, db.credentials[slot])) else None
  }

  /** The plain answer: check the password every time, no throttle. */
  function Verified(w: World, db: Db, a: Attempt): Outcome {
    if a.tenant.None? then Error
    else match RowOf(w, db, a)
      case None => Failed
      case Some((t, p, c)) =>
        match w.verify(c.hash, a.password)
        case None => Error
        case Some(false) => Failed
        case Some(true) => Admit(db, t, p, c, a.want)
  }

  /** Signing in takes a live credential of the resolved principal, its
      password, a scope that covers the door, and an active user; those
      suffice. */
  lemma OkExactly(w: World, db: Db, a: Attempt, p: Principal, id: string)
    ensures Verified(w, db, a) == OK(p, id) <==>
      && a.tenant.Some? && Who(db, a.tenant.value, a.door) == Some(p)
      && var slot := Slot(a.tenant.value, p, w.shortId(a.password));
      && slot in db.credentials && db.credentials[slot].id == id
      && w.verify(db.credentials[slot].hash, a.password) == Some(true)
      && (exists s :: s in db.credentials[slot].scopes && Covers(s, a.want))
      && Active(db, a.tenant.value, p)
  {
    if a.tenant.Some? {
      var slot := Slot(a.tenant.value, p, w.shortId(a.password));
      if slot in db.credentials { AnyScope(db.credentials[slot].scopes, a.want); }
    }
  }

  lemma AnyScope(scopes: seq<Scope>, want: Scope)
    ensures Covered(scopes, want) <==> exists s :: s in scopes && Covers(s, want)
  {
    if s :| s in scopes && Covers(s, want) {
      var i :| 0 <= i < |scopes| && scopes[i] == s;
      assert Covers(scopes[i], want);
    }
  }

  // ------------------------------------------------------------- with the cache

  /** Every remembered key is a triple that verified. */
  ghost predicate Truthful(w: World, es: Entries) {
    forall k {:trigger Proven(w, k)} :: k in es ==> Proven(w, k)
  }

  ghost predicate Proven(w: World, k: Digest) {
    exists id, hash, pw :: Proof(w, k, id, hash, pw)
  }

  ghost predicate Proof(w: World, k: Digest, id: string, hash: string, pw: string) {
    && NulFree(id) && NulFree(hash)
    && k == LoginKey(id, hash, pw) && w.verify(hash, pw) == Some(true)
  }

  /** A remembered key speaks for the triple at hand. */
  lemma ProvenMatches(w: World, id: string, hash: string, pw: string)
    requires NulFree(id) && NulFree(hash) && Proven(w, LoginKey(id, hash, pw))
    ensures w.verify(hash, pw) == Some(true)
  {
    var id', hash', pw' :| Proof(w, LoginKey(id, hash, pw), id', hash', pw');
    LoginKeyInjective(id, hash, pw, id', hash', pw');
  }

  /** The answer as the code reaches it: a remembered triple skips the throttle
      and the password check. */
  function Answer(w: World, es: Entries, db: Db, a: Attempt, now: int, allowed: bool): Outcome {
    if a.tenant.None? then Error
    else match RowOf(w, db, a)
      case None => if allowed then Failed else Throttled
      case Some((t, p, c)) =>
        if Fresh(es, LoginKey(c.id, c.hash, a.password), now) then Admit(db, t, p, c, a.want)
        else if !allowed then Throttled
        else match w.verify(c.hash, a.password)
          case None => Error
          case Some(false) => Failed
          case Some(true) => Admit(db, t, p, c, a.want)
  }

  /** A login from the cache ends as a full check would; without it only the
      throttle can change the answer. */
  lemma Transparent(w: World, es: Entries, db: Db, a: Attempt, now: int, allowed: bool)
    requires Clean(db) && Truthful(w, es)
    ensures Answer(w, es, db, a, now, allowed) ==
      if Cached(w, es, db, a, now) || allowed || a.tenant.None? then Verified(w, db, a) else Throttled
  {
    if Cached(w, es, db, a, now) {
      var (t, p, c) := RowOf(w, db, a).value;
      assert c == db.credentials[Slot(t, p, w.shortId(a.password))];
      assert Proven(w, LoginKey(c.id, c.hash, a.password));
      ProvenMatches(w, c.id, c.hash, a.password);
    }
  }

  /** The cache once a login is through. */
  function After(w: World, es: Entries, max: int, ttl: int, db: Db, a: Attempt, now: int, allowed: bool): Entries {
    match RowOf(w, db, a)
    case None => es
    case Some((t, p, c)) =>
      var key := LoginKey(c.id, c.hash, a.password);
      if !Fresh(es, key, now) && allowed && w.verify(c.hash, a.password) == Some(true)
        then Stored(Looked(es, key, now), max, ttl, key, now)
        else Looked(es, key, now)
  }

  /** A password check is made only when nothing fresh is remembered. */
  predicate Cached(w: World, es: Entries, db: Db, a: Attempt, now: int) {
    RowOf(w, db, a).Some? && var c := RowOf(w, db, a).value.2; Fresh(es, LoginKey(c.id, c.hash, a.password), now)
  }

  class Resolver {
    const cache: LoginCache

    constructor (ttl: int, max: int)
      ensures fresh(cache) && cache.entries == map[] && cache.ttl == ttl && cache.max == max
    {
      cache := new LoginCache(ttl, max);
    }

    /** One attempt; `allowed` is what the throttles say if they are asked. */
    method Login(w: World, db: Db, a: Attempt, now: int, allowed: bool) returns (r: Outcome, cached: bool)
      modifies cache
      ensures cached <==> Cached(w, old(cache.entries), db, a, now)
      ensures r == Answer(w, old(cache.entries), db, a, now, allowed)
      ensures cache.entries == After(w, old(cache.entries), cache.max, cache.ttl, db, a, now, allowed)
    {
      if a.tenant.None? { return Error, false; }
      var row := RowOf(w, db, a);
      if row.None? {
        return if allowed then Failed else Throttled, false;
      }
      var (t, p, c) := row.value;
      var key := LoginKey(c.id, c.hash, a.password);
      cached := cache.Hit(key, now);
      if !cached {
        if !allowed { return Throttled, false; }
        match w.verify(c.hash, a.password)
        case None => return Error, false;
        case Some(matched) =>
          if !matched { return Failed, false; }
          cache.Put(key, now);
      }
      var covers := Cover(c.scopes, a.want);
      if !covers { return OutOfScope, cached; }
      if !Active(db, t, p) { return Disabled, cached; }
      return OK(p, c.id), cached;
    }
  }
}
