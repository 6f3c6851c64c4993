/** Authentication: the uncached lookup, the cache in front of it, and any interleaving of the two with the tables. */
module VerifyCache {
  import opened Prelude

  /** SHA-256 of a secret with collisions ruled out. */
  datatype Lookup = LookupHash(of: string)

  /** An argon2id verifier string accepts one secret, or does not parse. */
  datatype Phc = Phc(accepts: string) | Malformed

  datatype Role = Read | Write

  datatype ApiKey = ApiKey(project: int, lookup: Lookup, keyHash: Phc, role: Role, revoked: bool)

  datatype AdminToken = AdminToken(lookup: Lookup, tokenHash: Phc, label_: Option<string>, revoked: bool)

  /** The names in `projects`, the `api_keys` and the `admin_tokens` tables. */
  datatype AuthTables = AuthTables(projects: map<int, string>, keys: map<int, ApiKey>, tokens: map<int, AdminToken>)

  /** `projects.name`, `api_keys.key_lookup` and `admin_tokens.token_lookup` are UNIQUE. */
  ghost predicate Unique(t: AuthTables) {
    && (forall i, j :: i in t.projects && j in t.projects && t.projects[i] == t.projects[j] ==> i == j)
    && (forall i, j :: i in t.keys && j in t.keys && t.keys[i].lookup == t.keys[j].lookup ==> i == j)
    && (forall i, j :: i in t.tokens && j in t.tokens && t.tokens[i].lookup == t.tokens[j].lookup ==> i == j)
  }

  type AuthDb = t: AuthTables | Unique(t) witness AuthTables(map[], map[], map[])

  datatype ProjectAuth = ProjectAuth(project: int, name: string, key: int, role: Role)

  datatype AdminAuth = AdminAuth(token: int, label_: Option<string>)

  function ProjectByName(d: AuthDb, name: string): (r: Option<int>)
    ensures r.Some? ==> r.value in d.projects && d.projects[r.value] == name
    ensures r.None? ==> forall id :: id in d.projects ==> d.projects[id] != name
  {
    if exists id :: id in d.projects && d.projects[id] == name then
      var id :| id in d.projects && d.projects[id] == name;
      Some(id)
    else None
  }

  predicate Active(k: ApiKey, project: int, lookup: Lookup) {
    k.project == project && k.lookup == lookup && !k.revoked
  }

  function ActiveKey(d: AuthDb, project: int, lookup: Lookup): (r: Option<int>)
    ensures r.Some? ==> r.value in d.keys && Active(d.keys[r.value], project, lookup)
    ensures r.None? ==> forall id :: id in d.keys ==> !Active(d.keys[id], project, lookup)
  {
    if exists id :: id in d.keys && Active(d.keys[id], project, lookup) then
      var id :| id in d.keys && Active(d.keys[id], project, lookup);
      Some(id)
    else None
  }

  function ActiveToken(d: AuthDb, lookup: Lookup): (r: Option<int>)
    ensures r.Some? ==> r.value in d.tokens && d.tokens[r.value].lookup == lookup && !d.tokens[r.value].revoked
    ensures r.None? ==> forall id :: id in d.tokens ==> d.tokens[id].lookup != lookup || d.tokens[id].revoked
  {
    if exists id :: id in d.tokens && d.tokens[id].lookup == lookup && !d.tokens[id].revoked then
      var id :| id in d.tokens && d.tokens[id].lookup == lookup && !d.tokens[id].revoked;
      Some(id)
    else None
  }

  /** The second read of a project lookup, with the outcome of the argon2 check on the row it returned. */
  function CheckKey(d: AuthDb, project: int, name: string, secret: string): Result<ProjectAuth> {
    match ActiveKey(d, project, LookupHash(secret))
    case None => Err(Unauthorized)
    case Some(id) =>
      match d.keys[id].keyHash
      case Malformed => Err(Crypto)
      case Phc(accepts) =>
        if accepts != secret then Err(Unauthorized) else Ok(ProjectAuth(project, name, id, d.keys[id].role))
  }

  /** The uncached lookup: the project is read from `d`, its key from `e`, possibly a later state of the tables. */
  function TwoReads(d: AuthDb, e: AuthDb, name: string, secret: string): Result<ProjectAuth> {
    match ProjectByName(d, name)
    case None => Err(Unauthorized)
    case Some(project) => CheckKey(e, project, name, secret)
  }

  /** A token is let in by exactly the rows that carry its digest and verifier and are not revoked, each as itself. */
  lemma AdminReadIff(d: AuthDb, token: string, id: int, label_: Option<string>)
    ensures AdminRead(d, token) == Ok(AdminAuth(id, label_))
            <==> id in d.tokens && d.tokens[id] == AdminToken(LookupHash(token), Phc(token), label_, false)
  {
    hide Unique;
    if id in d.tokens && d.tokens[id] == AdminToken(LookupHash(token), Phc(token), label_, false) {
      OnlyToken(d, token, id);
    }
  }

  lemma OnlyToken(d: AuthDb, token: string, id: int)
    requires id in d.tokens && d.tokens[id].lookup == LookupHash(token) && !d.tokens[id].revoked
    ensures ActiveToken(d, LookupHash(token)) == Some(id)
  {
  }

  /** Otherwise the error says whether an active row's verifier could not be read, or nothing matched. */
  lemma AdminErrorIff(d: AuthDb, token: string)
    ensures AdminRead(d, token) == Err(Crypto)
            <==> exists id :: id in d.tokens && d.tokens[id].lookup == LookupHash(token) && !d.tokens[id].revoked
                              && d.tokens[id].tokenHash == Malformed
    ensures AdminRead(d, token) == Err(Unauthorized)
            <==> forall id :: id in d.tokens && d.tokens[id].lookup == LookupHash(token) && !d.tokens[id].revoked ==>
                   d.tokens[id].tokenHash != Malformed && d.tokens[id].tokenHash != Phc(token)
    ensures AdminRead(d, token).Err? ==> AdminRead(d, token).error in {Crypto, Unauthorized}
  {
  }

  /** A secret is let in by exactly the rows of the project that carry its digest and verifier and are not revoked. */
  lemma CheckKeyIff(d: AuthDb, project: int, name: string, secret: string, key: int, role: Role)
    ensures CheckKey(d, project, name, secret) == Ok(ProjectAuth(project, name, key, role))
            <==> key in d.keys && d.keys[key] == ApiKey(project, LookupHash(secret), Phc(secret), role, false)
  {
    hide Unique;
    if key in d.keys && d.keys[key] == ApiKey(project, LookupHash(secret), Phc(secret), role, false) {
      OnlyKey(d, project, secret, key);
    }
  }

  lemma OnlyKey(d: AuthDb, project: int, secret: string, key: int)
    requires key in d.keys && d.keys[key].project == project && d.keys[key].lookup == LookupHash(secret)
    requires !d.keys[key].revoked
    ensures ActiveKey(d, project, LookupHash(secret)) == Some(key)
  {
  }

  lemma KeyErrorIff(d: AuthDb, project: int, name: string, secret: string)
    ensures CheckKey(d, project, name, secret) == Err(Crypto)
            <==> exists id :: id in d.keys && d.keys[id].project == project && d.keys[id].lookup == LookupHash(secret)
                              && !d.keys[id].revoked && d.keys[id].keyHash == Malformed
    ensures CheckKey(d, project, name, secret).Err? ==>
              CheckKey(d, project, name, secret).error in {Crypto, Unauthorized}
  {
    if id :| id in d.keys && d.keys[id].project == project && d.keys[id].lookup == LookupHash(secret)
             && !d.keys[id].revoked && d.keys[id].keyHash == Malformed {
      OnlyKey(d, project, secret, id);
    }
  }

  /** The two reads let in exactly the owner of an active key of the project the name led to. */
  lemma TwoReadsIff(d: AuthDb, e: AuthDb, name: string, secret: string, auth: ProjectAuth)
    ensures TwoReads(d, e, name, secret) == Ok(auth)
            <==> && auth.project in d.projects && d.projects[auth.project] == name && auth.name == name
                 && auth.key in e.keys
                 && e.keys[auth.key] == ApiKey(auth.project, LookupHash(secret), Phc(secret), auth.role, false)
  {
    hide Unique, CheckKey;
    if auth.project in d.projects && d.projects[auth.project] == name {
      OnlyProject(d, name, auth.project);
      CheckKeyIff(e, auth.project, name, secret, auth.key, auth.role);
    }
    if TwoReads(d, e, name, secret) == Ok(auth) {
      var project := ProjectByName(d, name).value;
      GrantNames(e, project, name, secret, auth);
      CheckKeyIff(e, project, name, secret, auth.key, auth.role);
    }
  }

  lemma OnlyProject(d: AuthDb, name: string, id: int)
    requires id in d.projects && d.projects[id] == name
    ensures ProjectByName(d, name) == Some(id)
  {
  }

  lemma GrantNames(d: AuthDb, project: int, name: string, secret: string, auth: ProjectAuth)
    requires CheckKey(d, project, name, secret) == Ok(auth)
    ensures auth.project == project && auth.name == name
  {
    hide Unique;
  }

  /** The uncached lookup when a read may fail: a failed read of the project is reported as Unauthorized. */
  function Uncached(d: AuthDb, e: AuthDb, nameFails: bool, keyFails: bool, name: string, secret: string)
    : Result<ProjectAuth>
  {
    if nameFails || ProjectByName(d, name).None? then Err(Unauthorized)
    else if keyFails then Err(Unavailable)
    else TwoReads(d, e, name, secret)
  }

  function AdminRead(d: AuthDb, token: string): Result<AdminAuth> {
    match ActiveToken(d, LookupHash(token))
    case None => Err(Unauthorized)
    case Some(id) =>
      match d.tokens[id].tokenHash
      case Malformed => Err(Crypto)
      case Phc(accepts) => if accepts != token then Err(Unauthorized) else Ok(AdminAuth(id, d.tokens[id].label_))
  }

  /** Scopes keep one project's cached result from satisfying another project's lookup. */
  datatype CacheId = CacheId(scope: string, lookup: Lookup)

  function IdOf(name: string, secret: string): CacheId {
    CacheId("proj:" + name, LookupHash(secret))
  }

  function AdminId(token: string): CacheId {
    CacheId("admin", LookupHash(token))
  }

  lemma IdsAreDistinct(n: string, k: string, m: string, l: string)
    ensures IdOf(n, k) == IdOf(m, l) <==> n == m && k == l
    ensures AdminId(k) == AdminId(l) <==> k == l
    ensures IdOf(n, k) != AdminId(l)
  {
    assert ("proj:" + n)[0] == 'p';
    assert ("proj:" + n)[5..] == n && ("proj:" + m)[5..] == m;
  }

  datatype Slot<V> = Slot(value: V, inserted: int)

  predicate Live<V>(s: Slot<V>, now: int, ttl: nat) {
    now < s.inserted + ttl
  }

  predicate HasLive<V>(slots: map<CacheId, Slot<V>>, ttl: nat, id: CacheId, now: int) {
    id in slots && Live(slots[id], now, ttl)
  }

  /** What a caller sees: the live cached value, or else the computed one. */
  function Seen<V>(slots: map<CacheId, Slot<V>>, ttl: nat, id: CacheId, now: int, computed: Result<V>): Result<V> {
    if HasLive(slots, ttl, id, now) then Ok(slots[id].value) else computed
  }

  /** The slots afterwards: a computed `Ok` fills its slot at `done`, and the capacity bound keeps only some slots. */
  function Filled<V>(slots: map<CacheId, Slot<V>>, ttl: nat, id: CacheId, now: int, computed: Result<V>, done: int,
                     keep: set<CacheId>): map<CacheId, Slot<V>> {
    if HasLive(slots, ttl, id, now) || computed.Err? then slots
    else
      var filled := slots[id := Slot(computed.value, done)];
      map x | x in filled && x in keep :: filled[x]
  }

  /**
   What storing promises to later requests: a failure leaves no trace; an `Ok` computed at `done` answers its own
   id, whatever would be computed then, until `done + ttl` and not after; and every other id sees what it saw
   before, unless its slot was pushed out.
   */
  lemma SeenAfterFilled<V>(slots: map<CacheId, Slot<V>>, ttl: nat, id: CacheId, now: int, computed: Result<V>,
                           done: int, keep: set<CacheId>, other: CacheId, later: int, recomputed: Result<V>)
    ensures var after := Filled(slots, ttl, id, now, computed, done, keep);
            && (computed.Err? ==> after == slots)
            && (!HasLive(slots, ttl, id, now) && computed.Ok? && id in keep ==>
                  Seen(after, ttl, id, later, recomputed) == if later < done + ttl then computed else recomputed)
            && (other != id ==>
                  || Seen(after, ttl, other, later, recomputed) == Seen(slots, ttl, other, later, recomputed)
                  || (other !in keep && Seen(after, ttl, other, later, recomputed) == recomputed))
  {
  }

  class Cache<V(==)> {
    var inner: map<CacheId, Slot<V>>
    const ttl: nat

    constructor (ttl: nat)
      ensures inner == map[] && this.ttl == ttl
    {
      inner := map[];
      this.ttl := ttl;
    }

    /**
     `get_or_insert`: `f` starts at `now` and ends at `done`. Only an `Ok` of `f` is stored. The capacity bound may
     push out any entries after an insert.
     */
    method GetOrInsert(id: CacheId, now: int, f: () -> Result<V>, done: int, keep: set<CacheId>) returns (r: Result<V>)
      modifies this`inner
      ensures r == Seen(old(inner), ttl, id, now, f())
      ensures inner == Filled(old(inner), ttl, id, now, f(), done, keep)
    {
      if HasLive(inner, ttl, id, now) {
        return Ok(inner[id].value);
      }
      var v := f();
      match v
      case Err(e) => return Err(e);
      case Ok(value) =>
        inner := inner[id := Slot(value, done)];
        inner := map x | x in inner && x in keep :: inner[x];
        return Ok(value);
    }
  }

  class AuthSvc {
    var db: AuthDb
    const projectCache: Cache<ProjectAuth>
    const adminCache: Cache<AdminAuth>

    constructor (db: AuthDb, ttl: nat)
      ensures this.db == db && projectCache.inner == map[] && adminCache.inner == map[]
      ensures projectCache.ttl == adminCache.ttl == ttl
      ensures fresh(projectCache) && fresh(adminCache)
    {
      this.db := db;
      projectCache := new Cache(ttl);
      adminCache := new Cache(ttl);
    }

    /**
     `authenticate_project`. The key is read from `later`, the tables as they are by then, and either read may fail.
     */
    method AuthenticateProject(name: string, secret: string, now: int, later: AuthDb, nameFails: bool, keyFails: bool,
                               done: int, keep: set<CacheId>)
      returns (r: Result<ProjectAuth>)
      modifies projectCache
      ensures var computed := Uncached(db, later, nameFails, keyFails, name, secret);
              && r == Seen(old(projectCache.inner), projectCache.ttl, IdOf(name, secret), now, computed)
              && projectCache.inner
                 == Filled(old(projectCache.inner), projectCache.ttl, IdOf(name, secret), now, computed, done, keep)
      ensures !HasLive(old(projectCache.inner), projectCache.ttl, IdOf(name, secret), now) ==>
                forall auth ::
                  r == Ok(auth)
                  <==> && !nameFails && !keyFails && auth.name == name
                       && auth.project in db.projects && db.projects[auth.project] == name && auth.key in later.keys
                       && later.keys[auth.key]
                          == ApiKey(auth.project, LookupHash(secret), Phc(secret), auth.role, false)
      ensures !HasLive(old(projectCache.inner), projectCache.ttl, IdOf(name, secret), now) ==>
                && (nameFails || (forall id :: id in db.projects ==> db.projects[id] != name) ==>
                      r == Err(Unauthorized))
                && (!nameFails && keyFails && (exists id :: id in db.projects && db.projects[id] == name) ==>
                      r == Err(Unavailable))
    {
      hide TwoReads, Unique;
      var d := db;
      forall auth ensures TwoReads(d, later, name, secret) == Ok(auth)
                          <==> && auth.project in d.projects && d.projects[auth.project] == name && auth.name == name
                               && auth.key in later.keys
                               && later.keys[auth.key]
                                  == ApiKey(auth.project, LookupHash(secret), Phc(secret), auth.role, false)
      {
        TwoReadsIff(d, later, name, secret, auth);
      }
      r := projectCache.GetOrInsert(
        IdOf(name, secret), now, () => Uncached(d, later, nameFails, keyFails, name, secret), done, keep);
    }

    /** `authenticate_admin`. */
    method AuthenticateAdmin(token: string, now: int, fails: bool, done: int, keep: set<CacheId>)
      returns (r: Result<AdminAuth>)
      modifies adminCache
      ensures var computed := if fails then Err(Unavailable) else AdminRead(db, token);
              && r == Seen(old(adminCache.inner), adminCache.ttl, AdminId(token), now, computed)
              && adminCache.inner
                 == Filled(old(adminCache.inner), adminCache.ttl, AdminId(token), now, computed, done, keep)
      ensures !HasLive(old(adminCache.inner), adminCache.ttl, AdminId(token), now) ==>
                forall id, label_ ::
                  r == Ok(AdminAuth(id, label_))
                  <==> !fails && id in db.tokens
                       && db.tokens[id] == AdminToken(LookupHash(token), Phc(token), label_, false)
    {
      hide AdminRead, Unique;
      var d := db;
      forall id, label_ ensures AdminRead(d, token) == Ok(AdminAuth(id, label_))
                                <==> id in d.tokens
                                     && d.tokens[id] == AdminToken(LookupHash(token), Phc(token), label_, false)
      {
        AdminReadIff(d, token, id, label_);
      }
      r := adminCache.GetOrInsert(
        AdminId(token), now, () => if fails then Err(Unavailable) else AdminRead(d, token), done, keep);
    }
  }
}
