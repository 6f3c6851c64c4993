/**
 Any number of authentications in flight over tables that change arbitrarily between their reads. The clock is
 monotone, and the caches may lose any entry at any moment.
 */
module AuthRuns {
  import opened Prelude
  import opened VerifyCache

  datatype Request = Project(name: string, secret: string) | Admin(token: string)

  datatype Grant = AsProject(project: ProjectAuth) | AsAdmin(admin: AdminAuth)

  /** An uncached lookup: missed the cache, has read the project, or has a verified result about to be inserted. */
  datatype Pending =
    | Missed(who: Request)
    | Found(who: Request, id: int)
    | Verified(who: Request, auth: Grant)

  /** `slots` holds the project cache and the admin cache, which share no id. */
  datatype Auth = Auth(db: AuthDb, now: int, slots: map<CacheId, Slot<Grant>>, pending: map<nat, Pending>)

  datatype Step =
    | Change(db: AuthDb)
    | Tick(dt: nat)
    | Begin(pid: nat, who: Request)
    | ReadProject(pid: nat, broken: bool)
    | ReadKey(pid: nat, broken: bool)
    | Insert(pid: nat)
    | Hit(who: Request)
    | Forget(id: CacheId)
    | Cancel(pid: nat)

  function SlotOf(who: Request): CacheId {
    match who
    case Project(name, secret) => IdOf(name, secret)
    case Admin(token) => AdminId(token)
  }

  lemma SlotsAreDistinct(a: Request, b: Request)
    ensures SlotOf(a) == SlotOf(b) <==> a == b
  {
    hide IdOf, AdminId;
    var n := if a.Project? then a.name else "";
    var m := if b.Project? then b.name else "";
    var k := if a.Project? then a.secret else a.token;
    var l := if b.Project? then b.secret else b.token;
    IdsAreDistinct(n, k, m, l);
    IdsAreDistinct(m, l, n, k);
  }

  function AsProjectResult(r: Result<ProjectAuth>): Result<Grant> {
    match r case Ok(a) => Ok(AsProject(a)) case Err(e) => Err(e)
  }

  function AsAdminResult(r: Result<AdminAuth>): Result<Grant> {
    match r case Ok(a) => Ok(AsAdmin(a)) case Err(e) => Err(e)
  }

  /** The read that decides: of the key of the project found, or of the admin token. */
  function LastRead(d: AuthDb, p: Pending): Result<Grant>
    requires Ready(p)
  {
    match p.who
    case Project(name, secret) => AsProjectResult(CheckKey(d, p.id, name, secret))
    case Admin(token) => AsAdminResult(AdminRead(d, token))
  }

  /** A project request has read its project; an admin request has nothing to read before its token. */
  predicate Ready(p: Pending) {
    (p.Found? && p.who.Project?) || (p.Missed? && p.who.Admin?)
  }

  /** What a lookup of `who` returns whose reads see `d` and then `e`. */
  function Looked(d: AuthDb, e: AuthDb, who: Request): Result<Grant> {
    match who
    case Project(name, secret) => AsProjectResult(TwoReads(d, e, name, secret))
    case Admin(token) => AsAdminResult(AdminRead(e, token))
  }

  predicate Cached(s: Auth, who: Request, ttl: nat) {
    HasLive(s.slots, ttl, SlotOf(who), s.now)
  }

  predicate Enabled(s: Auth, step: Step, ttl: nat) {
    match step
    case Begin(pid, who) => pid !in s.pending && !Cached(s, who, ttl)
    case ReadProject(pid, _) => pid in s.pending && s.pending[pid].Missed? && s.pending[pid].who.Project?
    case ReadKey(pid, _) => pid in s.pending && Ready(s.pending[pid])
    case Insert(pid) => pid in s.pending && s.pending[pid].Verified?
    case Hit(who) => Cached(s, who, ttl)
    case _ => true
  }

  /** What a step replies to a client, if it completes a request. A failed project read is reported as Unauthorized. */
  function Reply(s: Auth, step: Step, ttl: nat): Option<(Request, Result<Grant>)>
    requires Enabled(s, step, ttl)
  {
    match step
    case Hit(who) => Some((who, Ok(s.slots[SlotOf(who)].value)))
    case ReadProject(pid, broken) =>
      if broken || ProjectByName(s.db, s.pending[pid].who.name).None? then Some((s.pending[pid].who, Err(Unauthorized)))
      else None
    case ReadKey(pid, broken) =>
      var p := s.pending[pid];
      if broken then Some((p.who, Err(Unavailable)))
      else if LastRead(s.db, p).Err? then Some((p.who, LastRead(s.db, p)))
      else None
    case Insert(pid) => Some((s.pending[pid].who, Ok(s.pending[pid].auth)))
    case _ => None
  }

  function Apply(s: Auth, step: Step, ttl: nat): Auth
    requires Enabled(s, step, ttl)
  {
    match step
    case Change(db) => s.(db := db)
    case Tick(dt) => s.(now := s.now + dt)
    case Begin(pid, who) => s.(pending := s.pending[pid := Missed(who)])
    case ReadProject(pid, broken) =>
      var p := s.pending[pid];
      var found := ProjectByName(s.db, p.who.name);
      if broken || found.None? then s.(pending := s.pending - {pid})
      else s.(pending := s.pending[pid := Found(p.who, found.value)])
    case ReadKey(pid, broken) =>
      var p := s.pending[pid];
      var r := LastRead(s.db, p);
      if broken || r.Err? then s.(pending := s.pending - {pid})
      else s.(pending := s.pending[pid := Verified(p.who, r.value)])
    case Insert(pid) =>
      var p := s.pending[pid];
      s.(slots := s.slots[SlotOf(p.who) := Slot(p.auth, s.now)], pending := s.pending - {pid})
    case Hit(_) => s
    case Forget(id) => s.(slots := s.slots - {id})
    case Cancel(pid) => s.(pending := s.pending - {pid})
  }

  /** Around the requests the tables become any others, time passes, a slot is lost, a client goes away. */
  lemma EnvironmentDoes(s: Auth, db: AuthDb, dt: nat, id: CacheId, pid: nat, ttl: nat)
    ensures Apply(s, Change(db), ttl).db == db && Apply(s, Change(db), ttl).(db := s.db) == s
    ensures Apply(s, Tick(dt), ttl).now == s.now + dt && Apply(s, Tick(dt), ttl).(now := s.now) == s
    ensures Apply(s, Forget(id), ttl) == s.(slots := s.slots - {id})
    ensures Apply(s, Cancel(pid), ttl) == s.(pending := s.pending - {pid})
  {
  }

  ghost predicate IsRun(states: seq<Auth>, steps: seq<Step>, ttl: nat) {
    && |states| == |steps| + 1
    && forall i :: 0 <= i < |steps| ==>
         Enabled(states[i], steps[i], ttl) && states[i + 1] == Apply(states[i], steps[i], ttl)
  }

  ghost predicate Fresh(s: Auth) {
    s.slots == map[] && s.pending == map[]
  }

  // ----- one request alone -----

  /** The step, with its reply if it completes the request. */
  function Take(s: Auth, step: Step, ttl: nat): (Auth, Option<Result<Grant>>)
    requires Enabled(s, step, ttl)
  {
    var reply := Reply(s, step, ttl);
    (Apply(s, step, ttl), if reply.Some? then Some(reply.value.1) else None)
  }

  /** A pending request that is ready finishes: its last read, and the insert if that succeeds. */
  function Finish(s: Auth, pid: nat, keyFails: bool, ttl: nat): (Auth, Result<Grant>)
    requires pid in s.pending && Ready(s.pending[pid])
  {
    var (u, r) := Take(s, ReadKey(pid, keyFails), ttl);
    if r.Some? then (u, r.value)
    else
      var (v, last) := Take(u, Insert(pid), ttl);
      (v, last.value)
  }

  /** The steps of one request with nothing in between, and its reply. */
  function RunAlone(s: Auth, pid: nat, who: Request, nameFails: bool, keyFails: bool, ttl: nat): (Auth, Result<Grant>)
    requires pid !in s.pending
  {
    if Cached(s, who, ttl) then (s, Reply(s, Hit(who), ttl).value.1)
    else
      var u := Apply(s, Begin(pid, who), ttl);
      match who
      case Admin(_) => Finish(u, pid, keyFails, ttl)
      case Project(_, _) =>
        var (v, r) := Take(u, ReadProject(pid, nameFails), ttl);
        if r.Some? then (v, r.value) else Finish(v, pid, keyFails, ttl)
  }

  /** What the methods of `AuthSvc` compute when they have to. */
  function Computed(d: AuthDb, who: Request, nameFails: bool, keyFails: bool): Result<Grant> {
    match who
    case Project(name, secret) => AsProjectResult(Uncached(d, d, nameFails, keyFails, name, secret))
    case Admin(token) => if keyFails then Err(Unavailable) else AsAdminResult(AdminRead(d, token))
  }

  /** Run alone, the steps of any request reply and leave the cache as the methods of `AuthSvc` do, in every case. */
  lemma AloneIsAuthenticate(s: Auth, pid: nat, who: Request, nameFails: bool, keyFails: bool, ttl: nat)
    requires pid !in s.pending
    ensures var (u, r) := RunAlone(s, pid, who, nameFails, keyFails, ttl);
            var computed := Computed(s.db, who, nameFails, keyFails);
            && r == Seen(s.slots, ttl, SlotOf(who), s.now, computed)
            && u.slots == Filled(s.slots, ttl, SlotOf(who), s.now, computed, s.now, s.slots.Keys + {SlotOf(who)})
            && u.pending == s.pending && u.db == s.db && u.now == s.now
  {
    hide ProjectByName, CheckKey, AdminRead, SlotOf, Finish, LastRead, Filled;
    var computed := Computed(s.db, who, nameFails, keyFails);
    FilledKeepsAll(s.slots, ttl, SlotOf(who), s.now, computed);
    if !Cached(s, who, ttl) {
      var u := Apply(s, Begin(pid, who), ttl);
      assert u.pending - {pid} == s.pending;
      if who.Admin? {
        FinishAlone(u, pid, keyFails, ttl);
        LastReadOfToken(s.db, Missed(who));
      } else if !nameFails && ProjectByName(s.db, who.name).Some? {
        var v := Apply(u, ReadProject(pid, false), ttl);
        assert v.pending - {pid} == s.pending;
        FinishAlone(v, pid, keyFails, ttl);
        LastReadOfKey(s.db, Found(who, ProjectByName(s.db, who.name).value));
      }
    }
  }

  lemma LastReadOfToken(d: AuthDb, p: Pending)
    requires Ready(p) && p.who.Admin?
    ensures LastRead(d, p) == AsAdminResult(AdminRead(d, p.who.token))
  {
  }

  lemma LastReadOfKey(d: AuthDb, p: Pending)
    requires p.Found? && Ready(p) && ProjectByName(d, p.who.name) == Some(p.id)
    ensures LastRead(d, p) == AsProjectResult(TwoReads(d, d, p.who.name, p.who.secret))
  {
  }

  lemma FinishAlone(s: Auth, pid: nat, keyFails: bool, ttl: nat)
    requires pid in s.pending && Ready(s.pending[pid])
    ensures var (u, r) := Finish(s, pid, keyFails, ttl);
            var who := s.pending[pid].who;
            && r == (if keyFails then Err(Unavailable) else LastRead(s.db, s.pending[pid]))
            && u.slots == (if r.Ok? then s.slots[SlotOf(who) := Slot(r.value, s.now)] else s.slots)
            && u.pending == s.pending - {pid} && u.db == s.db && u.now == s.now
  {
    hide SlotOf, LastRead;
    var r := LastRead(s.db, s.pending[pid]);
    if !keyFails && r.Ok? {
      assert s.pending[pid := Verified(s.pending[pid].who, r.value)] - {pid} == s.pending - {pid};
    }
  }

  lemma FilledKeepsAll(slots: map<CacheId, Slot<Grant>>, ttl: nat, id: CacheId, now: int, computed: Result<Grant>)
    ensures Filled(slots, ttl, id, now, computed, now, slots.Keys + {id})
            == if HasLive(slots, ttl, id, now) || computed.Err? then slots else slots[id := Slot(computed.value, now)]
  {
    if computed.Ok? {
      var filled := slots[id := Slot(computed.value, now)];
      assert (map x | x in filled && x in slots.Keys + {id} :: filled[x]) == filled;
    }
  }

  // ----- where a cached answer comes from -----

  /** The lookup's reads saw what the tables held at states `i` and `j`. */
  ghost predicate ReadAt(states: seq<Auth>, who: Request, auth: Grant, i: nat, j: nat) {
    i <= j < |states| && Looked(states[i].db, states[j].db, who) == Ok(auth)
  }

  ghost predicate Backed(states: seq<Auth>, p: Pending, n: nat) {
    match p
    case Missed(_) => true
    case Found(who, project) =>
      who.Project? && exists i :: 0 <= i < n < |states| && ProjectByName(states[i].db, who.name) == Some(project)
    case Verified(who, auth) => exists i: nat, j: nat :: ReadAt(states, who, auth, i, j) && j < n
  }

  lemma {:induction false} PendingOrigin(states: seq<Auth>, steps: seq<Step>, ttl: nat, n: nat, pid: nat)
    requires IsRun(states, steps, ttl) && Fresh(states[0]) && n < |states| && pid in states[n].pending
    ensures Backed(states, states[n].pending[pid], n)
    decreases n
  {
    hide Apply, Backed, Moves, Enabled;
    if n > 0 {
      var s := states[n - 1];
      PendingStep(s, steps[n - 1], ttl, pid);
      if pid in s.pending {
        PendingOrigin(states, steps, ttl, n - 1, pid);
        BackedStep(states, s.pending[pid], states[n].pending[pid], n - 1);
      } else {
        MissedIsBacked(states, states[n].pending[pid], n);
      }
    }
  }

  /** One read moves a pending lookup on. */
  predicate Moves(d: AuthDb, p: Pending, q: Pending) {
    || p == q
    || (p.Missed? && q.Found? && q.who == p.who && p.who.Project? && ProjectByName(d, q.who.name) == Some(q.id))
    || (Ready(p) && q.Verified? && q.who == p.who && LastRead(d, p) == Ok(q.auth))
  }

  lemma PendingStep(s: Auth, step: Step, ttl: nat, pid: nat)
    requires Enabled(s, step, ttl) && pid in Apply(s, step, ttl).pending
    ensures var q := Apply(s, step, ttl).pending[pid];
            if pid in s.pending then Moves(s.db, s.pending[pid], q) else q.Missed?
  {
    hide SlotOf, LastRead, ProjectByName;
  }

  lemma MissedIsBacked(states: seq<Auth>, p: Pending, n: nat)
    requires p.Missed?
    ensures Backed(states, p, n)
  {
  }

  lemma BackedStep(states: seq<Auth>, p: Pending, q: Pending, n: nat)
    requires n + 1 < |states| && Backed(states, p, n) && Moves(states[n].db, p, q)
    ensures Backed(states, q, n + 1)
  {
    hide ReadAt, LastRead, ProjectByName;
    if p == q {
      BackedLater(states, p, n);
    } else if Ready(p) && q.Verified? {
      if p.Found? {
        var i: nat :| i < n && ProjectByName(states[i].db, p.who.name) == Some(p.id);
        ReadsMeet(states, p, q.auth, i, n);
      } else {
        TokenIsRead(states, p, q.auth, n);
      }
    }
  }

  lemma ReadsMeet(states: seq<Auth>, p: Pending, auth: Grant, i: nat, j: nat)
    requires i < j < |states| && p.Found? && Ready(p) && ProjectByName(states[i].db, p.who.name) == Some(p.id)
    requires LastRead(states[j].db, p) == Ok(auth)
    ensures ReadAt(states, p.who, auth, i, j)
  {
    hide CheckKey, ProjectByName;
  }

  lemma TokenIsRead(states: seq<Auth>, p: Pending, auth: Grant, j: nat)
    requires j < |states| && p.Missed? && Ready(p) && LastRead(states[j].db, p) == Ok(auth)
    ensures ReadAt(states, p.who, auth, j, j)
  {
    hide AdminRead;
  }

  lemma BackedLater(states: seq<Auth>, p: Pending, n: nat)
    requires Backed(states, p, n) && n + 1 < |states|
    ensures Backed(states, p, n + 1)
  {
    hide ReadAt, ProjectByName;
    if p.Verified? {
      var i: nat, j: nat :| ReadAt(states, p.who, p.auth, i, j) && j < n;
      assert ReadAt(states, p.who, p.auth, i, j) && j < n + 1;
    }
  }

  /** The answer was read at `i` and `j` and inserted by this very lookup at `k`. */
  ghost predicate Origin(states: seq<Auth>, steps: seq<Step>, who: Request, auth: Grant, i: nat, j: nat, k: nat) {
    && j < k < |steps| < |states| && ReadAt(states, who, auth, i, j)
    && steps[k].Insert? && steps[k].pid in states[k].pending
    && states[k].pending[steps[k].pid] == Verified(who, auth)
  }

  ghost predicate SlotBacked(states: seq<Auth>, steps: seq<Step>, who: Request, slot: Slot<Grant>, n: nat) {
    exists i: nat, j: nat, k: nat :: Origin(states, steps, who, slot.value, i, j, k) && k < n
        && states[k].now == slot.inserted
  }

  /** A slot after a step was there before it, or is the one the step inserted. */
  lemma SlotStep(s: Auth, step: Step, ttl: nat, id: CacheId)
    requires Enabled(s, step, ttl) && id in Apply(s, step, ttl).slots
    ensures var slot := Apply(s, step, ttl).slots[id];
            || (id in s.slots && s.slots[id] == slot)
            || (step.Insert? && SlotOf(s.pending[step.pid].who) == id && slot == Slot(s.pending[step.pid].auth, s.now))
  {
    hide SlotOf, LastRead, ProjectByName;
  }

  /** The slot under a request's id was filled by a lookup of that very request. */
  lemma {:induction false} SlotOrigin(states: seq<Auth>, steps: seq<Step>, ttl: nat, n: nat, who: Request)
    requires IsRun(states, steps, ttl) && Fresh(states[0]) && n < |states|
    requires SlotOf(who) in states[n].slots
    ensures SlotBacked(states, steps, who, states[n].slots[SlotOf(who)], n)
    decreases n
  {
    hide SlotOf, ReadAt, Apply;
    var id := SlotOf(who);
    if n > 0 {
      var s, step := states[n - 1], steps[n - 1];
      var slot := states[n].slots[id];
      SlotStep(s, step, ttl, id);
      if id in s.slots && s.slots[id] == slot {
        SlotOrigin(states, steps, ttl, n - 1, who);
      } else {
        SlotsAreDistinct(who, s.pending[step.pid].who);
        PendingOrigin(states, steps, ttl, n - 1, step.pid);
        var i: nat, j: nat :| ReadAt(states, who, slot.value, i, j) && j < n - 1;
        assert Origin(states, steps, who, slot.value, i, j, n - 1);
      }
    }
  }

  lemma OkIsHitOrInsert(s: Auth, step: Step, ttl: nat)
    requires Enabled(s, step, ttl) && Reply(s, step, ttl).Some? && Reply(s, step, ttl).value.1.Ok?
    ensures step.Hit? || step.Insert?
  {
  }

  /**
   Bounded staleness: under any evictions, revocations, renames and re-creations, every `Ok`, to a project or an
   admin, is what the uncached lookup of the same credentials read earlier in the run, inserted less than `ttl`
   before the answer.
   */
  lemma EveryOkWasLookedUp(states: seq<Auth>, steps: seq<Step>, ttl: nat, n: nat, who: Request, auth: Grant)
    requires IsRun(states, steps, ttl) && Fresh(states[0]) && n < |steps|
    requires Enabled(states[n], steps[n], ttl) && Reply(states[n], steps[n], ttl) == Some((who, Ok(auth)))
    ensures exists i: nat, j: nat, k: nat :: Origin(states, steps, who, auth, i, j, k) && k <= n
                              && (k == n || states[n].now < states[k].now + ttl)
  {
    hide SlotOf, ReadAt, Apply;
    OkIsHitOrInsert(states[n], steps[n], ttl);
    if steps[n].Insert? {
      PendingOrigin(states, steps, ttl, n, steps[n].pid);
      var i: nat, j: nat :| ReadAt(states, who, auth, i, j) && j < n;
      assert Origin(states, steps, who, auth, i, j, n);
    } else {
      SlotOrigin(states, steps, ttl, n, who);
      var slot := states[n].slots[SlotOf(who)];
      var i: nat, j: nat, k: nat :| Origin(states, steps, who, slot.value, i, j, k) && k < n
          && states[k].now == slot.inserted;
      assert Origin(states, steps, who, auth, i, j, k);
    }
  }

  // ----- failures -----

  /** The step belongs to the request pending under `pid`. */
  predicate Of(step: Step, pid: nat) {
    match step
    case Begin(p, _) => p == pid
    case ReadProject(p, _) => p == pid
    case ReadKey(p, _) => p == pid
    case Insert(p) => p == pid
    case Cancel(p) => p == pid
    case _ => false
  }

  lemma {:induction false} StaysAway(states: seq<Auth>, steps: seq<Step>, ttl: nat, pid: nat, m: nat, n: nat)
    requires IsRun(states, steps, ttl) && m <= n < |states| && pid !in states[m].pending
    requires forall i :: m <= i < n ==> !(steps[i].Begin? && steps[i].pid == pid)
    ensures pid !in states[n].pending
    decreases n
  {
    hide Apply, Enabled, Moves;
    if m < n {
      StaysAway(states, steps, ttl, pid, m, n - 1);
      ComesByBegin(states[n - 1], steps[n - 1], ttl, pid);
    }
  }

  lemma ComesByBegin(s: Auth, step: Step, ttl: nat, pid: nat)
    requires Enabled(s, step, ttl) && pid !in s.pending && !(step.Begin? && step.pid == pid)
    ensures pid !in Apply(s, step, ttl).pending
  {
  }

  lemma OnlyInsertFills(s: Auth, step: Step, ttl: nat, pid: nat)
    requires Enabled(s, step, ttl) && Of(step, pid) && !step.Insert?
    ensures Apply(s, step, ttl).slots == s.slots
  {
  }

  lemma InsertLeaves(s: Auth, pid: nat, ttl: nat)
    requires Enabled(s, Insert(pid), ttl)
    ensures pid !in Apply(s, Insert(pid), ttl).pending
  {
  }

  /** Errors are never cached: none of the steps of a request that ends in an error changes the cache. */
  lemma ErrorsAreNotCached(states: seq<Auth>, steps: seq<Step>, ttl: nat, pid: nat, m: nat, n: nat, i: nat)
    requires IsRun(states, steps, ttl) && m <= i <= n < |steps| && Of(steps[i], pid)
    requires forall j :: m < j < n ==> !(steps[j].Begin? && steps[j].pid == pid)
    requires Enabled(states[m], steps[m], ttl) && steps[m].Begin? && steps[m].pid == pid
    requires Enabled(states[n], steps[n], ttl) && Of(steps[n], pid)
    requires Reply(states[n], steps[n], ttl).Some? && Reply(states[n], steps[n], ttl).value.1.Err?
    ensures states[i + 1].slots == states[i].slots
  {
    hide Apply;
    assert states[i + 1] == Apply(states[i], steps[i], ttl);
    if steps[i] == Insert(pid) {
      InsertLeaves(states[i], pid, ttl);
      StaysAway(states, steps, ttl, pid, i + 1, n);
    } else {
      OnlyInsertFills(states[i], steps[i], ttl, pid);
    }
  }

  // ----- the two reads are not one -----

  /**
   A torn lookup returns what one atomic lookup at its second read would if and only if the name still leads to the
   project.
   */
  lemma TornLookupIff(d: AuthDb, e: AuthDb, name: string, secret: string)
    requires TwoReads(d, e, name, secret).Ok?
    ensures TwoReads(e, e, name, secret) == TwoReads(d, e, name, secret)
            <==> ProjectByName(e, name) == ProjectByName(d, name)
    ensures TwoReads(e, e, name, secret).Ok? <==> ProjectByName(e, name) == ProjectByName(d, name)
  {
    hide ProjectByName, Unique;
    var p := ProjectByName(d, name).value;
    var id := ActiveKey(e, p, LookupHash(secret)).value;
    if ProjectByName(e, name).Some? && ProjectByName(e, name).value != p {
      OneProjectPerKey(e, p, ProjectByName(e, name).value, LookupHash(secret));
    }
  }

  lemma OneProjectPerKey(d: AuthDb, p: int, q: int, lookup: Lookup)
    requires ActiveKey(d, p, lookup).Some? && p != q
    ensures ActiveKey(d, q, lookup).None?
  {
  }

  /** The project's key for this secret was not there yet, or was not active, or had another verifier. */
  ghost predicate NoKeyYet(d: AuthDb, project: int, secret: string) {
    forall id :: id in d.keys && Active(d.keys[id], project, LookupHash(secret)) ==> d.keys[id].keyHash != Phc(secret)
  }

  /**
   A request is let in that neither state would let in if and only if, between the reads, its name was taken away
   from the project and the project was given the key.
   */
  lemma TornLookupAloneIff(d: AuthDb, e: AuthDb, name: string, secret: string)
    requires TwoReads(d, e, name, secret).Ok?
    ensures TwoReads(d, d, name, secret).Err? && TwoReads(e, e, name, secret).Err?
            <==> ProjectByName(e, name) != ProjectByName(d, name) && NoKeyYet(d, ProjectByName(d, name).value, secret)
  {
    hide ProjectByName, Unique;
    TornLookupIff(d, e, name, secret);
    KeyIsFoundIff(d, ProjectByName(d, name).value, name, secret);
  }

  lemma KeyIsFoundIff(d: AuthDb, project: int, name: string, secret: string)
    ensures CheckKey(d, project, name, secret).Ok? <==> !NoKeyYet(d, project, secret)
  {
    if !NoKeyYet(d, project, secret) {
      var id :| id in d.keys && Active(d.keys[id], project, LookupHash(secret)) && d.keys[id].keyHash == Phc(secret);
      KeyIsFound(d, project, secret, id);
    }
  }

  function BeforeRename(): AuthDb {
    AuthTables(map[1 := "a"], map[], map[])
  }

  function AfterRename(): AuthDb {
    AuthTables(map[1 := "b"], map[7 := ApiKey(1, LookupHash("s"), Phc("s"), Read, false)], map[])
  }

  /** A rename and a new key between the reads: the request is accepted although no single state of the tables would. */
  lemma TornLookupMatchesNoState()
    ensures TwoReads(BeforeRename(), AfterRename(), "a", "s") == Ok(ProjectAuth(1, "a", 7, Read))
    ensures TwoReads(BeforeRename(), BeforeRename(), "a", "s") == Err(Unauthorized)
    ensures TwoReads(AfterRename(), AfterRename(), "a", "s") == Err(Unauthorized)
  {
    hide ProjectByName, ActiveKey, Unique;
    var d, e := BeforeRename(), AfterRename();
    NameLeadsTo(d, "a", 1);
    KeyIsFound(e, 1, "s", 7);
    assert ProjectByName(e, "a") == None;
    assert ActiveKey(d, 1, LookupHash("s")) == None;
  }

  lemma NameLeadsTo(d: AuthDb, name: string, id: int)
    requires id in d.projects && d.projects[id] == name
    ensures ProjectByName(d, name) == Some(id)
  {
  }

  lemma KeyIsFound(d: AuthDb, project: int, secret: string, id: int)
    requires id in d.keys && Active(d.keys[id], project, LookupHash(secret))
    ensures ActiveKey(d, project, LookupHash(secret)) == Some(id)
  {
  }

  // ----- revocation lag -----

  /** No active key, or admin token, has this secret's lookup digest. */
  ghost predicate Revoked(d: AuthDb, who: Request) {
    match who
    case Project(_, secret) =>
      forall id :: id in d.keys && d.keys[id].lookup == LookupHash(secret) ==> d.keys[id].revoked
    case Admin(token) =>
      forall id :: id in d.tokens && d.tokens[id].lookup == LookupHash(token) ==> d.tokens[id].revoked
  }

  lemma RevokedIsRefused(d: AuthDb, p: Pending)
    requires Ready(p) && Revoked(d, p.who)
    ensures LastRead(d, p).Err?
  {
  }

  /** No lookup of the request stands between its last read and its insert. */
  ghost predicate NoneInFlight(s: Auth, who: Request) {
    forall pid :: pid in s.pending && s.pending[pid].Verified? ==> s.pending[pid].who != who
  }

  /** Every answer the request can still get comes from a slot inserted by time `since`. */
  ghost predicate OnlyOld(s: Auth, who: Request, since: int) {
    && NoneInFlight(s, who)
    && (SlotOf(who) in s.slots ==> s.slots[SlotOf(who)].inserted <= since)
  }

  lemma StepKeepsOnlyOld(s: Auth, step: Step, ttl: nat, who: Request, since: int)
    requires Enabled(s, step, ttl) && OnlyOld(s, who, since) && Revoked(s.db, who)
    ensures OnlyOld(Apply(s, step, ttl), who, since)
  {
    hide SlotOf, LastRead, ProjectByName, Revoked;
    if step.Insert? {
      SlotsAreDistinct(who, s.pending[step.pid].who);
    }
    if step.ReadKey? && s.pending[step.pid].who == who {
      RevokedIsRefused(s.db, s.pending[step.pid]);
    }
  }

  lemma {:induction false} RunKeepsOnlyOld(states: seq<Auth>, steps: seq<Step>, ttl: nat, n: nat, who: Request,
      since: int)
    requires IsRun(states, steps, ttl) && n < |states| && OnlyOld(states[0], who, since)
    requires forall i :: 0 <= i < |states| ==> Revoked(states[i].db, who)
    ensures OnlyOld(states[n], who, since)
  {
    hide Apply, Enabled, OnlyOld, Revoked;
    if n > 0 {
      RunKeepsOnlyOld(states, steps, ttl, n - 1, who, since);
      StepKeepsOnlyOld(states[n - 1], steps[n - 1], ttl, who, since);
    }
  }

  lemma NoLateReply(s: Auth, step: Step, ttl: nat, who: Request, since: int)
    requires Enabled(s, step, ttl) && OnlyOld(s, who, since) && s.now >= since + ttl
    ensures !(Reply(s, step, ttl).Some? && Reply(s, step, ttl).value.0 == who && Reply(s, step, ttl).value.1.Ok?)
  {
    hide SlotOf, LastRead, ProjectByName;
  }

  /** A run from `s` in which the key stays revoked answers `Ok` at step `n`, `ttl` or more after it began. */
  ghost predicate LateOk(states: seq<Auth>, steps: seq<Step>, ttl: nat, s: Auth, who: Request, n: nat) {
    && IsRun(states, steps, ttl) && n < |steps| && states[0] == s
    && (forall i :: 0 <= i < |states| ==> Revoked(states[i].db, who))
    && Reply(states[n], steps[n], ttl).Some?
    && Reply(states[n], steps[n], ttl).value.0 == who && Reply(states[n], steps[n], ttl).value.1.Ok?
    && states[n].now >= states[0].now + ttl
  }

  ghost predicate PastInserts(s: Auth) {
    forall id :: id in s.slots ==> s.slots[id].inserted <= s.now
  }

  lemma {:induction false} InsertsAreInThePast(states: seq<Auth>, steps: seq<Step>, ttl: nat, n: nat)
    requires IsRun(states, steps, ttl) && PastInserts(states[0]) && n < |states|
    ensures PastInserts(states[n])
  {
    hide SlotOf, LastRead, ProjectByName;
    if n > 0 {
      InsertsAreInThePast(states, steps, ttl, n - 1);
    }
  }

  /**
   At any point of any run at which the credentials of a request are revoked, revocation takes effect within `ttl`,
   whatever happens afterwards, if and only if no lookup of the request is then between its last read and its
   insert. Otherwise the delay has no bound.
   */
  lemma RevocationLagBoundedIff(past: seq<Auth>, pastSteps: seq<Step>, ttl: nat, m: nat, who: Request)
    requires IsRun(past, pastSteps, ttl) && Fresh(past[0]) && m < |past| && Revoked(past[m].db, who)
    ensures NoneInFlight(past[m], who)
            <==> forall states: seq<Auth>, steps: seq<Step>, n: nat :: !LateOk(states, steps, ttl, past[m], who, n)
  {
    hide Apply, Enabled, Revoked, OnlyOld, Reply, SlotOf;
    var s := past[m];
    InsertsAreInThePast(past, pastSteps, ttl, m);
    if NoneInFlight(s, who) {
      StartsOld(s, who);
      forall states: seq<Auth>, steps: seq<Step>, n: nat ensures !LateOk(states, steps, ttl, s, who, n) {
        if LateOk(states, steps, ttl, s, who, n) {
          RunKeepsOnlyOld(states, steps, ttl, n, who, s.now);
          NoLateReply(states[n], steps[n], ttl, who, s.now);
          assert false;
        }
      }
    } else {
      var pid :| pid in s.pending && s.pending[pid].Verified? && s.pending[pid].who == who;
      LateInsert(s, who, ttl, pid, ttl);
    }
  }

  lemma StartsOld(s: Auth, who: Request)
    requires PastInserts(s) && NoneInFlight(s, who)
    ensures OnlyOld(s, who, s.now)
  {
  }

  /** A lookup in flight may be answered after any delay at all. */
  lemma LateInsert(s: Auth, who: Request, ttl: nat, pid: nat, delay: nat)
    requires Revoked(s.db, who) && pid in s.pending && s.pending[pid].Verified? && s.pending[pid].who == who
    requires delay >= ttl
    ensures exists states: seq<Auth> ::
              LateOk(states, [Tick(delay), Insert(pid)], ttl, s, who, 1) && states[1].now == s.now + delay
  {
    hide SlotOf, Revoked;
    var t := Apply(s, Tick(delay), ttl);
    var states := [s, t, Apply(t, Insert(pid), ttl)];
    var steps := [Tick(delay), Insert(pid)];
    forall i | 0 <= i < |steps| ensures Enabled(states[i], steps[i], ttl)
        && states[i + 1] == Apply(states[i], steps[i], ttl) {
    }
    assert LateOk(states, steps, ttl, s, who, 1);
  }
}
