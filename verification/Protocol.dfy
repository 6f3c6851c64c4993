/**
 The whole server as interleaved atomic steps: uploads placed and committed separately, admin calls, reads, and
 one garbage collector that fetches candidate lists and then works through them one transaction at a time.
 */
module Protocol {
  import opened Prelude
  import opened Tables
  import opened Storage
  import opened Ordering

  /** `write_streamed` has looked for the blob and seen whether it is there, or has returned. */
  datatype Stage = Checked(found: bool) | Placed

  /** An upload past its existence check whose entry is not committed yet. */
  datatype Put = Put(key: CacheKey, body: Bytes, stage: Stage)

  /** A GET that has found an entry with this hash and has not opened the file yet. */
  datatype Reading = Reading(key: CacheKey, hash: Hash)

  /** Where the holder of the `running` mutex stands. */
  datatype Collector =
    | Idle
    | Evicting(todo: seq<int>, fetched: map<int, Entry>)
    | Cleaning(batch: set<Hash>)
    | Walked(onDisk: set<Hash>)
    | Scanning(onDisk: set<Hash>, inDb: set<Hash>)

  datatype Sys = Sys(db: Db, files: map<Hash, Bytes>, puts: map<nat, Put>, gets: map<nat, Reading>, gc: Collector)

  datatype Step =
    | Check(pid: nat, key: CacheKey, body: Bytes)
    | Place(pid: nat)
    | Commit(pid: nat, now: int)
    | Abandon(pid: nat)
    | FindEntry(rid: nat, key: CacheKey)
    | OpenFile(rid: nat)
    | TouchEntry(id: int, now: int)
    | Pin(project: int, id: int, pinned: bool)
    | Delete(project: int, id: int)
    | CreateProject(p: int, row: Project)
    | UpdateProject(p: int, row: Project)
    | RemoveProject(p: int)
    | Fetch(todo: seq<int>)
    | EvictNext
    | Stop
    | FetchDead(batch: set<Hash>)
    | UnlinkDead(h: Hash)
    | DropRow(h: Hash)
    | Walk
    | ReadRows
    | UnlinkOrphan(h: Hash)
    | PurgeOrphan(h: Hash)
    | Crash

  ghost predicate Enabled(s: Sys, step: Step) {
    match step
    case Check(pid, _, _) => pid !in s.puts
    case Place(pid) => pid in s.puts && s.puts[pid].stage.Checked?
    case Commit(pid, _) => pid in s.puts && s.puts[pid].stage.Placed?
    case Abandon(pid) => pid in s.puts
    case FindEntry(rid, _) => rid !in s.gets
    case OpenFile(rid) => rid in s.gets
    case CreateProject(p, _) => p !in s.db.projects
    case UpdateProject(p, _) => p in s.db.projects
    // Every phase's WHERE clause includes `pinned = 0`; which unpinned rows it lists is left open.
    case Fetch(todo) =>
      && (s.gc.Idle? || s.gc.Evicting?)
      && forall i :: 0 <= i < |todo| ==> todo[i] in s.db.entries && !s.db.entries[todo[i]].pinned
    case EvictNext => s.gc.Evicting? && s.gc.todo != [] && s.gc.todo[0] in s.gc.fetched
    case Stop => true
    case FetchDead(batch) => (s.gc.Idle? || s.gc.Evicting? || s.gc.Cleaning?) && batch <= DeadRows(s.db)
    case UnlinkDead(h) => s.gc.Cleaning? && h in s.gc.batch
    case DropRow(h) => s.gc.Cleaning? && h in s.gc.batch
    case Walk => s.gc.Idle?
    case ReadRows => s.gc.Walked?
    case UnlinkOrphan(h) => s.gc.Scanning? && h in s.gc.onDisk - s.gc.inDb
    case PurgeOrphan(h) => s.gc.Scanning? && h in s.gc.inDb - s.gc.onDisk
    case _ => true
  }

  /** A refused transaction leaves the tables alone. */
  ghost function Try(t: Db, r: Result<Db>): Db {
    if r.Ok? then r.value else t
  }

  /** What a step does to the tables: at most one transaction. */
  ghost function DbAfter(s: Sys, step: Step): Db
    requires Enabled(s, step)
  {
    match step
    case Commit(pid, now) =>
      var put := s.puts[pid];
      Try(s.db, Upsert(s.db, put.key, Digest(put.body), |put.body|, now))
    case TouchEntry(id, now) => Touch(s.db, id, now)
    case Pin(project, id, pinned) => Try(s.db, SetPinned(s.db, project, id, pinned))
    case Delete(project, id) => Try(s.db, DeleteEntry(s.db, project, id))
    case CreateProject(p, row) => s.db.(projects := s.db.projects[p := row])
    case UpdateProject(p, row) => s.db.(projects := s.db.projects[p := row])
    case RemoveProject(p) => Try(s.db, DeleteProject(s.db, p))
    case EvictNext => Try(s.db, DeleteNext(s))
    case DropRow(h) => Try(s.db, DeleteBlob(s.db, h))
    case PurgeOrphan(h) => Purge(s.db, {h})
    case _ => s.db
  }

  /** The deletion of the next candidate. */
  ghost function DeleteNext(s: Sys): Result<Db>
    requires Enabled(s, EvictNext)
  {
    DeleteEntry(s.db, s.gc.fetched[s.gc.todo[0]].key.project, s.gc.todo[0])
  }

  /** What a step does to the files under `blobs/`. */
  ghost function FilesAfter(s: Sys, step: Step): map<Hash, Bytes>
    requires Enabled(s, step)
  {
    match step
    // A blob that was there is reused, whatever has become of it since; otherwise the temporary file is renamed.
    case Place(pid) =>
      var put := s.puts[pid];
      if put.stage.found then s.files else s.files[Digest(put.body) := put.body]
    case UnlinkDead(h) => s.files - {h}
    case UnlinkOrphan(h) => s.files - {h}
    case _ => s.files
  }

  ghost function PutsAfter(s: Sys, step: Step): map<nat, Put>
    requires Enabled(s, step)
  {
    match step
    case Check(pid, key, body) => s.puts[pid := Put(key, body, Checked(Digest(body) in s.files))]
    case Place(pid) => s.puts[pid := s.puts[pid].(stage := Placed)]
    case Commit(pid, _) => s.puts - {pid}
    case Abandon(pid) => s.puts - {pid}
    case Crash => map[]
    case _ => s.puts
  }

  ghost function GetsAfter(s: Sys, step: Step): map<nat, Reading>
    requires Enabled(s, step)
  {
    match step
    case FindEntry(rid, key) =>
      (match Find(s.db.entries, key)
       case Some(id) => s.gets[rid := Reading(key, s.db.entries[id].hash)]
       case None => s.gets)
    case OpenFile(rid) => s.gets - {rid}
    case Crash => map[]
    case _ => s.gets
  }

  /** Where a step leaves the collector. A candidate that is gone, or a row referenced again, aborts the sweep. */
  ghost function GcAfter(s: Sys, step: Step): Collector
    requires Enabled(s, step)
  {
    match step
    case Fetch(todo) => Evicting(todo, s.db.entries)
    case EvictNext => if DeleteNext(s).Ok? then s.gc.(todo := s.gc.todo[1..]) else Idle
    case Stop => Idle
    case FetchDead(batch) => Cleaning(batch)
    case DropRow(h) => if DeleteBlob(s.db, h).Ok? then Cleaning(s.gc.batch - {h}) else Idle
    case Walk => Walked(s.files.Keys)
    case ReadRows => Scanning(s.gc.onDisk, s.db.blobs.Keys)
    case Crash => Idle
    case _ => s.gc
  }

  ghost function Apply(s: Sys, step: Step): Sys
    requires Enabled(s, step)
  {
    Sys(DbAfter(s, step), FilesAfter(s, step), PutsAfter(s, step), GetsAfter(s, step), GcAfter(s, step))
  }

  /** What reading and pinning change, column by column; everything else stays as it was. */
  lemma TouchAndPinDo(s: Sys, id: int, now: int, project: int, pinned: bool)
    ensures var u := Apply(s, TouchEntry(id, now));
            && u == s.(db := u.db) && u.db == s.db.(entries := u.db.entries) && u.db.entries.Keys == s.db.entries.Keys
            && forall x :: x in s.db.entries ==>
                 u.db.entries[x] == if x == id then s.db.entries[x].(accessed := now) else s.db.entries[x]
    ensures var u := Apply(s, Pin(project, id, pinned));
            && u == s.(db := u.db) && u.db == s.db.(entries := u.db.entries) && u.db.entries.Keys == s.db.entries.Keys
            && forall x :: x in s.db.entries ==>
                 u.db.entries[x]
                 == if x == id && s.db.entries[x].key.project == project then s.db.entries[x].(pinned := pinned)
                    else s.db.entries[x]
  {
  }

  /** What the other steps of clients and admins change that no theorem below turns on. */
  lemma AdminStepsDo(s: Sys, p: int, row: Project, pid: nat)
    ensures p !in s.db.projects ==>
              Enabled(s, CreateProject(p, row))
              && Apply(s, CreateProject(p, row)) == s.(db := s.db.(projects := s.db.projects[p := row]))
    ensures p in s.db.projects ==>
              Enabled(s, UpdateProject(p, row))
              && Apply(s, UpdateProject(p, row)) == s.(db := s.db.(projects := s.db.projects[p := row]))
    ensures pid in s.puts ==>
              Enabled(s, Abandon(pid)) && Apply(s, Abandon(pid)) == s.(puts := s.puts - {pid})
    ensures Apply(s, Crash) == Sys(s.db, s.files, map[], map[], Idle)
  {
  }

  /** A candidate that is gone, or a dead row that is referenced again, ends the sweep and changes nothing else. */
  lemma RefusedStepsAbort(s: Sys, h: Hash)
    ensures Enabled(s, EvictNext) && s.gc.todo[0] !in s.db.entries ==> Apply(s, EvictNext) == s.(gc := Idle)
    ensures Enabled(s, DropRow(h)) && RefSet(s.db.entries, h) != {} ==> Apply(s, DropRow(h)) == s.(gc := Idle)
  {
  }

  ghost predicate IsRun(states: seq<Sys>, steps: seq<Step>) {
    && |states| == |steps| + 1
    && forall i :: 0 <= i < |steps| ==> Enabled(states[i], steps[i]) && states[i + 1] == Apply(states[i], steps[i])
  }

  // ----- what every step of every run keeps -----

  /** A candidate still in the tables is the very row that was fetched, and it was unpinned then. */
  ghost predicate Candidates(s: Sys) {
    s.gc.Evicting? ==> forall i :: 0 <= i < |s.gc.todo| ==>
      var id := s.gc.todo[i];
      && id in s.gc.fetched && !s.gc.fetched[id].pinned && id <= s.db.lastId
      && (id in s.db.entries ==> s.db.entries[id].key == s.gc.fetched[id].key
                                 && s.db.entries[id].created == s.gc.fetched[id].created)
  }

  ghost predicate SysInv(s: Sys) {
    Inv(s.db) && Faithful(s.files) && Candidates(s)
  }

  /** A step keeps the key and creation time of every row it keeps, and hands out only fresh ids. */
  ghost predicate RowsContinue(t: Db, u: Db) {
    && t.lastId <= u.lastId
    && forall id :: id in u.entries && id <= t.lastId ==>
         id in t.entries && u.entries[id].key == t.entries[id].key && u.entries[id].created == t.entries[id].created
  }

  lemma StepContinuesRows(s: Sys, step: Step)
    requires Enabled(s, step) && SysInv(s)
    ensures RowsContinue(s.db, Apply(s, step).db)
  {
    hide RefSet, Faithful, Counted, Sized, Candidates, UniqueKeys, FilesAfter, PutsAfter, GetsAfter, GcAfter;
  }

  lemma StepKeepsTables(s: Sys, step: Step)
    requires Enabled(s, step) && SysInv(s)
    ensures Inv(Apply(s, step).db)
  {
    hide Fk, UniqueKeys, IdsBelow, Counted, Sized, Faithful, Candidates, FilesAfter, PutsAfter, GetsAfter, GcAfter;
    hide Upsert, DeleteEntry, DeleteBlob;
    var t := s.db;
    match step
    case Commit(pid, now) =>
      var put := s.puts[pid];
      if Upsert(t, put.key, Digest(put.body), |put.body|, now).Ok? {
        UpsertKeepsInv(t, put.key, put.body, now);
      }
    case TouchEntry(id, now) =>
      if id in t.entries {
        RowUpdateKeepsInv(t, id, t.entries[id].(accessed := now));
      }
    case Pin(project, id, pinned) =>
      if id in t.entries {
        RowUpdateKeepsInv(t, id, t.entries[id].(pinned := pinned));
      }
    case Delete(project, id) => DeleteKeepsInv(t, project, id);
    case CreateProject(p, row) => ProjectRowKeepsInv(t, p, row);
    case UpdateProject(p, row) => ProjectRowKeepsInv(t, p, row);
    case EvictNext => DeleteKeepsInv(t, s.gc.fetched[s.gc.todo[0]].key.project, s.gc.todo[0]);
    case RemoveProject(p) =>
      if p in t.projects {
        DeleteProjectKeepsInv(t, p);
      }
    case DropRow(h) =>
      if DeleteBlob(t, h).Ok? {
        DeleteBlobKeepsInv(t, h);
      }
    case PurgeOrphan(h) => PurgeKeepsInv(t, {h});
    case _ =>
  }

  lemma ProjectRowKeepsInv(t: Db, p: int, row: Project)
    requires Inv(t)
    ensures Inv(t.(projects := t.projects[p := row]))
  {
  }

  lemma DeleteKeepsInv(t: Db, project: int, id: int)
    requires Inv(t)
    ensures Inv(Try(t, DeleteEntry(t, project, id)))
  {
    if DeleteEntry(t, project, id).Ok? {
      DeleteIsEvict(t, project, id);
      EvictKeepsInv(t, {id});
    }
  }

  lemma StepKeepsFaithful(s: Sys, step: Step)
    requires Enabled(s, step) && Faithful(s.files)
    ensures Faithful(Apply(s, step).files)
  {
    hide DbAfter, PutsAfter, GetsAfter, GcAfter;
  }

  lemma StepKeepsCandidates(s: Sys, step: Step)
    requires Enabled(s, step) && Candidates(s) && IdsBelow(s.db) && RowsContinue(s.db, Apply(s, step).db)
    ensures Candidates(Apply(s, step))
  {
    hide DbAfter, PutsAfter, GetsAfter, FilesAfter;
    if step.Fetch? {
      assert Apply(s, step).db == s.db by { FetchKeepsTables(s, step); }
    }
  }

  lemma FetchKeepsTables(s: Sys, step: Step)
    requires Enabled(s, step) && step.Fetch?
    ensures Apply(s, step).db == s.db
  {
  }

  lemma StepKeepsInv(s: Sys, step: Step)
    requires Enabled(s, step) && SysInv(s)
    ensures SysInv(Apply(s, step))
  {
    hide Apply, Enabled, Candidates, Faithful, RowsContinue;
    StepKeepsTables(s, step);
    StepContinuesRows(s, step);
    StepKeepsFaithful(s, step);
    StepKeepsCandidates(s, step);
  }

  /**
   Over every run, guarded or not, aborted sweeps included: the foreign keys hold, no refcount is below the
   number of references (so none is ever negative), and recorded sizes are the lengths of the contents.
   */
  lemma {:induction false} AlwaysInv(states: seq<Sys>, steps: seq<Step>, n: nat)
    requires IsRun(states, steps) && SysInv(states[0]) && n < |states|
    ensures SysInv(states[n])
    ensures forall h :: h in states[n].db.blobs ==> states[n].db.blobs[h].refcount >= 0
  {
    if n > 0 {
      AlwaysInv(states, steps, n - 1);
      StepKeepsInv(states[n - 1], steps[n - 1]);
    }
    assert forall h :: h in states[n].db.blobs ==> Refs(states[n].db.entries, h) <= states[n].db.blobs[h].refcount;
  }

  // ----- conservation of references -----

  /** The references a step leaves behind without a matching decrement. */
  ghost function Leaked(s: Sys, step: Step, h: Hash): nat {
    if step.RemoveProject? && step.p in s.db.projects then Refs(OfProject(s.db.entries, step.p), h) else 0
  }

  /** Every step conserves the slack of every surviving row, except that a cascade adds exactly what it leaks. */
  lemma StepConserves(s: Sys, step: Step, h: Hash)
    requires Enabled(s, step) && SysInv(s) && h in Apply(s, step).db.blobs
    ensures Slack(Apply(s, step).db, h) == Slack(s.db, h) + Leaked(s, step, h)
  {
    hide SysInv, Upsert, DeleteEntry, DeleteBlob, Purge, Slack, OfProject, FilesAfter, PutsAfter, GetsAfter, GcAfter;
    SysHasInv(s);
    var t := s.db;
    match step
    case Commit(pid, now) => CommitConserves(t, s.puts[pid], now, h);
    case TouchEntry(id, now) => TouchConserves(t, id, now, h);
    case Pin(project, id, pinned) => PinConserves(t, project, id, pinned, h);
    case Delete(project, id) => DeleteConserves(t, project, id, h);
    case CreateProject(p, row) => ProjectRowConserves(t, p, row, h);
    case UpdateProject(p, row) => ProjectRowConserves(t, p, row, h);
    case EvictNext => DeleteConserves(t, s.gc.fetched[s.gc.todo[0]].key.project, s.gc.todo[0], h);
    case RemoveProject(p) =>
      if p in t.projects {
        CascadeLeaks(t, p, h);
      }
    case DropRow(x) => DropConserves(t, x, h);
    case PurgeOrphan(x) => PurgeKeepsInv(t, {x});
    case _ =>
  }

  lemma SysHasInv(s: Sys)
    requires SysInv(s)
    ensures Inv(s.db)
  {
  }

  lemma CommitConserves(t: Db, put: Put, now: int, h: Hash)
    requires Inv(t)
    ensures Slack(Try(t, Upsert(t, put.key, Digest(put.body), |put.body|, now)), h) == Slack(t, h)
  {
    hide Upsert, Slack, Counted, Sized, UniqueKeys;
    if Upsert(t, put.key, Digest(put.body), |put.body|, now).Ok? {
      UpsertConserves(t, put.key, Digest(put.body), |put.body|, now, h);
    }
  }

  lemma TouchConserves(t: Db, id: int, now: int, h: Hash)
    requires Inv(t)
    ensures Slack(Touch(t, id, now), h) == Slack(t, h)
  {
    hide Inv, RefSet;
    if id in t.entries {
      RowUpdateKeepsInv(t, id, t.entries[id].(accessed := now));
    }
  }

  lemma PinConserves(t: Db, project: int, id: int, pinned: bool, h: Hash)
    requires Inv(t)
    ensures Slack(Try(t, SetPinned(t, project, id, pinned)), h) == Slack(t, h)
  {
    hide Inv, RefSet;
    if id in t.entries {
      RowUpdateKeepsInv(t, id, t.entries[id].(pinned := pinned));
    }
  }

  lemma ProjectRowConserves(t: Db, p: int, row: Project, h: Hash)
    ensures Slack(t.(projects := t.projects[p := row]), h) == Slack(t, h)
  {
  }

  lemma DropConserves(t: Db, x: Hash, h: Hash)
    requires h in Try(t, DeleteBlob(t, x)).blobs
    ensures Slack(Try(t, DeleteBlob(t, x)), h) == Slack(t, h)
  {
  }

  lemma DeleteConserves(t: Db, project: int, id: int, h: Hash)
    requires Inv(t)
    ensures Slack(Try(t, DeleteEntry(t, project, id)), h) == Slack(t, h)
  {
    if DeleteEntry(t, project, id).Ok? {
      DeleteIsEvict(t, project, id);
      EvictConserves(t, {id}, h);
    }
  }

  ghost predicate LeakyCascade(s: Sys, step: Step) {
    step.RemoveProject? && step.p in s.db.projects && OfProject(s.db.entries, step.p) != map[]
  }

  /** Refcounts stay exact through a step if and only if it does not delete a project that has entries. */
  lemma StepKeepsExactIff(s: Sys, step: Step)
    requires Enabled(s, step) && SysInv(s) && Exact(s.db)
    ensures Exact(Apply(s, step).db) <==> !LeakyCascade(s, step)
  {
    var u := Apply(s, step).db;
    if step.RemoveProject? && step.p in s.db.projects {
      DeleteProjectExactIff(s.db, step.p);
    } else {
      forall h | h in u.blobs ensures Refs(u.entries, h) == u.blobs[h].refcount {
        StepConserves(s, step, h);
      }
    }
  }

  /** Runs that delete only empty projects keep every refcount equal to the number of references. */
  lemma {:induction false} AlwaysExact(states: seq<Sys>, steps: seq<Step>, n: nat)
    requires IsRun(states, steps) && SysInv(states[0]) && Exact(states[0].db) && n < |states|
    requires forall i :: 0 <= i < n ==> !LeakyCascade(states[i], steps[i])
    ensures Exact(states[n].db)
  {
    if n > 0 {
      AlwaysExact(states, steps, n - 1);
      AlwaysInv(states, steps, n - 1);
      StepKeepsExactIff(states[n - 1], steps[n - 1]);
    }
  }

  ghost predicate Doomed(s: Sys, h: Hash) {
    s.gc.Cleaning? && h in s.gc.batch
  }

  /**
   A leak is permanent: once a row claims more references than exist and no cleanup batch already holds it, no
   sweep, delete or overwrite ever removes the row or lowers the excess. Only the orphan scan's purge can.
   */
  lemma {:induction false} LeakIsPermanent(states: seq<Sys>, steps: seq<Step>, h: Hash, m: nat, n: nat)
    requires IsRun(states, steps) && SysInv(states[0]) && m <= n < |states|
    requires h in states[m].db.blobs && Slack(states[m].db, h) > 0 && !Doomed(states[m], h)
    requires forall i :: m <= i < n ==> steps[i] != PurgeOrphan(h)
    ensures h in states[n].db.blobs && Slack(states[n].db, h) >= Slack(states[m].db, h) && !Doomed(states[n], h)
  {
    if m < n {
      LeakIsPermanent(states, steps, h, m, n - 1);
      AlwaysInv(states, steps, n - 1);
      var s, step := states[n - 1], steps[n - 1];
      assert s.db.blobs[h].refcount > 0;
      RowStays(s, step, h);
      StepConserves(s, step, h);
    }
  }

  lemma RowStays(s: Sys, step: Step, h: Hash)
    requires Enabled(s, step) && SysInv(s) && h in s.db.blobs && s.db.blobs[h].refcount > 0
    requires !Doomed(s, h) && step != PurgeOrphan(h)
    ensures h in Apply(s, step).db.blobs && !Doomed(Apply(s, step), h)
  {
    hide SysInv, Find, RefSet, OfProject;
  }

  // ----- pins and stale candidates -----

  /** Steps by which a client or the orphan scan gives up the row `id` itself. */
  ghost predicate Releases(s: Sys, step: Step, id: int)
    requires id in s.db.entries
  {
    || (step.Pin? && step.id == id && !step.pinned)
    || (step.Delete? && step.id == id)
    || (step.RemoveProject? && step.p == s.db.entries[id].key.project)
    || (step.PurgeOrphan? && step.h == s.db.entries[id].hash)
  }

  /** Pinning during a sweep can come too late: a listed entry is evicted although it is pinned by then. */
  lemma PinTooLate(t: Db, id: int)
    requires Inv(t) && id in t.entries && !t.entries[id].pinned
    ensures var s := Sys(t, map[], map[], map[], Idle);
            var fetch, pin := Fetch([id]), Pin(t.entries[id].key.project, id, true);
            && Enabled(s, fetch) && Enabled(Apply(s, fetch), pin)
            && var pinned := Apply(Apply(s, fetch), pin);
            && pinned.db.entries[id].pinned && Enabled(pinned, EvictNext)
            && id !in Apply(pinned, EvictNext).db.entries
  {
  }

  /** Ids are never reused, so over any stretch of a run an id names one row. */
  lemma {:induction false} RowsKeepIdentity(states: seq<Sys>, steps: seq<Step>, m: nat, n: nat)
    requires IsRun(states, steps) && SysInv(states[0]) && m <= n < |states|
    ensures RowsContinue(states[m].db, states[n].db)
  {
    hide RowsContinue, SysInv, Apply, Enabled;
    if m < n {
      RowsKeepIdentity(states, steps, m, n - 1);
      AlwaysInv(states, steps, n - 1);
      StepContinuesRows(states[n - 1], steps[n - 1]);
      ContinueOn(states[m].db, states[n - 1].db, states[n].db);
    } else {
      ContinueSelf(states[m].db);
    }
  }

  lemma ContinueSelf(t: Db)
    ensures RowsContinue(t, t)
  {
  }

  lemma ContinueOn(t: Db, u: Db, v: Db)
    requires RowsContinue(t, u) && RowsContinue(u, v)
    ensures RowsContinue(t, v)
  {
  }

  lemma FindIs(t: Db, k: CacheKey, id: int)
    requires UniqueKeys(t) && id in t.entries && t.entries[id].key == k
    ensures Find(t.entries, k) == Some(id)
  {
    assert Has(t.entries, k);
  }

  lemma FindMisses(t: Db, k: CacheKey)
    requires forall id :: id in t.entries ==> t.entries[id].key != k
    ensures Find(t.entries, k) == None
  {
  }

  // ----- an undisturbed phase -----

  /** The first `n` candidates are distinct rows that are still there. */
  ghost predicate Undisturbed(s: Sys, n: nat) {
    && s.gc.Evicting? && Fk(s.db) && n <= |s.gc.todo|
    && (forall i, j :: 0 <= i < j < n ==> s.gc.todo[i] != s.gc.todo[j])
    && (forall i :: 0 <= i < n ==>
          var id := s.gc.todo[i];
          id in s.gc.fetched && id in s.db.entries && s.db.entries[id].key == s.gc.fetched[id].key)
  }

  lemma NextStaysUndisturbed(s: Sys, n: nat)
    requires n > 0 && Undisturbed(s, n)
    ensures Enabled(s, EvictNext) && Undisturbed(Apply(s, EvictNext), n - 1)
    ensures Apply(s, EvictNext) == s.(db := Evict(s.db, {s.gc.todo[0]}), gc := s.gc.(todo := s.gc.todo[1..]))
  {
    var id := s.gc.todo[0];
    DeleteIsEvict(s.db, s.gc.fetched[id].key.project, id);
  }

  lemma UndisturbedEvicts(s: Sys, n: nat)
    requires Undisturbed(s, n)
    ensures s.gc.Evicting? && n <= |s.gc.todo|
  {
  }

  /** Taking `EvictNext` `n` times. */
  ghost function Drain(s: Sys, n: nat): Sys
    requires Undisturbed(s, n)
    decreases n
  {
    if n == 0 then s
    else
      NextStaysUndisturbed(s, n);
      Drain(Apply(s, EvictNext), n - 1)
  }

  /**
   With nobody interfering, working through the first `n` candidates one transaction at a time is one eviction of
   that prefix: the closed form the sweep's phases are proved against.
   */
  lemma {:induction false} DrainIsEvict(s: Sys, n: nat)
    requires Undisturbed(s, n)
    ensures Drain(s, n) == s.(db := Evict(s.db, Elements(s.gc.todo[..n])), gc := s.gc.(todo := s.gc.todo[n..]))
    decreases n
  {
    hide Evict, Apply, Enabled, Undisturbed;
    UndisturbedEvicts(s, n);
    var todo := s.gc.todo;
    if n == 0 {
      EvictNothing(s.db);
      assert Elements(todo[..0]) == {} && todo[0..] == todo;
      assert s == s.(gc := s.gc.(todo := todo));
    } else {
      NextStaysUndisturbed(s, n);
      DrainIsEvict(Apply(s, EvictNext), n - 1);
      var rest := todo[1..];
      EvictTwice(s.db, {todo[0]}, Elements(rest[..n - 1]));
      assert todo[..n] == [todo[0]] + rest[..n - 1];
      assert Elements(todo[..n]) == {todo[0]} + Elements(rest[..n - 1]);
      assert rest[n - 1..] == todo[n..];
    }
  }

  /** `n` evictions in a row are a run. */
  lemma {:induction false} DrainRun(s: Sys, n: nat) returns (states: seq<Sys>)
    requires Undisturbed(s, n)
    ensures IsRun(states, EvictionSteps(n)) && states[0] == s && states[n] == Drain(s, n)
    decreases n
  {
    hide Evict, Apply, Enabled, Undisturbed;
    if n == 0 {
      states := [s];
    } else {
      NextStaysUndisturbed(s, n);
      var rest := DrainRun(Apply(s, EvictNext), n - 1);
      states := [s] + rest;
      forall i | 0 <= i < n ensures Enabled(states[i], EvictNext) && states[i + 1] == Apply(states[i], EvictNext) {
        if i > 0 {
          assert states[i] == rest[i - 1] && states[i + 1] == rest[i] && EvictionSteps(n - 1)[i - 1] == EvictNext;
        }
      }
    }
  }

  function EvictionSteps(n: nat): seq<Step> {
    seq(n, _ => EvictNext)
  }

  // ----- when a pin protects -----

  /**
   The collector is on its way to `id`: it has listed it, and every candidate it will take before it is still
   there and listed once. A candidate that is gone, or comes up again, aborts the sweep.
   */
  ghost predicate Reaches(s: Sys, id: int) {
    s.gc.Evicting? && exists j :: 0 <= j < |s.gc.todo| && s.gc.todo[j] == id && Undisturbed(s, j + 1)
  }

  /** One eviction removes the next candidate from both, or aborts the sweep. */
  lemma EvictNextEffect(s: Sys)
    requires SysInv(s) && Enabled(s, EvictNext)
    ensures var u, id := Apply(s, EvictNext), s.gc.todo[0];
            if id in s.db.entries then u.db.entries == s.db.entries - {id} && u.gc == s.gc.(todo := s.gc.todo[1..])
            else u.gc == Idle
  {
    hide Faithful, Sized, UniqueKeys, Counted;
  }

  lemma ReachesAfterEviction(s: Sys, id: int)
    requires SysInv(s) && Enabled(s, EvictNext) && Reaches(Apply(s, EvictNext), id)
    ensures Reaches(s, id)
  {
    hide Apply, Faithful, Sized, UniqueKeys, Counted, IdsBelow;
    EvictNextEffect(s);
    var u := Apply(s, EvictNext);
    var todo := s.gc.todo;
    assert u.gc == s.gc.(todo := todo[1..]);
    var j :| 0 <= j < |u.gc.todo| && u.gc.todo[j] == id && Undisturbed(u, j + 1);
    forall i | 0 < i < j + 2 ensures todo[i] in u.db.entries && todo[i] != todo[0] {
      assert todo[i] == u.gc.todo[i - 1];
    }
    forall i, k | 0 <= i < k < j + 2 ensures todo[i] != todo[k] {
      assert i > 0 ==> u.gc.todo[i - 1] != u.gc.todo[k - 1];
    }
    assert Undisturbed(s, j + 2) && todo[j + 1] == id;
  }

  lemma ReachesBeforeOther(s: Sys, step: Step, id: int)
    requires SysInv(s) && Enabled(s, step) && Reaches(Apply(s, step), id)
    requires !step.EvictNext? && !step.Fetch?
    ensures Reaches(s, id)
  {
    hide RefSet, Faithful, Counted, Sized;
    var u := Apply(s, step);
    StepContinuesRows(s, step);
    assert u.gc == s.gc;
    var j :| 0 <= j < |u.gc.todo| && u.gc.todo[j] == id && Undisturbed(u, j + 1);
    forall i | 0 <= i < j + 1 ensures s.gc.todo[i] in s.db.entries
        && s.db.entries[s.gc.todo[i]].key == s.gc.fetched[s.gc.todo[i]].key {
    }
    assert Undisturbed(s, j + 1);
  }

  /** Only the collector's own next candidate goes without being released by somebody. */
  lemma PinnedStays(s: Sys, step: Step, id: int)
    requires SysInv(s) && Enabled(s, step) && id in s.db.entries && s.db.entries[id].pinned
    requires !Reaches(s, id) && !Releases(s, step, id)
    ensures id in Apply(s, step).db.entries && Apply(s, step).db.entries[id].pinned
    ensures Apply(s, step).db.entries[id].key == s.db.entries[id].key
  {
    hide RefSet, Faithful, Counted, Sized;
    if step.EvictNext? && s.gc.todo[0] == id {
      NextIsReached(s, id);
    }
  }

  lemma NextIsReached(s: Sys, id: int)
    requires SysInv(s) && Enabled(s, EvictNext) && s.gc.todo[0] == id && id in s.db.entries
    ensures Reaches(s, id)
  {
    assert Undisturbed(s, 1);
  }

  lemma StepKeepsUnreached(s: Sys, step: Step, id: int)
    requires SysInv(s) && Enabled(s, step) && id in s.db.entries && s.db.entries[id].pinned
    requires !Reaches(s, id) && !Releases(s, step, id)
    ensures !Reaches(Apply(s, step), id)
  {
    if step.Fetch? {
      FetchListsUnpinned(s, step, id);
    } else if Reaches(Apply(s, step), id) {
      if step.EvictNext? {
        ReachesAfterEviction(s, id);
      } else {
        ReachesBeforeOther(s, step, id);
      }
    }
  }

  lemma FetchListsUnpinned(s: Sys, step: Step, id: int)
    requires Enabled(s, step) && step.Fetch? && id in s.db.entries && s.db.entries[id].pinned
    ensures !Reaches(Apply(s, step), id)
  {
  }

  ghost predicate NotReleased(states: seq<Sys>, steps: seq<Step>, id: int)
    requires |states| == |steps| + 1
  {
    forall i :: 0 <= i < |steps| && id in states[i].db.entries ==> !Releases(states[i], steps[i], id)
  }

  /**
   An entry pinned while no sweep is on its way to it survives that sweep and every later one, overwrites included,
   for as long as nobody unpins it, deletes it or its project, or purges its missing blob.
   */
  lemma {:induction false} PinnedSurvives(states: seq<Sys>, steps: seq<Step>, id: int, m: nat, n: nat)
    requires IsRun(states, steps) && SysInv(states[0]) && m <= n < |states|
    requires id in states[m].db.entries && states[m].db.entries[id].pinned && !Reaches(states[m], id)
    requires NotReleased(states, steps, id)
    ensures id in states[n].db.entries && states[n].db.entries[id].pinned && !Reaches(states[n], id)
    ensures states[n].db.entries[id].key == states[m].db.entries[id].key
  {
    hide Apply, Enabled, Releases, Reaches, SysInv, RowsContinue;
    if m < n {
      PinnedSurvives(states, steps, id, m, n - 1);
      AlwaysInv(states, steps, n - 1);
      PinnedStays(states[n - 1], steps[n - 1], id);
      StepKeepsUnreached(states[n - 1], steps[n - 1], id);
    }
  }

  /** Some run from `s` loses the row although nobody releases it. */
  ghost predicate Loses(states: seq<Sys>, steps: seq<Step>, s: Sys, id: int) {
    && IsRun(states, steps) && states[0] == s && NotReleased(states, steps, id)
    && id !in states[|steps|].db.entries
  }

  /**
   A pinned row survives everything that can follow, as long as nobody unpins it, deletes it or its project or
   purges its missing blob, if and only if no sweep is already on its way to it.
   */
  lemma PinnedKeptIff(s: Sys, id: int)
    requires SysInv(s) && id in s.db.entries && s.db.entries[id].pinned
    ensures (forall states: seq<Sys>, steps: seq<Step> :: !Loses(states, steps, s, id)) <==> !Reaches(s, id)
  {
    if Reaches(s, id) {
      ReachedIsLost(s, id);
    } else {
      forall states: seq<Sys>, steps: seq<Step> ensures !Loses(states, steps, s, id) {
        if Loses(states, steps, s, id) {
          PinnedSurvives(states, steps, id, 0, |steps|);
        }
      }
    }
  }

  lemma ReachedIsLost(s: Sys, id: int)
    requires Reaches(s, id)
    ensures exists states: seq<Sys>, steps: seq<Step> :: Loses(states, steps, s, id)
  {
    hide Apply, Enabled;
    var j :| 0 <= j < |s.gc.todo| && s.gc.todo[j] == id && Undisturbed(s, j + 1);
    var states := DrainRun(s, j + 1);
    DrainIsEvict(s, j + 1);
    assert s.gc.todo[..j + 1][j] == id;
    assert id in Elements(s.gc.todo[..j + 1]);
    assert Loses(states, EvictionSteps(j + 1), s, id);
  }
}
