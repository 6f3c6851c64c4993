/** What clients are served: files behind entries, GET in its two reads, HEAD, and the abstract cache they refine. */
module Serving {
  import opened Prelude
  import opened Tables
  import opened Storage
  import opened Protocol

  // ----- files behind entries -----

  /** An upload that will not write the file again: it saw it there, or has put it there. */
  predicate Relies(put: Put) {
    put.stage != Checked(false)
  }

  /** Every committed entry, and every upload that relies on a file, has it. */
  ghost predicate Backed(s: Sys) {
    && (forall id :: id in s.db.entries ==> s.db.entries[id].hash in s.files)
    && (forall pid :: pid in s.puts && Relies(s.puts[pid]) ==> Digest(s.puts[pid].body) in s.files)
  }

  /**
   The discipline under which nothing can dangle. Uploads may overlap the eviction phases freely; while dead
   blobs are being removed no upload past its existence check relies on one of them, and no upload is between
   its check and its commit while the orphan scan is at work.
   */
  ghost predicate Guarded(s: Sys) {
    && (s.gc.Cleaning? ==>
          forall pid :: pid in s.puts && Relies(s.puts[pid]) ==> Digest(s.puts[pid].body) !in s.gc.batch)
    && (s.gc.Walked? || s.gc.Scanning? ==> s.puts == map[])
  }

  /** What the collector is about to remove is relied on by nobody. */
  ghost predicate Harmless(s: Sys) {
    match s.gc
    case Cleaning(batch) => forall id :: id in s.db.entries ==> s.db.entries[id].hash !in batch
    case Walked(onDisk) => s.files.Keys <= onDisk
    case Scanning(onDisk, inDb) =>
      s.files.Keys <= onDisk && forall id :: id in s.db.entries ==> s.db.entries[id].hash !in onDisk - inDb
    case _ => true
  }

  ghost predicate Safe(s: Sys) {
    SysInv(s) && Backed(s) && Harmless(s)
  }

  lemma DeadRowsUnused(t: Db, batch: set<Hash>)
    requires Counted(t) && batch <= DeadRows(t)
    ensures forall id :: id in t.entries ==> t.entries[id].hash !in batch
  {
    forall id | id in t.entries ensures t.entries[id].hash !in batch {
      var h := t.entries[id].hash;
      assert id in RefSet(t.entries, h);
      if h in batch {
        DeadIsUnreferenced(t, h);
        assert false;
      }
    }
  }

  /** Only commits give an entry a hash it did not have, and only that of the upload. */
  lemma StepHashes(s: Sys, step: Step, id: int)
    requires Enabled(s, step) && SysInv(s) && id in Apply(s, step).db.entries
    ensures var h := Apply(s, step).db.entries[id].hash;
            || (id in s.db.entries && s.db.entries[id].hash == h)
            || (step.Commit? && h == Digest(s.puts[step.pid].body))
  {
    hide RefSet, Faithful, Counted, Sized, Candidates, FilesAfter, PutsAfter, GetsAfter, GcAfter;
  }

  /** Files disappear only by unlinks, and appear only when an upload renames its own into place. */
  lemma StepFiles(s: Sys, step: Step, h: Hash)
    requires Enabled(s, step)
    ensures h in Apply(s, step).files <==> !Unlinks(step, h) && (h in s.files || Renames(s, step, h))
  {
    hide DbAfter, PutsAfter, GetsAfter, GcAfter;
  }

  predicate Unlinks(step: Step, h: Hash) {
    step == UnlinkDead(h) || step == UnlinkOrphan(h)
  }

  predicate Renames(s: Sys, step: Step, h: Hash) {
    step.Place? && step.pid in s.puts && s.puts[step.pid].stage == Checked(false) && Digest(s.puts[step.pid].body) == h
  }

  /** A guarded unlink takes no file that an entry or an upload relies on. */
  lemma GuardedUnlink(s: Sys, step: Step, h: Hash)
    requires Enabled(s, step) && Safe(s) && Guarded(s) && Unlinks(step, h)
    ensures forall id :: id in s.db.entries ==> s.db.entries[id].hash != h
    ensures forall pid :: pid in s.puts && Relies(s.puts[pid]) ==> Digest(s.puts[pid].body) != h
  {
    hide SysInv;
  }

  lemma StepKeepsBacked(s: Sys, step: Step)
    requires Enabled(s, step) && Safe(s) && Guarded(s)
    ensures Backed(Apply(s, step))
  {
    hide Harmless, Guarded, SysInv, Enabled;
    var u := Apply(s, step);
    forall id | id in u.db.entries ensures u.db.entries[id].hash in u.files {
      var h := u.db.entries[id].hash;
      StepHashes(s, step, id);
      EntryFileStays(s, step, h);
    }
    forall pid | pid in u.puts && Relies(u.puts[pid]) ensures Digest(u.puts[pid].body) in u.files {
      UploadFileStays(s, step, pid);
    }
  }

  lemma EntryFileStays(s: Sys, step: Step, h: Hash)
    requires Enabled(s, step) && Safe(s) && Guarded(s)
    requires || (exists id :: id in s.db.entries && s.db.entries[id].hash == h)
             || (step.Commit? && h == Digest(s.puts[step.pid].body))
    ensures h in Apply(s, step).files
  {
    hide Harmless, Guarded, SysInv, Apply;
    StepFiles(s, step, h);
    if Unlinks(step, h) {
      GuardedUnlink(s, step, h);
    }
  }

  lemma UploadFileStays(s: Sys, step: Step, pid: nat)
    requires Enabled(s, step) && Safe(s) && Guarded(s)
    requires pid in Apply(s, step).puts && Relies(Apply(s, step).puts[pid])
    ensures Digest(Apply(s, step).puts[pid].body) in Apply(s, step).files
  {
    hide Harmless, Guarded, SysInv, Apply;
    var h := Digest(Apply(s, step).puts[pid].body);
    PutCameFrom(s, step, pid);
    StepFiles(s, step, h);
    if Unlinks(step, h) {
      GuardedUnlink(s, step, h);
    }
  }

  lemma PutCameFrom(s: Sys, step: Step, pid: nat)
    requires Enabled(s, step) && pid in Apply(s, step).puts
    ensures var put := Apply(s, step).puts[pid];
            || (step == Check(pid, put.key, put.body) && put.stage == Checked(Digest(put.body) in s.files))
            || (pid in s.puts && s.puts[pid] == put)
            || (step == Place(pid) && pid in s.puts && s.puts[pid].stage.Checked?
                && put == s.puts[pid].(stage := Placed))
  {
    hide DbAfter, FilesAfter, GetsAfter, GcAfter;
  }

  lemma StepKeepsHarmless(s: Sys, step: Step)
    requires Enabled(s, step) && Safe(s) && Guarded(s) && Guarded(Apply(s, step))
    ensures Harmless(Apply(s, step))
  {
    hide GetsAfter, PutsAfter, Candidates, Faithful, UniqueKeys, IdsBelow, Sized;
    var u := Apply(s, step);
    forall id | id in u.db.entries
      ensures || (id in s.db.entries && u.db.entries[id].hash == s.db.entries[id].hash)
              || (step.Commit? && u.db.entries[id].hash == Digest(s.puts[step.pid].body))
    {
      StepHashes(s, step, id);
    }
    if step.FetchDead? {
      DeadRowsUnused(s.db, step.batch);
    }
  }

  /** In guarded runs every committed entry, and every upload that relies on a file, has it in every state. */
  lemma {:induction false} AlwaysSafe(states: seq<Sys>, steps: seq<Step>, n: nat)
    requires IsRun(states, steps) && Safe(states[0]) && n < |states|
    requires forall i :: 0 <= i <= n ==> Guarded(states[i])
    ensures Safe(states[n])
  {
    hide Apply, Enabled, SysInv, Backed, Harmless, Guarded;
    if n > 0 {
      AlwaysSafe(states, steps, n - 1);
      assert Guarded(states[n - 1]) && Guarded(states[n]);
      StepKeepsInv(states[n - 1], steps[n - 1]);
      StepKeepsBacked(states[n - 1], steps[n - 1]);
      StepKeepsHarmless(states[n - 1], steps[n - 1]);
    }
  }

  // ----- the cache as one map -----

  /** What is stored at `k`: the bytes behind its entry, if there is an entry and the bytes are there. */
  ghost function Stored(s: Sys, k: CacheKey): Option<Bytes> {
    match Find(s.db.entries, k)
    case None => None
    case Some(id) => if s.db.entries[id].hash in s.files then Some(s.files[s.db.entries[id].hash]) else None
  }

  /** HEAD: the ETag of the entry at `k`, or a miss. It never looks at the file. */
  ghost function Head(s: Sys, k: CacheKey): Option<Hash> {
    match Find(s.db.entries, k)
    case None => None
    case Some(id) => Some(s.db.entries[id].hash)
  }

  /** The abstract cache: one step either stores a body at a key, or forgets a key, or does nothing to it. */
  ghost function Effect(s: Sys, step: Step, k: CacheKey): Option<Bytes>
    requires Enabled(s, step)
  {
    match step
    case Commit(pid, _) =>
      if s.puts[pid].key == k && k.project in s.db.projects then Some(s.puts[pid].body) else Stored(s, k)
    case Delete(project, id) =>
      if id in s.db.entries && s.db.entries[id].key == k && project == k.project then None else Stored(s, k)
    case EvictNext =>
      if s.gc.todo[0] in s.db.entries && s.db.entries[s.gc.todo[0]].key == k then None else Stored(s, k)
    case RemoveProject(p) => if p in s.db.projects && p == k.project then None else Stored(s, k)
    case _ => Stored(s, k)
  }

  lemma StoredAtEntry(s: Sys, k: CacheKey, id: int)
    requires Inv(s.db) && Faithful(s.files) && id in s.db.entries && s.db.entries[id].key == k
    requires s.db.entries[id].hash in s.files
    ensures Stored(s, k) == Some(s.db.entries[id].hash.of) && Head(s, k) == Some(s.db.entries[id].hash)
  {
    FindIs(s.db, k, id);
  }

  /** In safe states the ETag HEAD reports is the digest of what is stored, and there is one exactly if something is. */
  lemma HeadIsDigestOfStored(s: Sys, k: CacheKey)
    requires Safe(s)
    ensures Head(s, k) == match Stored(s, k) { case None => None case Some(body) => Some(Digest(body)) }
  {
    hide Candidates, Harmless;
    match Find(s.db.entries, k)
    case None =>
    case Some(id) => StoredAtEntry(s, k, id);
  }

  lemma StoredMoves(s: Sys, u: Sys, k: CacheKey)
    requires Safe(s) && SysInv(u) && Backed(u)
    requires forall id :: id in s.db.entries && s.db.entries[id].key == k ==>
               id in u.db.entries && u.db.entries[id].key == k && u.db.entries[id].hash == s.db.entries[id].hash
    requires forall id :: id in u.db.entries && u.db.entries[id].key == k ==>
               id in s.db.entries && s.db.entries[id].key == k
    ensures Stored(u, k) == Stored(s, k)
  {
    hide Candidates, Harmless, Stored;
    match Find(s.db.entries, k)
    case None =>
      FindMisses(u.db, k);
      NotStored(s, k);
      NotStored(u, k);
    case Some(id) =>
      StoredAtEntry(s, k, id);
      StoredAtEntry(u, k, id);
  }

  lemma NotStored(s: Sys, k: CacheKey)
    requires forall id :: id in s.db.entries ==> s.db.entries[id].key != k
    ensures Stored(s, k) == None && Head(s, k) == None
  {
    FindMisses(s.db, k);
  }

  /**
   Refinement: every guarded step of the server does to what is stored exactly what the abstract cache does, at
   every key. Checks, placement, reads, cleanup, scanning, touching and pinning are invisible.
   */
  lemma StepRefines(s: Sys, step: Step, k: CacheKey)
    requires Enabled(s, step) && Safe(s) && Guarded(s)
    ensures Stored(Apply(s, step), k) == Effect(s, step, k)
  {
    hide Apply, Stored, SysInv, Backed, Harmless, Guarded, Enabled;
    StepKeepsInv(s, step);
    StepKeepsBacked(s, step);
    if step.Commit? {
      CommitRefines(s, step, k);
    } else if step.Delete? || step.EvictNext? {
      ForgetRefines(s, step, k);
    } else if step.RemoveProject? {
      CascadeRefines(s, step, k);
    } else {
      QuietStep(s, step);
      StoredMoves(s, Apply(s, step), k);
    }
  }

  /** No other step changes which entries exist or what they point at; a guarded purge finds no entry to remove. */
  lemma QuietStep(s: Sys, step: Step)
    requires Enabled(s, step) && Safe(s)
    requires !step.Commit? && !step.Delete? && !step.EvictNext? && !step.RemoveProject?
    ensures var es := Apply(s, step).db.entries;
            && es.Keys == s.db.entries.Keys
            && forall id :: id in es ==> es[id].key == s.db.entries[id].key && es[id].hash == s.db.entries[id].hash
  {
    hide SysInv, FilesAfter, PutsAfter, GetsAfter, GcAfter, RefSet;
    if step.PurgeOrphan? {
      forall id | id in s.db.entries ensures s.db.entries[id].hash != step.h {
        assert s.db.entries[id].hash in s.files;
      }
    }
  }

  lemma CascadeRefines(s: Sys, step: Step, k: CacheKey)
    requires Enabled(s, step) && Safe(s) && step.RemoveProject?
    requires SysInv(Apply(s, step)) && Backed(Apply(s, step))
    ensures Stored(Apply(s, step), k) == Effect(s, step, k)
  {
    hide SysInv, Backed, Stored, FilesAfter, PutsAfter, GetsAfter, GcAfter, Safe;
    var u := Apply(s, step);
    if step.p in s.db.projects && step.p == k.project {
      NotStored(u, k);
    } else {
      StoredMoves(s, u, k);
    }
  }

  /** Deleting the entry at `id`, by a client or by the collector, forgets its key. */
  lemma ForgetRefines(s: Sys, step: Step, k: CacheKey)
    requires Enabled(s, step) && Safe(s) && (step.Delete? || step.EvictNext?)
    requires SysInv(Apply(s, step)) && Backed(Apply(s, step))
    ensures Stored(Apply(s, step), k) == Effect(s, step, k)
  {
    hide Stored, FilesAfter, PutsAfter, GetsAfter, GcAfter, Faithful, Counted, Sized, IdsBelow, RefSet;
    var u := Apply(s, step);
    var id := if step.Delete? then step.id else s.gc.todo[0];
    if id in s.db.entries && s.db.entries[id].key == k && (step.Delete? ==> step.project == k.project) {
      assert u.db.entries == s.db.entries - {id};
      NotStored(u, k);
    } else {
      StoredMoves(s, u, k);
    }
  }

  lemma CommitRefines(s: Sys, step: Step, k: CacheKey)
    requires Enabled(s, step) && Safe(s) && step.Commit?
    requires SysInv(Apply(s, step)) && Backed(Apply(s, step))
    ensures Stored(Apply(s, step), k) == Effect(s, step, k)
  {
    hide Stored, Candidates, Harmless, FilesAfter, PutsAfter, GetsAfter, GcAfter, Counted, Sized, RefSet, Upsert,
        UniqueKeys;
    var u := Apply(s, step);
    var put := s.puts[step.pid];
    var r := Upsert(s.db, put.key, Digest(put.body), |put.body|, step.now);
    UpsertFailsOnlyOnProject(s.db, put.key, Digest(put.body), |put.body|, step.now);
    if k.project !in s.db.projects {
      if r.Ok? {
        UpsertRows(s.db, put.key, Digest(put.body), |put.body|, step.now, k);
      }
      NoProjectNoEntry(s.db, k);
      NoProjectNoEntry(u.db, k);
      NotStored(s, k);
      NotStored(u, k);
    } else if r.Ok? {
      UpsertRows(s.db, put.key, Digest(put.body), |put.body|, step.now, k);
      if put.key == k {
        var id :| id in u.db.entries && u.db.entries[id].key == k && u.db.entries[id].hash == Digest(put.body);
        StoredAtEntry(u, k, id);
      } else {
        StoredMoves(s, u, k);
      }
    } else {
      StoredMoves(s, u, k);
    }
  }

  /** An upsert gives its key the new hash and leaves the rows of every other key as they were. */
  lemma UpsertRows(t: Db, key: CacheKey, h: Hash, size: nat, now: int, k: CacheKey)
    requires IdsBelow(t) && Upsert(t, key, h, size, now).Ok?
    ensures var u := Upsert(t, key, h, size, now).value;
            && u.projects == t.projects
            && (k == key ==> exists id :: id in u.entries && u.entries[id].key == k && u.entries[id].hash == h)
            && (k != key ==>
                  && (forall id :: id in t.entries && t.entries[id].key == k ==>
                        id in u.entries && u.entries[id].key == k && u.entries[id].hash == t.entries[id].hash)
                  && (forall id :: id in u.entries && u.entries[id].key == k ==>
                        id in t.entries && t.entries[id].key == k))
  {
    hide Decr, Incr;
    var u := Upsert(t, key, h, size, now).value;
    var id := if Find(t.entries, key).Some? then Find(t.entries, key).value else t.lastId + 1;
    assert id in u.entries && u.entries[id].key == key && u.entries[id].hash == h;
  }

  lemma NoProjectNoEntry(t: Db, k: CacheKey)
    requires Fk(t) && k.project !in t.projects
    ensures forall id :: id in t.entries ==> t.entries[id].key != k
  {
  }

  /** The step stores, deletes or evicts something at `k`. */
  ghost predicate Concerns(s: Sys, step: Step, k: CacheKey) {
    || (step.Commit? && step.pid in s.puts && s.puts[step.pid].key == k)
    || (step.Delete? && step.id in s.db.entries && s.db.entries[step.id].key == k)
    || (step.EvictNext? && s.gc.Evicting? && s.gc.todo != [] && s.gc.todo[0] in s.db.entries
        && s.db.entries[s.gc.todo[0]].key == k)
    || (step.RemoveProject? && step.p == k.project)
  }

  lemma UnconcernedKeepsStored(s: Sys, step: Step, k: CacheKey)
    requires Enabled(s, step) && Safe(s) && Guarded(s) && !Concerns(s, step, k)
    ensures Stored(Apply(s, step), k) == Stored(s, k)
  {
    hide Apply, Stored, Safe, Guarded;
    StepRefines(s, step, k);
  }

  ghost predicate Unconcerned(states: seq<Sys>, steps: seq<Step>, k: CacheKey, m: nat, n: nat)
    requires m <= n <= |steps| < |states|
  {
    forall i :: m <= i < n ==> !Concerns(states[i], steps[i], k)
  }

  /** In guarded runs what is stored at a key stays until the key is next written, deleted or evicted. */
  lemma {:induction false} StoredStays(states: seq<Sys>, steps: seq<Step>, k: CacheKey, m: nat, n: nat)
    requires IsRun(states, steps) && Safe(states[0]) && m <= n < |states|
    requires forall i :: 0 <= i < |states| ==> Guarded(states[i])
    requires Unconcerned(states, steps, k, m, n)
    ensures Stored(states[n], k) == Stored(states[m], k)
  {
    hide Apply, Enabled, Stored, Safe, Guarded, Concerns;
    if m < n {
      StoredStays(states, steps, k, m, n - 1);
      AlwaysSafe(states, steps, n - 1);
      UnconcernedKeepsStored(states[n - 1], steps[n - 1], k);
    }
  }

  // ----- GET, which reads twice -----

  /** What a GET that has found its entry gets when it opens the file. */
  function Opened(s: Sys, rid: nat): Option<Bytes>
    requires rid in s.gets
  {
    if s.gets[rid].hash in s.files then Some(s.files[s.gets[rid].hash]) else None
  }

  /** A GET of `k` finds an entry at step `m` and opens its file at step `n`. */
  ghost predicate IsGet(states: seq<Sys>, steps: seq<Step>, rid: nat, k: CacheKey, m: nat, n: nat) {
    && m < n < |steps| < |states|
    && steps[m] == FindEntry(rid, k) && Head(states[m], k).Some?
    && steps[n] == OpenFile(rid)
    && forall i :: m < i < n ==> steps[i] != OpenFile(rid) && !steps[i].Crash?
  }

  lemma FoundIsHead(s: Sys, rid: nat, k: CacheKey)
    requires Enabled(s, FindEntry(rid, k)) && Head(s, k).Some?
    ensures rid in Apply(s, FindEntry(rid, k)).gets
    ensures Apply(s, FindEntry(rid, k)).gets[rid] == Reading(k, Head(s, k).value)
  {
  }

  lemma ReadingStays(s: Sys, step: Step, rid: nat)
    requires Enabled(s, step) && rid in s.gets && step != OpenFile(rid) && !step.Crash?
    ensures rid in Apply(s, step).gets && Apply(s, step).gets[rid] == s.gets[rid]
  {
    hide DbAfter, FilesAfter, PutsAfter, GcAfter;
  }

  /** Between its two reads a GET remembers what it found. */
  lemma {:induction false} GetRemembers(states: seq<Sys>, steps: seq<Step>, rid: nat, k: CacheKey, m: nat, n: nat,
      i: nat)
    requires IsRun(states, steps) && IsGet(states, steps, rid, k, m, n) && m < i <= n
    ensures rid in states[i].gets && states[i].gets[rid] == Reading(k, Head(states[m], k).value)
    decreases i
  {
    hide Apply, Enabled, Head;
    if i == m + 1 {
      FoundIsHead(states[m], rid, k);
    } else {
      GetRemembers(states, steps, rid, k, m, n, i - 1);
      ReadingStays(states[i - 1], steps[i - 1], rid);
    }
  }

  /** `h` was unlinked in the steps from `m` up to `n` and not renamed into place since. */
  ghost predicate Gone(states: seq<Sys>, steps: seq<Step>, h: Hash, m: nat, n: nat)
    requires m <= n <= |steps| < |states|
  {
    exists i :: m <= i < n && Unlinks(steps[i], h) && forall j :: i < j < n ==> !Renames(states[j], steps[j], h)
  }

  lemma GoneStep(states: seq<Sys>, steps: seq<Step>, h: Hash, m: nat, n: nat)
    requires m <= n < |steps| < |states|
    ensures !Gone(states, steps, h, m, m)
    ensures Gone(states, steps, h, m, n + 1)
            <==> Unlinks(steps[n], h) || (Gone(states, steps, h, m, n) && !Renames(states[n], steps[n], h))
  {
    hide Unlinks, Renames;
    if Gone(states, steps, h, m, n) && !Renames(states[n], steps[n], h) {
      var i :| m <= i < n && Unlinks(steps[i], h) && forall j :: i < j < n ==> !Renames(states[j], steps[j], h);
      assert m <= i < n + 1 && Unlinks(steps[i], h);
    }
    if Gone(states, steps, h, m, n + 1) && !Unlinks(steps[n], h) {
      var i :| m <= i < n + 1 && Unlinks(steps[i], h) && forall j :: i < j < n + 1 ==> !Renames(states[j], steps[j], h);
      assert i < n && !Renames(states[n], steps[n], h);
    }
  }

  lemma RunStep(states: seq<Sys>, steps: seq<Step>, n: nat)
    requires IsRun(states, steps) && n < |steps|
    ensures n + 1 < |states| && Enabled(states[n], steps[n]) && states[n + 1] == Apply(states[n], steps[n])
  {
  }

  /** A file that was there is still there unless it was unlinked and not put back. */
  lemma {:induction false} ThereUnlessGone(states: seq<Sys>, steps: seq<Step>, h: Hash, m: nat, n: nat)
    requires IsRun(states, steps) && m <= n <= |steps| < |states| && h in states[m].files
    ensures h in states[n].files <==> !Gone(states, steps, h, m, n)
  {
    hide *;
    if m < n {
      RunStep(states, steps, n - 1);
      ThereUnlessGone(states, steps, h, m, n - 1);
      GoneStep(states, steps, h, m, n - 1);
      StepFiles(states[n - 1], steps[n - 1], h);
    } else {
      NothingGone(states, steps, h, m);
    }
  }

  lemma NothingGone(states: seq<Sys>, steps: seq<Step>, h: Hash, m: nat)
    requires m <= |steps| < |states|
    ensures !Gone(states, steps, h, m, m)
  {
  }

  lemma {:induction false} FilesStayFaithful(states: seq<Sys>, steps: seq<Step>, n: nat, h: Hash)
    requires IsRun(states, steps) && SysInv(states[0]) && n < |states| && h in states[n].files
    ensures states[n].files[h] == h.of
  {
    hide Apply, Enabled, Inv, Candidates;
    AlwaysInv(states, steps, n);
  }

  /**
   A GET in a guarded run answers with the body stored when it found the entry, whatever has happened since, and
   misses if and only if that file was unlinked in between and not put back.
   */
  lemma GetAnswers(states: seq<Sys>, steps: seq<Step>, rid: nat, k: CacheKey, m: nat, n: nat)
    requires IsRun(states, steps) && Safe(states[0]) && IsGet(states, steps, rid, k, m, n)
    requires forall i :: 0 <= i <= m ==> Guarded(states[i])
    ensures rid in states[n].gets && Stored(states[m], k).Some?
    ensures var body := Stored(states[m], k).value;
            Opened(states[n], rid) == if Gone(states, steps, Digest(body), m, n) then None else Some(body)
  {
    hide Apply, Enabled, Safe, Stored, Head, Guarded, Gone;
    AlwaysSafe(states, steps, m);
    SafeHasInv(states[0]);
    HeadIsDigestOfStored(states[m], k);
    GetRemembers(states, steps, rid, k, m, n, n);
    var body := Stored(states[m], k).value;
    var h := Digest(body);
    StoredHasFile(states[m], k, body);
    ThereUnlessGone(states, steps, h, m, n);
    if h in states[n].files {
      FilesStayFaithful(states, steps, n, h);
    }
  }

  lemma SafeHasInv(s: Sys)
    requires Safe(s)
    ensures SysInv(s)
  {
  }

  lemma StoredHasFile(s: Sys, k: CacheKey, body: Bytes)
    requires Safe(s) && Stored(s, k) == Some(body)
    ensures Digest(body) in s.files
  {
    hide Harmless, Backed, Candidates, Inv;
  }

  /** A guarded GET misses after finding an entry only if the key was overwritten, deleted or evicted in between. */
  lemma UnconcernedGetHits(states: seq<Sys>, steps: seq<Step>, rid: nat, k: CacheKey, m: nat, n: nat)
    requires IsRun(states, steps) && Safe(states[0]) && IsGet(states, steps, rid, k, m, n)
    requires forall i :: 0 <= i < |states| ==> Guarded(states[i])
    requires Unconcerned(states, steps, k, m, n)
    ensures rid in states[n].gets && Opened(states[n], rid) == Stored(states[m], k)
  {
    hide Apply, Enabled, Safe, Stored, Guarded, Gone, Concerns, Head;
    GetAnswers(states, steps, rid, k, m, n);
    AlwaysSafe(states, steps, n);
    StoredStays(states, steps, k, m, n);
    var body := Stored(states[m], k).value;
    StoredHasFile(states[n], k, body);
    AlwaysSafe(states, steps, m);
    StoredHasFile(states[m], k, body);
    ThereUnlessGone(states, steps, Digest(body), m, n);
  }

  /**
   In every guarded run a GET that starts after a commit returns exactly the committed body, provided the key is
   not written, deleted or evicted again before the GET opens its file.
   */
  lemma LastCommitWins(states: seq<Sys>, steps: seq<Step>, k: CacheKey, c: nat, rid: nat, m: nat, n: nat)
    requires IsRun(states, steps) && Safe(states[0]) && forall i :: 0 <= i < |states| ==> Guarded(states[i])
    requires c < m < n < |steps| && steps[c].Commit? && states[c].puts[steps[c].pid].key == k
    requires k.project in states[c].db.projects
    requires steps[m] == FindEntry(rid, k) && steps[n] == OpenFile(rid)
    requires forall i :: m < i < n ==> steps[i] != OpenFile(rid) && !steps[i].Crash?
    requires Unconcerned(states, steps, k, c + 1, n)
    ensures rid in states[n].gets && Opened(states[n], rid) == Some(states[c].puts[steps[c].pid].body)
  {
    hide Apply, Safe, Stored, Guarded, Concerns, Head, Gone;
    AlwaysSafe(states, steps, c);
    StepRefines(states[c], steps[c], k);
    StoredStays(states, steps, k, c + 1, m);
    AlwaysSafe(states, steps, m);
    HeadIsDigestOfStored(states[m], k);
    UnconcernedGetHits(states, steps, rid, k, m, n);
  }

  /** HEAD and GET that look at the entry in the same state agree: the ETag is the digest of the bytes GET returns. */
  lemma HeadAgreesWithGet(states: seq<Sys>, steps: seq<Step>, rid: nat, k: CacheKey, m: nat, n: nat)
    requires IsRun(states, steps) && Safe(states[0]) && IsGet(states, steps, rid, k, m, n)
    requires forall i :: 0 <= i <= m ==> Guarded(states[i])
    ensures rid in states[n].gets
    ensures Opened(states[n], rid).Some? ==> Head(states[m], k) == Some(Digest(Opened(states[n], rid).value))
  {
    hide Apply, Enabled, Safe, Stored, Guarded, Head, Gone;
    GetAnswers(states, steps, rid, k, m, n);
    AlwaysSafe(states, steps, m);
    HeadIsDigestOfStored(states[m], k);
  }
}
