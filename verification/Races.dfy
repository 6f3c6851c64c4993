/** Where uploads, reads, cleanup and the orphan scan collide, and exactly when they do not. */
module Races {
  import opened Prelude
  import opened Tables
  import opened Storage
  import opened Protocol
  import opened Serving
  import Sums

  /** No entry answers HEAD without its bytes being there. */
  ghost predicate NothingDangles(s: Sys) {
    forall k :: Head(s, k).Some? ==> Stored(s, k).Some?
  }

  lemma NothingDanglesIf(s: Sys)
    requires forall id :: id in s.db.entries ==> s.db.entries[id].hash in s.files
    ensures NothingDangles(s)
  {
  }

  lemma EntryDangles(s: Sys, id: int)
    requires UniqueKeys(s.db) && id in s.db.entries && s.db.entries[id].hash !in s.files
    ensures !NothingDangles(s)
  {
    var k := s.db.entries[id].key;
    FindIs(s.db, k, id);
    assert Head(s, k).Some? && Stored(s, k).None?;
  }

  // ----- when an unlink is safe -----

  /** The upload after `write_streamed` has returned. */
  ghost function Returned(s: Sys, pid: nat): Sys
    requires pid in s.puts
  {
    if s.puts[pid].stage.Checked? then Apply(s, Place(pid)) else s
  }

  /** The upload finishes and commits. */
  ghost function Finishing(s: Sys, pid: nat, now: int): Sys
    requires pid in s.puts
  {
    Apply(Returned(s, pid), Commit(pid, now))
  }

  lemma ReturnedIs(s: Sys, pid: nat)
    requires pid in s.puts && SysInv(s)
    ensures var u := Returned(s, pid);
            && SysInv(u) && u.db == s.db && pid in u.puts && u.puts[pid] == s.puts[pid].(stage := Placed)
            && (forall h :: h in s.files ==> h in u.files)
            && (forall h :: h in u.files ==> h in s.files || h == Digest(s.puts[pid].body))
            && (Digest(s.puts[pid].body) in u.files <==> !Relies(s.puts[pid]) || Digest(s.puts[pid].body) in s.files)
  {
    if s.puts[pid].stage.Checked? {
      StepKeepsInv(s, Place(pid));
    }
    hide SysInv;
  }

  lemma CommitDangles(u: Sys, pid: nat, now: int)
    requires SysInv(u) && Enabled(u, Commit(pid, now)) && u.puts[pid].key.project in u.db.projects
    requires Digest(u.puts[pid].body) !in u.files
    ensures !NothingDangles(Apply(u, Commit(pid, now)))
  {
    hide FilesAfter, PutsAfter, GetsAfter, GcAfter, Decr, Incr, RefSet, NothingDangles, Candidates, Faithful;
    var v := Apply(u, Commit(pid, now));
    var k, h := u.puts[pid].key, Digest(u.puts[pid].body);
    StepKeepsInv(u, Commit(pid, now));
    UpsertFailsOnlyOnProject(u.db, k, h, |u.puts[pid].body|, now);
    var id := if Find(u.db.entries, k).Some? then Find(u.db.entries, k).value else u.db.lastId + 1;
    StepFiles(u, Commit(pid, now), h);
    EntryDangles(v, id);
  }

  lemma CommitFine(u: Sys, pid: nat, now: int)
    requires SysInv(u) && Enabled(u, Commit(pid, now))
    requires forall id :: id in u.db.entries ==> u.db.entries[id].hash in u.files
    requires Digest(u.puts[pid].body) in u.files || u.puts[pid].key.project !in u.db.projects
    ensures NothingDangles(Apply(u, Commit(pid, now)))
  {
    hide FilesAfter, PutsAfter, GetsAfter, GcAfter, Decr, Incr, RefSet, NothingDangles, Candidates, Faithful;
    var v := Apply(u, Commit(pid, now));
    UpsertFailsOnlyOnProject(u.db, u.puts[pid].key, Digest(u.puts[pid].body), |u.puts[pid].body|, now);
    forall id | id in v.db.entries ensures v.db.entries[id].hash in v.files {
      StepHashes(u, Commit(pid, now), id);
      StepFiles(u, Commit(pid, now), v.db.entries[id].hash);
    }
    NothingDanglesIf(v);
  }

  /**
   Nobody needs the file of `h`: no entry, no upload into an existing project that relies on it, no GET about to open
   it.
   */
  ghost predicate Unneeded(s: Sys, h: Hash) {
    && RefSet(s.db.entries, h) == {}
    && (forall pid :: pid in s.puts && Relies(s.puts[pid]) && Digest(s.puts[pid].body) == h ==>
          s.puts[pid].key.project !in s.db.projects)
    && (h in s.files ==> forall rid :: rid in s.gets ==> s.gets[rid].hash != h)
  }

  /**
   Without the file of `h` nothing dangles, now or after whichever upload commits next, and every GET goes on as it
   would have.
   */
  ghost predicate UnlinkHarmless(s: Sys, h: Hash) {
    var u := s.(files := s.files - {h});
    && NothingDangles(u)
    && (forall pid, now :: pid in u.puts ==> NothingDangles(Finishing(u, pid, now)))
    && (forall rid :: rid in u.gets ==> Opened(u, rid) == Opened(s, rid))
  }

  /** Unlinking is harmless if and only if nobody needs the file. */
  lemma UnlinkSafeIff(s: Sys, h: Hash)
    requires SysInv(s) && Backed(s)
    ensures UnlinkHarmless(s, h) <==> Unneeded(s, h)
  {
    if Unneeded(s, h) {
      UnneededIsHarmless(s, h);
    } else {
      NeededIsHarmful(s, h);
    }
  }

  lemma WithoutFileInv(s: Sys, h: Hash)
    requires SysInv(s)
    ensures SysInv(s.(files := s.files - {h}))
  {
  }

  lemma UnneededIsHarmless(s: Sys, h: Hash)
    requires SysInv(s) && Backed(s) && Unneeded(s, h)
    ensures UnlinkHarmless(s, h)
  {
    hide SysInv, NothingDangles;
    var u := s.(files := s.files - {h});
    WithoutFileInv(s, h);
    forall id | id in u.db.entries ensures u.db.entries[id].hash in u.files {
      assert id !in RefSet(s.db.entries, h);
    }
    NothingDanglesIf(u);
    forall pid, now | pid in u.puts ensures NothingDangles(Finishing(u, pid, now)) {
      ReturnedIs(u, pid);
      CommitFine(Returned(u, pid), pid, now);
    }
  }

  lemma NeededIsHarmful(s: Sys, h: Hash)
    requires SysInv(s) && Backed(s) && !Unneeded(s, h)
    ensures !UnlinkHarmless(s, h)
  {
    hide NothingDangles, Finishing, Returned, Candidates, Faithful;
    var u := s.(files := s.files - {h});
    WithoutFileInv(s, h);
    if RefSet(s.db.entries, h) != {} {
      Sums.NonEmpty(RefSet(s.db.entries, h));
      var id :| id in RefSet(s.db.entries, h);
      EntryDangles(u, id);
    } else if rid :| h in s.files && rid in s.gets && s.gets[rid].hash == h {
      assert Opened(u, rid) != Opened(s, rid);
    } else {
      var pid :| pid in s.puts && Relies(s.puts[pid]) && Digest(s.puts[pid].body) == h
                 && s.puts[pid].key.project in s.db.projects;
      FinishingDangles(u, pid);
    }
  }

  lemma FinishingDangles(u: Sys, pid: nat)
    requires SysInv(u) && pid in u.puts && Relies(u.puts[pid]) && u.puts[pid].key.project in u.db.projects
    requires Digest(u.puts[pid].body) !in u.files
    ensures !NothingDangles(Finishing(u, pid, 0))
  {
    hide SysInv, NothingDangles;
    ReturnedIs(u, pid);
    CommitDangles(Returned(u, pid), pid, 0);
  }

  // ----- the orphan scan's purge -----

  /** A purge makes something stored disappear if and only if the hash is referenced and its file is there after all. */
  lemma PurgeForgetsIff(s: Sys, h: Hash)
    requires SysInv(s) && Enabled(s, PurgeOrphan(h))
    ensures (exists k :: Stored(s, k).Some? && Stored(Apply(s, PurgeOrphan(h)), k).None?)
            <==> RefSet(s.db.entries, h) != {} && h in s.files
  {
    hide Candidates, Faithful, Counted, Sized, IdsBelow;
    var u := Apply(s, PurgeOrphan(h));
    assert u.files == s.files && u.db.entries == Purge(s.db, {h}).entries;
    if RefSet(s.db.entries, h) != {} && h in s.files {
      Sums.NonEmpty(RefSet(s.db.entries, h));
      var id :| id in RefSet(s.db.entries, h);
      var k := s.db.entries[id].key;
      FindIs(s.db, k, id);
      NotStored(u, k);
      assert Stored(s, k).Some? && Stored(u, k).None?;
    }
    if k :| Stored(s, k).Some? && Stored(u, k).None? {
      var id := Find(s.db.entries, k).value;
      PurgedEntry(s, u, h, k, id);
    }
  }

  lemma PurgedEntry(s: Sys, u: Sys, h: Hash, k: CacheKey, id: int)
    requires UniqueKeys(s.db) && u.files == s.files && u.db.entries == Purge(s.db, {h}).entries
    requires Find(s.db.entries, k) == Some(id) && Stored(s, k).Some? && Stored(u, k).None?
    ensures id in RefSet(s.db.entries, h) && h in s.files
  {
    if s.db.entries[id].hash != h {
      assert id in u.db.entries && u.db.entries[id] == s.db.entries[id];
      assert UniqueKeys(u.db);
      FindIs(u.db, k, id);
    }
  }

  predicate OnDisk(gc: Collector, names: set<Hash>) {
    (gc.Walked? || gc.Scanning?) && gc.onDisk == names
  }

  lemma ScanningGoesOn(s: Sys, step: Step)
    requires Enabled(s, step)
    ensures var gc := Apply(s, step).gc;
            gc.Walked? || gc.Scanning? ==>
              (step == Walk && OnDisk(gc, s.files.Keys))
              || (step != Walk && (s.gc.Walked? || s.gc.Scanning?) && OnDisk(gc, s.gc.onDisk))
  {
    hide DbAfter, FilesAfter, PutsAfter, GetsAfter;
  }

  /** A scan works with the names of one directory walk. */
  ghost predicate WalkedAt(states: seq<Sys>, steps: seq<Step>, m: nat, n: nat) {
    && m < n <= |steps| < |states| && steps[m] == Walk
    && OnDisk(states[n].gc, states[m].files.Keys)
    && forall j :: m < j < n ==> steps[j] != Walk
  }

  lemma {:induction false} ScanHasWalked(states: seq<Sys>, steps: seq<Step>, n: nat)
    requires IsRun(states, steps) && n <= |steps|
    requires !states[0].gc.Walked? && !states[0].gc.Scanning? && (states[n].gc.Walked? || states[n].gc.Scanning?)
    ensures exists m: nat :: WalkedAt(states, steps, m, n)
  {
    hide Apply, Enabled;
    var s, step := states[n - 1], steps[n - 1];
    ScanningGoesOn(s, step);
    if step == Walk {
      assert WalkedAt(states, steps, n - 1, n);
    } else {
      ScanHasWalked(states, steps, n - 1);
      var m: nat :| WalkedAt(states, steps, m, n - 1);
      assert WalkedAt(states, steps, m, n);
    }
  }

  /** A file that appears was renamed into place. */
  lemma {:induction false} AppearsByRename(states: seq<Sys>, steps: seq<Step>, h: Hash, m: nat, n: nat)
    requires IsRun(states, steps) && m <= n <= |steps| && h !in states[m].files && h in states[n].files
    ensures exists i: nat :: m <= i < n && Renames(states[i], steps[i], h)
    decreases n
  {
    hide Apply, Enabled, Renames, Unlinks;
    if m < n {
      StepFiles(states[n - 1], steps[n - 1], h);
      if h in states[n - 1].files {
        AppearsByRename(states, steps, h, m, n - 1);
      }
    }
  }

  /** The scan purges a hash whose file is there only if an upload put the file there after the scan's walk. */
  lemma WrongPurgeNeedsUpload(states: seq<Sys>, steps: seq<Step>, n: nat, h: Hash)
    requires IsRun(states, steps) && !states[0].gc.Walked? && !states[0].gc.Scanning?
    requires n < |steps| && steps[n] == PurgeOrphan(h) && h in states[n].files
    ensures exists m: nat, i: nat :: WalkedAt(states, steps, m, n) && m < i < n && Renames(states[i], steps[i], h)
  {
    hide Apply, Renames;
    ScanHasWalked(states, steps, n);
    var m: nat :| WalkedAt(states, steps, m, n);
    AppearsByRename(states, steps, h, m, n);
    var i: nat :| m <= i < n && Renames(states[i], steps[i], h);
    WalkRenamesNothing(states[m], h);
  }

  lemma WalkRenamesNothing(s: Sys, h: Hash)
    ensures !Renames(s, Walk, h)
  {
  }

  // ----- three short runs -----

  lemma FiveSteps(s0: Sys, s1: Sys, s2: Sys, s3: Sys, s4: Sys, s5: Sys, e: seq<Step>)
    requires |e| == 5
    requires Enabled(s0, e[0]) && s1 == Apply(s0, e[0]) && Enabled(s1, e[1]) && s2 == Apply(s1, e[1])
    requires Enabled(s2, e[2]) && s3 == Apply(s2, e[2]) && Enabled(s3, e[3]) && s4 == Apply(s3, e[3])
    requires Enabled(s4, e[4]) && s5 == Apply(s4, e[4])
    ensures IsRun([s0, s1, s2, s3, s4, s5], e)
  {
    hide Enabled, Apply;
  }

  lemma SixSteps(s0: Sys, s1: Sys, s2: Sys, s3: Sys, s4: Sys, s5: Sys, s6: Sys, e: seq<Step>)
    requires |e| == 6
    requires Enabled(s0, e[0]) && s1 == Apply(s0, e[0]) && Enabled(s1, e[1]) && s2 == Apply(s1, e[1])
    requires Enabled(s2, e[2]) && s3 == Apply(s2, e[2]) && Enabled(s3, e[3]) && s4 == Apply(s3, e[3])
    requires Enabled(s4, e[4]) && s5 == Apply(s4, e[4]) && Enabled(s5, e[5]) && s6 == Apply(s5, e[5])
    ensures IsRun([s0, s1, s2, s3, s4, s5, s6], e)
  {
    hide Enabled, Apply;
  }

  /**
   An upload finds its content already stored, cleanup removes that dead blob before the upload commits, and the
   commit leaves an entry for which HEAD answers and GET misses.
   */
  lemma CleanupRace(k: CacheKey, body: Bytes, row: Project)
    ensures var h := Digest(body);
            var start := Sys(Db(map[k.project := row], map[], map[h := Blob(|body|, 0)], 0), map[h :=
                body], map[], map[], Idle);
            var steps := [Check(0, k, body), FetchDead({h}), UnlinkDead(h), DropRow(h), Place(0), Commit(0, 0)];
            && Safe(start)
            && exists states :: IsRun(states, steps) && states[0] == start
                                && Head(states[6], k) == Some(h) && Stored(states[6], k) == None
  {
    hide *;
    var h := Digest(body);
    var ps := map[k.project := row];
    var t, dropped := Db(ps, map[], map[h := Blob(|body|, 0)], 0), Db(ps, map[], map[], 0);
    var checked, placed := map[0 := Put(k, body, Checked(true))], map[0 := Put(k, body, Placed)];
    var s0 := Sys(t, map[h := body], map[], map[], Idle);
    var s1 := Sys(t, map[h := body], checked, map[], Idle);
    var s2 := Sys(t, map[h := body], checked, map[], Cleaning({h}));
    var s3 := Sys(t, map[], checked, map[], Cleaning({h}));
    var s4 := Sys(dropped, map[], checked, map[], Cleaning({}));
    var s5 := Sys(dropped, map[], placed, map[], Cleaning({}));
    var steps := [Check(0, k, body), FetchDead({h}), UnlinkDead(h), DropRow(h), Place(0), Commit(0, 0)];
    RaceStarts(s0, s1, s2, k, body, row);
    RaceUnlinks(s2, s3, k, body);
    RaceDrops(s3, s4, k, body);
    RaceReturns(s4, s5, k, body);
    RaceEnds(s5, k, body, row);
    SixSteps(s0, s1, s2, s3, s4, s5, Apply(s5, Commit(0, 0)), steps);
  }

  lemma RaceStarts(s: Sys, u: Sys, v: Sys, k: CacheKey, body: Bytes, row: Project)
    requires s == Sys(Db(map[k.project := row], map[], map[Digest(body) := Blob(|body|, 0)], 0),
                      map[Digest(body) := body], map[], map[], Idle)
    requires u == s.(puts := map[0 := Put(k, body, Checked(true))]) && v == u.(gc := Cleaning({Digest(body)}))
    ensures Safe(s) && Enabled(s, Check(0, k, body)) && Apply(s, Check(0, k, body)) == u
    ensures Enabled(u, FetchDead({Digest(body)})) && Apply(u, FetchDead({Digest(body)})) == v
  {
    assert RefSet(s.db.entries, Digest(body)) == {};
  }

  lemma RaceUnlinks(s: Sys, u: Sys, k: CacheKey, body: Bytes)
    requires s.gc == Cleaning({Digest(body)}) && s.files == map[Digest(body) := body] && u == s.(files := map[])
    ensures Enabled(s, UnlinkDead(Digest(body))) && Apply(s, UnlinkDead(Digest(body))) == u
  {
    assert s.files - {Digest(body)} == map[];
  }

  lemma RaceDrops(s: Sys, u: Sys, k: CacheKey, body: Bytes)
    requires s.gc == Cleaning({Digest(body)}) && s.db.entries == map[]
        && s.db.blobs == map[Digest(body) := Blob(|body|, 0)]
    requires u == s.(db := s.db.(blobs := map[]), gc := Cleaning({}))
    ensures Enabled(s, DropRow(Digest(body))) && Apply(s, DropRow(Digest(body))) == u
  {
    assert RefSet(s.db.entries, Digest(body)) == {};
    assert s.db.blobs - {Digest(body)} == map[];
    assert {Digest(body)} - {Digest(body)} == {};
  }

  lemma RaceReturns(s: Sys, u: Sys, k: CacheKey, body: Bytes)
    requires s.puts == map[0 := Put(k, body, Checked(true))] && u == s.(puts := map[0 := Put(k, body, Placed)])
    ensures Enabled(s, Place(0)) && Apply(s, Place(0)) == u
  {
  }

  lemma RaceEnds(s: Sys, k: CacheKey, body: Bytes, row: Project)
    requires s == Sys(Db(map[k.project := row], map[], map[], 0), map[], map[0 :=
        Put(k, body, Placed)], map[], Cleaning({}))
    ensures Enabled(s, Commit(0, 0))
    ensures Head(Apply(s, Commit(0, 0)), k) == Some(Digest(body)) && Stored(Apply(s, Commit(0, 0)), k) == None
  {
    FirstEntry(s, k, body, row);
    var u := Apply(s, Commit(0, 0));
    FindIs(u.db, k, 1);
  }

  /** Committing into tables without entries. */
  lemma FirstEntry(s: Sys, k: CacheKey, body: Bytes, row: Project)
    requires s.db == Db(map[k.project := row], map[], map[], 0) && s.puts == map[0 := Put(k, body, Placed)]
    ensures Enabled(s, Commit(0, 0))
    ensures Apply(s, Commit(0, 0))
            == s.(db := Db(s.db.projects, map[1 := Entry(k, Digest(body), |body|, 0, 0, false)],
                           map[Digest(body) := Blob(|body|, 1)], 1),
                  puts := map[])
  {
    FindMisses(s.db, k);
    assert s.puts - {0} == map[];
  }

  /**
   The orphan scan has a race of its own: an upload placed and committed between its two readings looks like a row
   without a file, and the scan purges a committed entry whose file is there.
   */
  lemma ScanRace(k: CacheKey, body: Bytes, row: Project)
    ensures var h := Digest(body);
            var start := Sys(Db(map[k.project := row], map[], map[], 0), map[], map[], map[], Idle);
            var steps := [Walk, Check(0, k, body), Place(0), Commit(0, 0), ReadRows, PurgeOrphan(h)];
            && Safe(start)
            && exists states: seq<Sys> :: IsRun(states, steps) && states[0] == start
                                          && Stored(states[5], k) == Some(body)
                                          && Head(states[6], k) == None && h in states[6].files
  {
    hide *;
    var h := Digest(body);
    var t := Db(map[k.project := row], map[], map[], 0);
    var full := Db(map[k.project := row], map[1 := Entry(k, h, |body|, 0, 0, false)], map[h := Blob(|body|, 1)], 1);
    var s0 := Sys(t, map[], map[], map[], Idle);
    var s5 := Sys(full, map[h := body], map[], map[], Scanning({}, {h}));
    ScanRacePurges(s5, k, body);
    ScanRaceReaches(s0, s5, t, full, k, body, row);
  }

  lemma ScanRaceReaches(s0: Sys, s5: Sys, t: Db, full: Db, k: CacheKey, body: Bytes, row: Project)
    requires t == Db(map[k.project := row], map[], map[], 0)
    requires full == Db(t.projects, map[1 := Entry(k, Digest(body), |body|, 0, 0, false)],
                        map[Digest(body) := Blob(|body|, 1)], 1)
    requires s0 == Sys(t, map[], map[], map[], Idle)
    requires s5 == Sys(full, map[Digest(body) := body], map[], map[], Scanning({}, {Digest(body)}))
    requires Enabled(s5, PurgeOrphan(Digest(body)))
    ensures Safe(s0)
    ensures var steps := [Walk, Check(0, k, body), Place(0), Commit(0, 0), ReadRows, PurgeOrphan(Digest(body))];
            exists states :: IsRun(states, steps) && states[0] == s0 && states[5] == s5
                             && states[6] == Apply(s5, PurgeOrphan(Digest(body)))
  {
    hide *;
    var s1 := s0.(gc := Walked({}));
    var s2 := s1.(puts := map[0 := Put(k, body, Checked(false))]);
    var s3 := s2.(files := map[Digest(body) := body], puts := map[0 := Put(k, body, Placed)]);
    var s4 := s3.(db := full, puts := map[]);
    ScanRaceStarts(s0, s1, k, body, row);
    ScanRacePlaces(s1, s2, s3, k, body);
    ScanRaceCommits(s3, s4, k, body, row);
    ScanRaceReads(s4, s5, body);
    var steps := [Walk, Check(0, k, body), Place(0), Commit(0, 0), ReadRows, PurgeOrphan(Digest(body))];
    SixSteps(s0, s1, s2, s3, s4, s5, Apply(s5, PurgeOrphan(Digest(body))), steps);
  }

  lemma ScanRaceStarts(s: Sys, u: Sys, k: CacheKey, body: Bytes, row: Project)
    requires s == Sys(Db(map[k.project := row], map[], map[], 0), map[], map[], map[], Idle)
        && u == s.(gc := Walked({}))
    ensures Safe(s) && Enabled(s, Walk) && Apply(s, Walk) == u
  {
    assert s.files.Keys == {};
  }

  lemma ScanRacePlaces(s: Sys, u: Sys, v: Sys, k: CacheKey, body: Bytes)
    requires s.files == map[] && s.puts == map[] && u == s.(puts := map[0 := Put(k, body, Checked(false))])
    requires v == u.(files := map[Digest(body) := body], puts := map[0 := Put(k, body, Placed)])
    ensures Enabled(s, Check(0, k, body)) && Apply(s, Check(0, k, body)) == u
    ensures Enabled(u, Place(0)) && Apply(u, Place(0)) == v
  {
  }

  lemma ScanRaceCommits(s: Sys, u: Sys, k: CacheKey, body: Bytes, row: Project)
    requires s.db == Db(map[k.project := row], map[], map[], 0) && s.puts == map[0 := Put(k, body, Placed)]
    requires u.db == Db(s.db.projects, map[1 := Entry(k, Digest(body), |body|, 0, 0, false)],
                        map[Digest(body) := Blob(|body|, 1)], 1)
    requires u == s.(db := u.db, puts := map[])
    ensures Enabled(s, Commit(0, 0)) && Apply(s, Commit(0, 0)) == u
  {
    hide Enabled, Apply;
    FirstEntry(s, k, body, row);
  }

  lemma ScanRaceReads(s: Sys, u: Sys, body: Bytes)
    requires s.gc == Walked({}) && s.db.blobs.Keys == {Digest(body)} && u == s.(gc := Scanning({}, {Digest(body)}))
    ensures Enabled(s, ReadRows) && Apply(s, ReadRows) == u
  {
  }

  lemma ScanRacePurges(s: Sys, k: CacheKey, body: Bytes)
    requires s.gc == Scanning({}, {Digest(body)}) && s.files == map[Digest(body) := body]
    requires s.db.entries == map[1 := Entry(k, Digest(body), |body|, 0, 0, false)]
    ensures Stored(s, k) == Some(body)
    ensures Enabled(s, PurgeOrphan(Digest(body)))
    ensures var u := Apply(s, PurgeOrphan(Digest(body))); Head(u, k) == None && Digest(body) in u.files
  {
    FindIs(s.db, k, 1);
    NotStored(Apply(s, PurgeOrphan(Digest(body))), k);
  }

  /** One entry at `k` holding `a`, and an upload of `b` to `k` about to commit. */
  function Overwriting(k: CacheKey, a: Bytes, b: Bytes, row: Project): Sys {
    Sys(Db(map[k.project := row], map[1 := Entry(k, Digest(a), |a|, 0, 0, false)], map[Digest(a) := Blob(|a|, 1)], 1),
        map[Digest(a) := a, Digest(b) := b], map[0 := Put(k, b, Placed)], map[], Idle)
  }

  function Overwritten(k: CacheKey, a: Bytes, b: Bytes, row: Project): Db {
    Db(map[k.project := row], map[1 := Entry(k, Digest(b), |b|, 0, 0, false)],
       map[Digest(a) := Blob(|a|, 0), Digest(b) := Blob(|b|, 1)], 1)
  }

  /**
   A GET is not one read: in a guarded run in which something is stored at the key in every state, an overwrite and
   a cleanup between its two reads make it miss.
   */
  lemma GetRace(k: CacheKey, a: Bytes, b: Bytes, row: Project)
    requires a != b
    ensures var steps := [FindEntry(0, k), Commit(0, 0), FetchDead({Digest(a)}), UnlinkDead(Digest(a)), OpenFile(0)];
            && Safe(Overwriting(k, a, b, row))
            && exists states: seq<Sys> ::
                 && IsRun(states, steps) && states[0] == Overwriting(k, a, b, row)
                 && (forall i :: 0 <= i < |states| ==> Guarded(states[i]) && Stored(states[i], k).Some?)
                 && 0 in states[4].gets && Opened(states[4], 0) == None
  {
    hide Enabled, Apply, Safe, Guarded, Stored, IsRun;
    var s0, t := Overwriting(k, a, b, row), Overwritten(k, a, b, row);
    var found := map[0 := Reading(k, Digest(a))];
    var fs := map[Digest(a) := a, Digest(b) := b];
    var s1 := s0.(gets := found);
    var s2 := Sys(t, fs, map[], found, Idle);
    var s3 := Sys(t, fs, map[], found, Cleaning({Digest(a)}));
    var s4 := Sys(t, map[Digest(b) := b], map[], found, Cleaning({Digest(a)}));
    var s5 := s4.(gets := map[]);
    var steps := [FindEntry(0, k), Commit(0, 0), FetchDead({Digest(a)}), UnlinkDead(Digest(a)), OpenFile(0)];
    assert 0 in s4.gets && Opened(s4, 0) == None;
    GetRaceStarts(s0, s1, k, a, b, row);
    GetRaceCommits(s1, s2, k, a, b, row);
    GetRaceCleans(s2, s3, s4, k, a, b, row);
    GetRaceEnds(s4, s5, k, a, b, row);
    FiveSteps(s0, s1, s2, s3, s4, s5, steps);
  }

  lemma GetRaceStarts(s: Sys, u: Sys, k: CacheKey, a: Bytes, b: Bytes, row: Project)
    requires a != b && s == Overwriting(k, a, b, row) && u == s.(gets := map[0 := Reading(k, Digest(a))])
    ensures Safe(s) && Enabled(s, FindEntry(0, k)) && Apply(s, FindEntry(0, k)) == u
    ensures Guarded(s) && Stored(s, k).Some? && Guarded(u) && Stored(u, k).Some?
  {
    assert RefSet(s.db.entries, Digest(a)) == {1};
    FindIs(s.db, k, 1);
  }

  lemma GetRaceCommits(s: Sys, u: Sys, k: CacheKey, a: Bytes, b: Bytes, row: Project)
    requires a != b && s == Overwriting(k, a, b, row).(gets := s.gets)
    requires u == Sys(Overwritten(k, a, b, row), s.files, map[], s.gets, Idle)
    ensures Enabled(s, Commit(0, 0)) && Apply(s, Commit(0, 0)) == u
    ensures Guarded(u) && Stored(u, k).Some?
  {
    FindIs(s.db, k, 1);
    FindIs(u.db, k, 1);
    assert s.puts - {0} == map[];
    var dead := s.db.blobs[Digest(a) := s.db.blobs[Digest(a)].(refcount := 0)];
    assert dead == map[Digest(a) := Blob(|a|, 0)];
    assert Decr(s.db.blobs, Digest(a)) == Ok(dead);
    assert Incr(dead, Digest(b), |b|) == u.db.blobs;
    assert s.db.entries[1 := s.db.entries[1].(hash := Digest(b), size := |b|, accessed := 0)] == u.db.entries;
  }

  lemma GetRaceCleans(s: Sys, u: Sys, v: Sys, k: CacheKey, a: Bytes, b: Bytes, row: Project)
    requires a != b && s.db == Overwritten(k, a, b, row) && s.files == map[Digest(a) := a, Digest(b) := b]
    requires s.puts == map[] && s.gc == Idle
    requires u == s.(gc := Cleaning({Digest(a)})) && v == u.(files := map[Digest(b) := b])
    ensures Enabled(s, FetchDead({Digest(a)})) && Apply(s, FetchDead({Digest(a)})) == u
    ensures Enabled(u, UnlinkDead(Digest(a))) && Apply(u, UnlinkDead(Digest(a))) == v
    ensures Guarded(u) && Stored(u, k).Some? && Guarded(v) && Stored(v, k).Some?
  {
    FindIs(s.db, k, 1);
    assert s.files - {Digest(a)} == v.files;
  }

  lemma GetRaceEnds(s: Sys, u: Sys, k: CacheKey, a: Bytes, b: Bytes, row: Project)
    requires s.db == Overwritten(k, a, b, row) && s.files == map[Digest(b) := b] && s.puts == map[]
    requires s.gets == map[0 := Reading(k, Digest(a))] && u == s.(gets := map[]) && s.gc == Cleaning({Digest(a)})
    ensures Enabled(s, OpenFile(0)) && Apply(s, OpenFile(0)) == u
    ensures Guarded(u) && Stored(u, k).Some?
  {
    FindIs(u.db, k, 1);
    assert s.gets - {0} == map[];
  }
}
