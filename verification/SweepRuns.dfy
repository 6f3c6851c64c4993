/** A sweep with nothing beside it is a run of the server's machine, taken by the collector alone. */
module SweepRuns {
  import opened Prelude
  import opened Ordering
  import opened Tables
  import opened Evictions
  import opened Protocol
  import Gc
  import Sums

  predicate Collects(step: Step) {
    || step.Fetch? || step.EvictNext? || step.Stop? || step.FetchDead? || step.UnlinkDead? || step.DropRow?
    || step.Walk? || step.ReadRows? || step.UnlinkOrphan? || step.PurgeOrphan?
  }

  /** Taking the steps one after the other leads from `s` to `u`, and all of them are the collector's. */
  ghost predicate LeadsTo(s: Sys, steps: seq<Step>, u: Sys)
    decreases |steps|
  {
    if steps == [] then s == u
    else Collects(steps[0]) && Enabled(s, steps[0]) && LeadsTo(Apply(s, steps[0]), steps[1..], u)
  }

  /** The collector alone can go from `s` to `u`. */
  ghost predicate Reach(s: Sys, u: Sys) {
    exists steps :: LeadsTo(s, steps, u)
  }

  /** Such a sequence of steps is a run. */
  lemma {:induction false} LeadsByRun(s: Sys, steps: seq<Step>, u: Sys) returns (states: seq<Sys>)
    requires LeadsTo(s, steps, u)
    ensures IsRun(states, steps) && states[0] == s && states[|steps|] == u
    decreases |steps|
  {
    hide Enabled, Apply;
    if steps == [] {
      states := [s];
    } else {
      var rest := LeadsByRun(Apply(s, steps[0]), steps[1..], u);
      states := [s] + rest;
      forall i | 0 <= i < |steps|
        ensures Enabled(states[i], steps[i]) && states[i + 1] == Apply(states[i], steps[i])
      {
        if i > 0 {
          assert states[i] == rest[i - 1] && states[i + 1] == rest[i] && steps[1..][i - 1] == steps[i];
        }
      }
    }
  }

  lemma {:induction false} LeadsOn(s: Sys, a: seq<Step>, u: Sys, b: seq<Step>, v: Sys)
    requires LeadsTo(s, a, u) && LeadsTo(u, b, v)
    ensures LeadsTo(s, a + b, v)
    decreases |a|
  {
    hide Enabled, Apply, Collects;
    if a == [] {
      assert a + b == b;
    } else {
      LeadsOn(Apply(s, a[0]), a[1..], u, b, v);
      assert (a + b)[1..] == a[1..] + b;
    }
  }

  lemma ReachNothing(s: Sys)
    ensures Reach(s, s)
  {
    assert LeadsTo(s, [], s);
  }

  lemma ReachOn(s: Sys, u: Sys, v: Sys)
    requires Reach(s, u) && Reach(u, v)
    ensures Reach(s, v)
  {
    hide LeadsTo;
    var a :| LeadsTo(s, a, u);
    var b :| LeadsTo(u, b, v);
    LeadsOn(s, a, u, b, v);
  }

  lemma ReachStep(s: Sys, step: Step)
    requires Collects(step) && Enabled(s, step)
    ensures Reach(s, Apply(s, step))
  {
    hide Enabled, Apply, Collects;
    assert LeadsTo(Apply(s, step), [step][1..], Apply(s, step));
    assert LeadsTo(s, [step], Apply(s, step));
  }

  // ----- one fetch and the evictions after it -----

  lemma {:induction false} DrainReaches(s: Sys, n: nat)
    requires Undisturbed(s, n)
    ensures Reach(s, Drain(s, n))
    decreases n
  {
    hide Undisturbed, Apply, Enabled, LeadsTo, Reach;
    if n == 0 {
      ReachNothing(s);
    } else {
      NextStaysUndisturbed(s, n);
      ReachStep(s, EvictNext);
      DrainReaches(Apply(s, EvictNext), n - 1);
      ReachOn(s, Apply(s, EvictNext), Drain(s, n));
    }
  }

  /** Between phases: only the tables have moved. */
  function At(s: Sys, t: Db, gc: Collector): Sys {
    s.(db := t, gc := gc)
  }

  ghost predicate Listable(t: Db, todo: seq<int>) {
    && (forall i, j :: 0 <= i < j < |todo| ==> todo[i] != todo[j])
    && (forall i :: 0 <= i < |todo| ==> todo[i] in t.entries && !t.entries[todo[i]].pinned)
  }

  predicate BetweenFetches(gc: Collector) {
    gc.Idle? || gc.Evicting?
  }

  /** A phase that lists `todo` and takes its first `n` evicts them. */
  lemma FetchAndDrain(s: Sys, t: Db, gc: Collector, todo: seq<int>, n: nat)
    requires Fk(t) && BetweenFetches(gc) && Listable(t, todo) && n <= |todo|
    ensures Reach(At(s, t, gc), At(s, Evict(t, Elements(todo[..n])), Evicting(todo[n..], t.entries)))
  {
    hide Reach, Undisturbed, Evict, LeadsTo;
    var u := At(s, t, gc);
    var v := At(s, t, Evicting(todo, t.entries));
    FetchIs(u, v, todo, n);
    ReachStep(u, Fetch(todo));
    DrainReaches(v, n);
    DrainIsEvict(v, n);
    ReachOn(u, v, Drain(v, n));
  }

  lemma FetchIs(u: Sys, v: Sys, todo: seq<int>, n: nat)
    requires Fk(u.db) && BetweenFetches(u.gc) && Listable(u.db, todo) && n <= |todo|
    requires v == u.(gc := Evicting(todo, u.db.entries))
    ensures Enabled(u, Fetch(todo)) && Apply(u, Fetch(todo)) == v && Undisturbed(v, n)
  {
  }

  /** From `gc` with tables `t` the collector can go to some point between fetches with tables `u`. */
  ghost predicate Arrives(s: Sys, t: Db, gc: Collector, u: Db) {
    exists after :: BetweenFetches(after) && Reach(At(s, t, gc), At(s, u, after))
  }

  ghost predicate Sweeps(s: Sys, t: Db, u: Db) {
    forall gc :: BetweenFetches(gc) ==> Arrives(s, t, gc, u)
  }

  lemma SweepsNothing(s: Sys, t: Db)
    ensures Sweeps(s, t, t)
  {
    hide Reach;
    forall gc | BetweenFetches(gc) ensures Arrives(s, t, gc, t) {
      ReachNothing(At(s, t, gc));
    }
  }

  lemma ArrivesOn(s: Sys, t: Db, gc: Collector, u: Db, v: Db)
    requires Arrives(s, t, gc, u) && Sweeps(s, u, v)
    ensures Arrives(s, t, gc, v)
  {
    hide Reach, At, BetweenFetches;
    var mid :| BetweenFetches(mid) && Reach(At(s, t, gc), At(s, u, mid));
    assert Arrives(s, u, mid, v);
    var after :| BetweenFetches(after) && Reach(At(s, u, mid), At(s, v, after));
    ReachOn(At(s, t, gc), At(s, u, mid), At(s, v, after));
  }

  lemma SweepsOn(s: Sys, t: Db, u: Db, v: Db)
    requires Sweeps(s, t, u) && Sweeps(s, u, v)
    ensures Sweeps(s, t, v)
  {
    hide Arrives, BetweenFetches;
    forall gc | BetweenFetches(gc) ensures Arrives(s, t, gc, v) {
      ArrivesOn(s, t, gc, u, v);
    }
  }

  lemma PhaseSweeps(s: Sys, t: Db, todo: seq<int>, n: nat)
    requires Fk(t) && Listable(t, todo) && n <= |todo|
    ensures Sweeps(s, t, Evict(t, Elements(todo[..n])))
  {
    hide Reach, Evict, At, Listable, Fk;
    var u := Evict(t, Elements(todo[..n]));
    forall gc | BetweenFetches(gc) ensures Arrives(s, t, gc, u) {
      FetchAndDrain(s, t, gc, todo, n);
      assert BetweenFetches(Evicting(todo[n..], t.entries));
    }
  }

  // ----- the three eviction phases -----

  lemma {:induction false} Listing(s: set<int>) returns (ids: seq<int>)
    ensures Elements(ids) == s && forall i, j :: 0 <= i < j < |ids| ==> ids[i] != ids[j]
    decreases s
  {
    if s == {} {
      ids := [];
    } else {
      Sums.NonEmpty(s);
      var x :| x in s;
      var rest := Listing(s - {x});
      assert forall i :: 0 <= i < |rest| ==> rest[i] in Elements(rest);
      ids := [x] + rest;
      assert Elements(ids) == {x} + Elements(rest);
    }
  }

  /** A set of unpinned rows, listed in any order and taken to the end. */
  lemma SetSweeps(s: Sys, t: Db, ids: set<int>)
    requires Fk(t) && forall id :: id in ids ==> id in t.entries && !t.entries[id].pinned
    ensures Sweeps(s, t, Evict(t, ids))
  {
    hide Sweeps, Evict, Fk;
    var todo := Listing(ids);
    forall i | 0 <= i < |todo| ensures todo[i] in t.entries && !t.entries[todo[i]].pinned {
      assert todo[i] in Elements(todo);
    }
    PhaseSweeps(s, t, todo, |todo|);
    assert todo[..|todo|] == todo;
  }

  /** The shortest sufficient LRU prefix of some rows of the table. */
  lemma VictimsSweep(s: Sys, t: Db, rows: map<int, Entry>, usage: int, quota: int)
    requires Fk(t) && forall id :: id in rows ==> id in t.entries && rows[id] == t.entries[id]
    ensures Sweeps(s, t, Evict(t, Victims(rows, usage, quota)))
  {
    hide Sweeps, Evict, Fk, Cut, SizeList;
    var todo := Lru(rows);
    Gc.LruDistinct(rows);
    PhaseSweeps(s, t, todo, Cut(SizeList(todo, rows), usage, quota));
  }

  lemma TtlSweeps(s: Sys, t: Db, cfg: GcConfig, now: int)
    requires Inv(t)
    ensures Sweeps(s, t, AfterTtl(t, cfg, now))
  {
    hide *;
    TtlPassSweeps(s, t, cfg, now, 0);
    TtlPassSweeps(s, t, cfg, now, 1);
    Gc.TtlPasses(t, cfg, now);
    EvictNothing(t);
    var half := Evict(t, Gc.TtlDone(t, cfg, now, 1));
    AfterTtlIs(t, cfg, now);
    SweepsOn(s, t, half, AfterTtl(t, cfg, now));
  }

  lemma AfterTtlIs(t: Db, cfg: GcConfig, now: int)
    ensures AfterTtl(t, cfg, now) == Evict(t, ExpiredSet(t, cfg, now))
  {
  }

  lemma TtlPassSweeps(s: Sys, t: Db, cfg: GcConfig, now: int, i: nat)
    requires Inv(t) && i < 2
    ensures Sweeps(s, Evict(t, Gc.TtlDone(t, cfg, now, i)), Evict(t, Gc.TtlDone(t, cfg, now, i + 1)))
  {
    hide *;
    var kind := [Sstate, Downloads][i];
    var done := Gc.TtlDone(t, cfg, now, i);
    var u := Evict(t, done);
    Gc.TtlPass(t, cfg, now, false, i);
    RealAfter(t, done);
    var todo := TtlSelect(u, kind, now, now - DefaultTtl(cfg, kind));
    SelectedUnpinned(u, kind, now, now - DefaultTtl(cfg, kind));
    EvictKeepsInv(t, done);
    InvHasFk(u);
    SetSweeps(s, u, todo);
    EvictTwice(t, done, todo);
  }

  lemma RealAfter(t: Db, done: set<int>)
    ensures Gc.After(t, done, false) == Evict(t, done)
  {
  }

  lemma InvHasFk(t: Db)
    requires Inv(t)
    ensures Fk(t)
  {
  }

  lemma SelectedUnpinned(t: Db, kind: Kind, now: int, cutoff: int)
    ensures forall id :: id in TtlSelect(t, kind, now, cutoff) ==> id in t.entries && !t.entries[id].pinned
  {
  }

  lemma QuotaSweeps(s: Sys, t: Db)
    requires Inv(t)
    ensures Sweeps(s, t, Evict(t, QuotaVictims(t)))
  {
    hide *;
    var ps := Gc.ProjectList(t.projects);
    Gc.ProjectListed(t.projects);
    QuotaPrefixSweeps(s, t, ps, |ps|);
    Gc.AllListed(t, ps);
    assert ps[..|ps|] == ps;
  }

  lemma {:induction false} QuotaPrefixSweeps(s: Sys, t: Db, ps: seq<int>, n: nat)
    requires Inv(t) && n <= |ps| && forall i, j :: 0 <= i < j < |ps| ==> ps[i] != ps[j]
    ensures Sweeps(s, t, Evict(t, Gc.VictimsOf(t, ps[..n])))
    decreases n
  {
    hide *;
    if n == 0 {
      Gc.VictimsOfNone(t, ps);
      EvictNothing(t);
      SweepsNothing(s, t);
    } else {
      QuotaPrefixSweeps(s, t, ps, n - 1);
      var done := Gc.VictimsOf(t, ps[..n - 1]);
      Gc.VictimsOfMore(t, ps, n - 1);
      ProjectSweeps(s, t, done, ps[n - 1]);
      EvictTwice(t, done, ProjectVictims(t, ps[n - 1]));
      SweepsOn(s, t, Evict(t, done), Evict(t, done + ProjectVictims(t, ps[n - 1])));
    }
  }

  /** One project's turn, after the projects before it. */
  lemma ProjectSweeps(s: Sys, t: Db, done: set<int>, p: int)
    requires Inv(t) && forall id :: id in OfProject(t.entries, p) ==> id !in done
    ensures Sweeps(s, Evict(t, done), Evict(Evict(t, done), ProjectVictims(t, p)))
  {
    hide *;
    var u := Evict(t, done);
    EvictKeepsInv(t, done);
    InvHasFk(u);
    if p in t.projects && t.projects[p].quota.Some? {
      Gc.QuotaActs(t, p);
      RowsLeft(t, done, p);
      VictimsSweep(s, u, OfProject(t.entries, p), Usage(t, p), t.projects[p].quota.value);
    } else {
      NoQuotaNoVictims(t, p);
      EvictNothing(u);
      SweepsNothing(s, u);
    }
  }

  lemma RowsLeft(t: Db, done: set<int>, p: int)
    requires forall id :: id in OfProject(t.entries, p) ==> id !in done
    ensures forall id :: id in OfProject(t.entries, p) ==>
              id in Evict(t, done).entries && OfProject(t.entries, p)[id] == Evict(t, done).entries[id]
  {
  }

  lemma NoQuotaNoVictims(t: Db, p: int)
    requires p !in t.projects || t.projects[p].quota.None?
    ensures ProjectVictims(t, p) == {}
  {
  }

  lemma GlobalSweeps(s: Sys, t: Db, quota: int)
    requires Inv(t)
    ensures Sweeps(s, t, Evict(t, GlobalVictims(t, quota)))
  {
    hide *;
    Gc.GlobalActs(t, quota);
    InvHasFk(t);
    VictimsSweep(s, t, t.entries, TotalSize(t), quota);
  }

  // ----- cleanup -----

  /** One dead blob: its file and then its row. */
  lemma CleanOne(s: Sys, h: Hash)
    requires Counted(s.db) && s.gc.Cleaning? && h in s.gc.batch && h in DeadRows(s.db)
    ensures Reach(s, s.(db := Gc.Dropped(s.db, {h}), files := s.files - {h}, gc := Cleaning(s.gc.batch - {h})))
  {
    hide Reach, Counted;
    var u := s.(files := s.files - {h});
    assert Enabled(s, UnlinkDead(h)) && Apply(s, UnlinkDead(h)) == u;
    ReachStep(s, UnlinkDead(h));
    DeadIsUnreferenced(s.db, h);
    assert Enabled(u, DropRow(h));
    ReachStep(u, DropRow(h));
    ReachOn(s, u, Apply(u, DropRow(h)));
  }

  lemma {:induction false} CleanBatch(s: Sys, t: Db, gone: set<Hash>, files: map<Hash, Bytes>, batch: set<Hash>)
    requires Counted(t) && batch <= DeadRows(t) && gone !! batch
    ensures Reach(s.(db := Gc.Dropped(t, gone), files := files - gone, gc := Cleaning(batch)),
                  s.(db := Gc.Dropped(t, gone + batch), files := files - (gone + batch), gc := Cleaning({})))
    decreases batch
  {
    hide Reach, Counted;
    var u := s.(db := Gc.Dropped(t, gone), files := files - gone, gc := Cleaning(batch));
    if batch == {} {
      assert gone + batch == gone;
      ReachNothing(u);
    } else {
      var h :| h in batch;
      var more, left := gone + {h}, batch - {h};
      DroppedCounted(t, gone);
      StillDead(t, gone, h);
      CleanOne(u, h);
      Gc.MinusMore(files, gone, h);
      DroppedTwice(t, gone, h);
      CleanBatch(s, t, more, files, left);
      assert more + left == gone + batch;
      ReachOn(u, s.(db := Gc.Dropped(t, more), files := files - more, gc := Cleaning(left)),
              s.(db := Gc.Dropped(t, gone + batch), files := files - (gone + batch), gc := Cleaning({})));
    }
  }

  lemma DroppedCounted(t: Db, gone: set<Hash>)
    requires Counted(t)
    ensures Counted(Gc.Dropped(t, gone))
  {
  }

  lemma StillDead(t: Db, gone: set<Hash>, h: Hash)
    requires h in DeadRows(t) && h !in gone
    ensures h in DeadRows(Gc.Dropped(t, gone))
  {
  }

  lemma DroppedTwice(t: Db, gone: set<Hash>, h: Hash)
    ensures Gc.Dropped(Gc.Dropped(t, gone), {h}) == Gc.Dropped(t, gone + {h})
  {
    assert t.blobs - gone - {h} == t.blobs - (gone + {h});
  }

  lemma CleanupReaches(s: Sys, t: Db, gc: Collector)
    requires Counted(t) && BetweenFetches(gc)
    ensures Reach(At(s, t, gc), s.(db := DropDead(t), files := s.files - DeadRows(t), gc := Idle))
  {
    hide Reach, Counted;
    var dead := DeadRows(t);
    var u := At(s, t, gc);
    var v := s.(db := t, gc := Cleaning(dead));
    assert Enabled(u, FetchDead(dead)) && Apply(u, FetchDead(dead)) == v;
    ReachStep(u, FetchDead(dead));
    CleanBatch(s, t, {}, s.files, dead);
    Gc.DroppedEnds(t);
    assert s.files - {} == s.files && {} + dead == dead;
    var w := s.(db := DropDead(t), files := s.files - dead, gc := Cleaning({}));
    ReachOn(u, v, w);
    StopIs(w);
    ReachStep(w, Stop);
    ReachOn(u, w, w.(gc := Idle));
  }

  lemma StopIs(s: Sys)
    ensures Enabled(s, Stop) && Apply(s, Stop) == s.(gc := Idle)
  {
  }

  // ----- the whole sweep -----

  /**
   A sweep alone: by its own steps the collector can go from any idle state to the state `GcSvc.Run` ends in when
   every unlink succeeds, with the tables swept and the files of the blobs that died gone. Cleanup takes one batch.
   */
  lemma SweepIsRun(s: Sys, cfg: GcConfig, now: int)
    requires SysInv(s) && s.gc.Idle?
    ensures Reach(s, s.(db := Sweep(s.db, cfg, now), files := s.files - DeadRows(AfterGlobal(s.db, cfg, now))))
  {
    hide *;
    SysHasInv(s);
    var t := s.db;
    var t1, t2, t3 := AfterTtl(t, cfg, now), AfterQuota(t, cfg, now), AfterGlobal(t, cfg, now);
    StagesAre(t, cfg, now);
    TtlSweeps(s, t, cfg, now);
    QuotaSweeps(s, t1);
    GlobalSweeps(s, t2, cfg.globalQuota);
    SweepsOn(s, t, t1, t2);
    SweepsOn(s, t, t2, t3);
    SweptThenCleaned(s, t, t3);
    assert s == s.(gc := Idle);
  }

  lemma StagesAre(t: Db, cfg: GcConfig, now: int)
    requires Inv(t)
    ensures var t1, t2, t3 := AfterTtl(t, cfg, now), AfterQuota(t, cfg, now), AfterGlobal(t, cfg, now);
            && Inv(t1) && Inv(t2) && Inv(t3)
            && t2 == Evict(t1, QuotaVictims(t1)) && t3 == Evict(t2, GlobalVictims(t2, cfg.globalQuota))
            && Counted(t3) && Sweep(t, cfg, now) == DropDead(t3)
  {
    hide Fk, UniqueKeys, IdsBelow, Counted, Sized;
    Gc.StagesKeepInv(t, cfg, now, false);
  }

  lemma SweptThenCleaned(s: Sys, t: Db, u: Db)
    requires s.gc == Idle && s.db == t && Sweeps(s, t, u) && Counted(u)
    ensures Reach(s, s.(db := DropDead(u), files := s.files - DeadRows(u), gc := Idle))
  {
    hide Reach, Counted;
    assert At(s, t, Idle) == s;
    assert Arrives(s, t, Idle, u);
    var after :| BetweenFetches(after) && Reach(At(s, t, Idle), At(s, u, after));
    CleanupReaches(s, u, after);
    ReachOn(s, At(s, u, after), s.(db := DropDead(u), files := s.files - DeadRows(u), gc := Idle));
  }

  // ----- the orphan scan -----

  lemma {:induction false} UnlinkAll(s: Sys, gone: set<Hash>, files: map<Hash, Bytes>, todo: set<Hash>)
    requires s.gc.Scanning? && todo <= s.gc.onDisk - s.gc.inDb
    ensures Reach(s.(files := files - gone), s.(files := files - (gone + todo)))
    decreases todo
  {
    hide Reach;
    var u := s.(files := files - gone);
    if todo == {} {
      assert gone + todo == gone;
      ReachNothing(u);
    } else {
      var h :| h in todo;
      var more, left := gone + {h}, todo - {h};
      Gc.MinusMore(files, gone, h);
      var v := s.(files := files - more);
      assert Enabled(u, UnlinkOrphan(h)) && Apply(u, UnlinkOrphan(h)) == v;
      ReachStep(u, UnlinkOrphan(h));
      UnlinkAll(s, more, files, left);
      assert more + left == gone + todo;
      ReachOn(u, v, s.(files := files - (gone + todo)));
    }
  }

  lemma {:induction false} PurgeAll(s: Sys, gone: set<Hash>, t: Db, todo: set<Hash>)
    requires s.gc.Scanning? && todo <= s.gc.inDb - s.gc.onDisk
    ensures Reach(s.(db := Purge(t, gone)), s.(db := Purge(t, gone + todo)))
    decreases todo
  {
    hide Reach, Purge;
    var u := s.(db := Purge(t, gone));
    if todo == {} {
      assert gone + todo == gone;
      ReachNothing(u);
    } else {
      var h :| h in todo;
      var more, left := gone + {h}, todo - {h};
      Gc.PurgeMore(t, gone, h);
      var v := s.(db := Purge(t, more));
      assert Enabled(u, PurgeOrphan(h)) && Apply(u, PurgeOrphan(h)) == v;
      ReachStep(u, PurgeOrphan(h));
      PurgeAll(s, more, t, left);
      assert more + left == gone + todo;
      ReachOn(u, v, s.(db := Purge(t, gone + todo)));
    }
  }

  /** A scan alone: the collector can go from any idle state to the state `GcSvc.OrphanScan` ends in. */
  lemma ScanIsRun(s: Sys)
    requires s.gc.Idle?
    ensures Reach(s, s.(db := Purge(s.db, Gc.DbOrphans(s.db, s.files)),
                        files := s.files - Gc.DiskOrphans(s.db, s.files)))
  {
    hide Reach, Purge;
    var disk, rows := Gc.DiskOrphans(s.db, s.files), Gc.DbOrphans(s.db, s.files);
    var s1 := s.(gc := Walked(s.files.Keys));
    var s2 := s.(gc := Scanning(s.files.Keys, s.db.blobs.Keys));
    var s3 := s2.(files := s.files - disk);
    var s4 := s3.(db := Purge(s.db, rows));
    assert Enabled(s, Walk) && Apply(s, Walk) == s1;
    ReachStep(s, Walk);
    assert Enabled(s1, ReadRows) && Apply(s1, ReadRows) == s2;
    ReachStep(s1, ReadRows);
    ReachOn(s, s1, s2);
    UnlinkAll(s2, {}, s.files, disk);
    assert s.files - {} == s.files && {} + disk == disk;
    ReachOn(s, s2, s3);
    Gc.PurgeNothing(s.db);
    PurgeAll(s3, {}, s.db, rows);
    assert {} + rows == rows;
    ReachOn(s, s3, s4);
    StopIs(s4);
    ReachStep(s4, Stop);
    ReachOn(s, s4, s4.(gc := Idle));
  }
}
