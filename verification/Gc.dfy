/** The sweep and the orphan scan as they run when nothing else does. */
module Gc {
  import opened Prelude
  import opened Sums
  import opened Ordering
  import opened Tables
  import opened Evictions
  import opened Database
  import opened Storage

  datatype GcReport = GcReport(evictedEntries: nat, evictedBytes: nat, freedBlobs: nat, usageGlobal: nat)

  datatype OrphanReport = OrphanReport(diskOrphansRemoved: nat, dbOrphansRemoved: nat)

  const CLEANUP_BATCH: nat := 1000

  // ----- what the report counters mean -----

  /** `rep` after the entries in `s` have been counted as evicted. */
  ghost function Counting(rep: GcReport, es: map<int, Entry>, s: set<int>): GcReport {
    rep.(evictedEntries := rep.evictedEntries + |s|, evictedBytes := rep.evictedBytes + BytesOf(es, s))
  }

  ghost function After(t: Db, s: set<int>, dryRun: bool): Db {
    if dryRun then t else Evict(t, s)
  }

  /** Files no row names, and rows whose file is missing. */
  function DiskOrphans(t: Db, files: map<Hash, Bytes>): set<Hash> {
    files.Keys - t.blobs.Keys
  }

  function DbOrphans(t: Db, files: map<Hash, Bytes>): set<Hash> {
    t.blobs.Keys - files.Keys
  }

  /** What cleanup counts: every dead row, or at most one batch of them in a dry run. */
  ghost function Freed(t: Db, dryRun: bool): nat {
    if dryRun && |DeadRows(t)| > CLEANUP_BATCH then CLEANUP_BATCH else |DeadRows(t)|
  }

  // The tables each phase leaves, and the report of the whole run. In a dry run every phase sees the same
  // unchanged tables; in a real one each phase counts its victims in the tables the phase before left.

  ghost function Stage1(t: Db, cfg: GcConfig, now: int, dryRun: bool): Db {
    After(t, ExpiredSet(t, cfg, now), dryRun)
  }

  ghost function Stage2(t: Db, cfg: GcConfig, now: int, dryRun: bool): Db {
    var u := Stage1(t, cfg, now, dryRun);
    After(u, QuotaVictims(u), dryRun)
  }

  ghost function Stage3(t: Db, cfg: GcConfig, now: int, dryRun: bool): Db {
    var u := Stage2(t, cfg, now, dryRun);
    After(u, GlobalVictims(u, cfg.globalQuota), dryRun)
  }

  ghost function Final(t: Db, cfg: GcConfig, now: int, dryRun: bool): Db {
    var u := Stage3(t, cfg, now, dryRun);
    if dryRun then u else DropDead(u)
  }

  ghost function Report(t: Db, cfg: GcConfig, now: int, dryRun: bool): GcReport {
    var u1 := Stage1(t, cfg, now, dryRun);
    var u2 := Stage2(t, cfg, now, dryRun);
    var r1 := Counting(GcReport(0, 0, 0, 0), t.entries, ExpiredSet(t, cfg, now));
    var r2 := Counting(r1, u1.entries, QuotaVictims(u1));
    var r3 := Counting(r2, u2.entries, GlobalVictims(u2, cfg.globalQuota));
    r3.(freedBlobs := r3.freedBlobs + Freed(Stage3(t, cfg, now, dryRun), dryRun),
        usageGlobal := Tables.TotalSize(Final(t, cfg, now, dryRun)))
  }

  /** A dry run ends in the tables it began with; a real one ends in `Sweep`. */
  lemma FinalIs(t: Db, cfg: GcConfig, now: int)
    ensures Final(t, cfg, now, true) == t
    ensures Final(t, cfg, now, false) == Sweep(t, cfg, now)
    ensures Stage3(t, cfg, now, false) == AfterGlobal(t, cfg, now)
  {
  }

  lemma CountingNone(rep: GcReport, es: map<int, Entry>)
    ensures Counting(rep, es, {}) == rep
  {
    assert Only(Sizes(es), {}) == map[];
  }

  lemma CountingOne(rep: GcReport, es: map<int, Entry>, s: set<int>, id: int)
    requires id in es && id !in s
    ensures var c := Counting(rep, es, s);
            Counting(rep, es, s + {id})
            == c.(evictedEntries := c.evictedEntries + 1, evictedBytes := c.evictedBytes + es[id].size)
  {
    TotalRemove(Only(Sizes(es), s + {id}), id);
    assert Only(Sizes(es), s + {id}) - {id} == Only(Sizes(es), s);
  }

  lemma CountingMore(rep: GcReport, es: map<int, Entry>, s: set<int>, r: set<int>)
    requires s !! r
    ensures Counting(Counting(rep, es, s), es, r) == Counting(rep, es, s + r)
  {
    TotalUnion(Sizes(es), s, r);
  }

  /** One more transaction extends an eviction by one entry. */
  lemma EvictOneMore(t: Db, s: set<int>, id: int)
    requires Inv(t) && id in t.entries && id !in s
    ensures DeleteEntry(Evict(t, s), t.entries[id].key.project, id) == Ok(Evict(t, s + {id}))
  {
    EvictKeepsInv(t, s);
    DeleteIsEvict(Evict(t, s), t.entries[id].key.project, id);
    EvictTwice(t, s, {id});
  }

  lemma TtlSelectAfter(t: Db, s: set<int>, kind: Kind, now: int, cutoff: int)
    ensures TtlSelect(Evict(t, s), kind, now, cutoff) == TtlSelect(t, kind, now, cutoff) - s
  {
  }

  lemma PrefixGrows(ids: seq<int>, i: nat)
    requires i < |ids| && forall a, b :: 0 <= a < b < |ids| ==> ids[a] != ids[b]
    ensures Elements(ids[..i + 1]) == Elements(ids[..i]) + {ids[i]} && ids[i] !in Elements(ids[..i])
  {
    assert ids[..i + 1] == ids[..i] + [ids[i]];
  }

  /** A loop that stops at the first fitting prefix has walked exactly the victims. */
  lemma StopsAtVictims(rows: map<int, Entry>, usage: int, quota: int, i: nat)
    requires i <= |Lru(rows)|
    requires var sizes := SizeList(Lru(rows), rows);
             && (i == |sizes| || usage - SumSeq(sizes[..i]) <= quota)
             && forall j :: 0 <= j < i ==> usage - SumSeq(sizes[..j]) > quota
    ensures Victims(rows, usage, quota) == Elements(Lru(rows)[..i])
  {
    assert i == Cut(SizeList(Lru(rows), rows), usage, quota);
  }

  lemma LruDistinct(rows: map<int, Entry>)
    ensures forall a, b :: 0 <= a < b < |Lru(rows)| ==> Lru(rows)[a] != Lru(rows)[b]
  {
  }

  class GcSvc {
    const db: Pool
    const store: LocalFsStore
    const cfg: GcConfig

    constructor (db: Pool, store: LocalFsStore, cfg: GcConfig)
      ensures this.db == db && this.store == store && this.cfg == cfg
    {
      this.db := db;
      this.store := store;
      this.cfg := cfg;
    }

    /** `if !dry_run { entries.delete(..).await? }`, seen as one more entry evicted from `t`. */
    method DeleteUnlessDry(project: int, id: int, dryRun: bool, ghost t: Db, ghost done: set<int>)
        returns (r: Result<()>)
      requires Inv(t) && id in t.entries && id !in done && t.entries[id].key.project == project
      requires db.View() == After(t, done, dryRun)
      modifies db
      ensures r.Ok? && db.View() == After(t, done + {id}, dryRun)
    {
      if !dryRun {
        EvictOneMore(t, done, id);
        r := db.Delete(project, id);
        return;
      }
      return Ok(());
    }

    /** Evicts exactly the expired entries, and counts exactly them. */
    method TtlPhase(rep: GcReport, dryRun: bool, now: int) returns (out: GcReport, r: Result<()>)
      requires Inv(db.View())
      modifies db
      ensures r.Ok?
      ensures db.View() == After(old(db.View()), ExpiredSet(old(db.View()), cfg, now), dryRun)
      ensures out == Counting(rep, old(db.View()).entries, ExpiredSet(old(db.View()), cfg, now))
      ensures !dryRun ==>
                var t := old(db.View());
                forall id :: id in t.entries ==>
                  (id !in db.View().entries <==> OutOfTime(t.entries[id], t.projects, cfg, now))
    {
      hide *;
      ghost var t := db.View();
      ghost var done: set<int> := {};
      out := rep;
      CountingNone(rep, t.entries);
      AfterNothing(t, dryRun);
      OutOfTimeGoes(t, cfg, now);
      TtlPasses(t, cfg, now);
      var kinds := [Sstate, Downloads];
      for i := 0 to |kinds|
        invariant done == TtlDone(t, cfg, now, i)
        invariant db.View() == After(t, done, dryRun)
        invariant out == Counting(rep, t.entries, done)
      {
        TtlPass(t, cfg, now, dryRun, i);
        var cutoffDefault := now - DefaultTtl(cfg, kinds[i]);
        var rows := db.View().entries;
        var todo := TtlSelect(db.View(), kinds[i], now, cutoffDefault);
        ghost var next := done + todo;
        while todo != {}
          invariant done !! todo && done + todo == next
          invariant forall id :: id in todo ==> id in rows && id in t.entries && rows[id] == t.entries[id]
          invariant db.View() == After(t, done, dryRun)
          invariant out == Counting(rep, t.entries, done)
          decreases todo
        {
          NonEmpty(todo);
          var id :| id in todo;
          todo := todo - {id};
          var d := DeleteUnlessDry(rows[id].key.project, id, dryRun, t, done);
          if d.Err? {
            return out, d;
          }
          CountingOne(rep, t.entries, done, id);
          done := done + {id};
          out := out.(evictedEntries := out.evictedEntries + 1, evictedBytes := out.evictedBytes + rows[id].size);
        }
      }
      return out, Ok(());
    }

    /**
     The loop the quota and global phases share: walk `rows` in LRU order, deleting and subtracting sizes,
     until `usage` fits `quota`. `left` is where `usage` ends. `t` and `done` are the tables before the phase and
     what it evicted so far.
     */
    method EvictDown(rep: GcReport, rows: map<int, Entry>, usage: int, quota: int, dryRun: bool,
                     ghost t: Db, ghost done: set<int>)
        returns (out: GcReport, r: Result<()>, left: int)
      requires Inv(t) && db.View() == After(t, done, dryRun)
      requires forall id :: id in rows ==> id in t.entries && rows[id] == t.entries[id] && id !in done
      modifies db
      ensures r.Ok?
      ensures db.View() == After(t, done + Victims(rows, usage, quota), dryRun)
      ensures out == Counting(rep, t.entries, Victims(rows, usage, quota))
      ensures left == usage - BytesOf(rows, Victims(rows, usage, quota))
    {
      hide *;
      var ids := Lru(rows);
      ghost var sizes := SizeList(ids, rows);
      ghost var gone: set<int> := {};
      left := usage;
      var i := 0;
      out := rep;
      CountingNone(rep, t.entries);
      LruDistinct(rows);
      SumPrefix(sizes, 0);
      EmptyPrefix(ids);
      assert done + gone == done;
      while i < |ids| && left > quota
        invariant 0 <= i <= |ids| && gone == Elements(ids[..i])
        invariant left == usage - SumSeq(sizes[..i])
        invariant forall j :: 0 <= j < i ==> usage - SumSeq(sizes[..j]) > quota
        invariant db.View() == After(t, done + gone, dryRun)
        invariant out == Counting(rep, t.entries, gone)
      {
        var id := ids[i];
        PrefixGrows(ids, i);
        SumPrefix(sizes, i);
        CountingOne(rep, t.entries, gone, id);
        var d := DeleteUnlessDry(rows[id].key.project, id, dryRun, t, done + gone);
        if d.Err? {
          return out, d, left;
        }
        assert done + gone + {id} == done + (gone + {id});
        gone := gone + {id};
        left := left - rows[id].size;
        out := out.(evictedEntries := out.evictedEntries + 1, evictedBytes := out.evictedBytes + rows[id].size);
        i := i + 1;
      }
      StopsAtVictims(rows, usage, quota, i);
      LruPrefixBytes(rows, i);
      return out, Ok(()), left;
    }

    /** Evicts, project by project, exactly the quota victims. */
    method QuotaPhase(rep: GcReport, dryRun: bool) returns (out: GcReport, r: Result<()>)
      requires Inv(db.View())
      modifies db
      ensures r.Ok?
      ensures db.View() == After(old(db.View()), QuotaVictims(old(db.View())), dryRun)
      ensures out == Counting(rep, old(db.View()).entries, QuotaVictims(old(db.View())))
    {
      hide *;
      ghost var t := db.View();
      ghost var done: set<int> := {};
      var projects := db.View().projects;
      var listed := ProjectList(projects);
      ProjectListed(projects);
      out := rep;
      CountingNone(rep, t.entries);
      AfterNothing(t, dryRun);
      VictimsOfNone(t, listed);
      for i := 0 to |listed|
        invariant done == VictimsOf(t, listed[..i])
        invariant db.View() == After(t, done, dryRun)
        invariant out == Counting(rep, t.entries, done)
      {
        var p := listed[i];
        VictimsOfMore(t, listed, i);
        RowsStill(t, done, dryRun, p);
        ghost var mine := ProjectVictims(t, p);
        QuotaSkips(t, p);
        if projects[p].quota.Some? {
          var quota := projects[p].quota.value;
          var usage := db.ProjectUsage(p);
          if usage > quota {
            QuotaActs(t, p);
            ghost var sofar := out;
            var left;
            out, r, left := EvictDown(out, OfProject(db.View().entries, p), usage, quota, dryRun, t, done);
            CountingMore(rep, t.entries, done, mine);
            if r.Err? {
              return;
            }
          } else {
            assert mine == {} && done + mine == done;
          }
        } else {
          assert mine == {} && done + mine == done;
        }
        done := done + mine;
      }
      AllListed(t, listed);
      assert listed[..|listed|] == listed;
      return out, Ok(());
    }

    /** Evicts exactly the global victims. `usage` is the value the variable of that name ends with. */
    method GlobalPhase(rep: GcReport, dryRun: bool) returns (out: GcReport, r: Result<()>, usage: int)
      requires Inv(db.View())
      modifies db
      ensures r.Ok?
      ensures db.View() == After(old(db.View()), GlobalVictims(old(db.View()), cfg.globalQuota), dryRun)
      ensures out == Counting(rep, old(db.View()).entries, GlobalVictims(old(db.View()), cfg.globalQuota))
      ensures usage == GlobalCounter(old(db.View()), cfg.globalQuota)
    {
      hide *;
      ghost var t := db.View();
      AfterNothing(t, dryRun);
      CountingNone(rep, t.entries);
      GlobalActs(t, cfg.globalQuota);
      usage := db.TotalSize();
      if usage <= cfg.globalQuota {
        return rep, Ok(()), usage;
      }
      out, r, usage := EvictDown(rep, db.View().entries, usage, cfg.globalQuota, dryRun, t, {});
      assert {} + GlobalVictims(t, cfg.globalQuota) == GlobalVictims(t, cfg.globalQuota);
    }

    /**
     Removes exactly the rows at refcount 0, whatever rows each batch picks, and the files of all of them but
     those the file system refuses to remove. A dry run counts one batch of at most 1 000.
     */
    method CleanupBlobs(rep: GcReport, dryRun: bool, stuck: set<Hash>) returns (out: GcReport, r: Result<()>)
      requires Inv(db.View())
      modifies db, store
      ensures r.Ok?
      ensures db.View() == if dryRun then old(db.View()) else DropDead(old(db.View()))
      ensures store.blobs == if dryRun then old(store.blobs) else old(store.blobs) - (DeadRows(old(db.View())) - stuck)
      ensures out == rep.(freedBlobs := rep.freedBlobs + Freed(old(db.View()), dryRun))
      ensures var dead := |DeadRows(old(db.View()))|;
              out.freedBlobs - rep.freedBlobs == if dryRun && dead > 1000 then 1000 else dead
    {
      hide *;
      ghost var t := db.View();
      ghost var gone: set<Hash> := {};
      out := rep;
      DroppedEnds(t);
      NothingRemoved(store.blobs, stuck);
      FreedLiterally(t, dryRun);
      while true
        invariant gone <= DeadRows(t) && (dryRun ==> gone == {})
        invariant db.View() == Dropped(t, gone)
        invariant store.blobs == old(store.blobs) - (gone - stuck)
        invariant out == rep.(freedBlobs := rep.freedBlobs + |gone|)
        decreases DeadRows(t) - gone
      {
        var batch := db.ZeroRefcount(CLEANUP_BATCH);
        DeadAfter(t, gone);
        if batch == {} {
          break;
        }
        out, r := CleanupBatch(out, batch, dryRun, stuck, t, gone);
        if r.Err? {
          return;
        }
        if dryRun {
          FreedDry(t, batch);
          return;
        }
        RemovedMore(old(store.blobs), gone, batch, stuck);
        assert |gone + batch| == |gone| + |batch|;
        gone := gone + batch;
      }
      FreedAll(t, dryRun);
      assert gone == DeadRows(t);
      return out, Ok(());
    }

    /** Unlink the file, then delete the row; a file that cannot be unlinked is left behind. */
    method CleanupOne(hash: Hash, dryRun: bool, stuck: set<Hash>, ghost t: Db, ghost gone: set<Hash>)
        returns (r: Result<()>)
      requires Inv(t) && hash in DeadRows(t) && (dryRun || db.View() == Dropped(t, gone))
      modifies db, store
      ensures r.Ok?
      ensures db.View() == if dryRun then old(db.View()) else Dropped(t, gone + {hash})
      ensures store.blobs == if dryRun then old(store.blobs) else old(store.blobs) - ({hash} - stuck)
    {
      if dryRun {
        return Ok(());
      }
      var _ := store.DeleteBlob(hash, stuck);
      assert store.blobs == old(store.blobs) - ({hash} - stuck);
      DroppedMore(t, gone, hash);
      r := db.DeleteBlob(hash);
    }

    /** One batch of dead rows; `gone` are the dead rows of `t` deleted before it. */
    method CleanupBatch(rep: GcReport, batch: set<Hash>, dryRun: bool, stuck: set<Hash>,
                        ghost t: Db, ghost gone: set<Hash>)
        returns (out: GcReport, r: Result<()>)
      requires Inv(t) && batch <= DeadRows(t) && db.View() == Dropped(t, gone)
      modifies db, store
      ensures r.Ok?
      ensures db.View() == if dryRun then old(db.View()) else Dropped(t, gone + batch)
      ensures store.blobs == if dryRun then old(store.blobs) else old(store.blobs) - (batch - stuck)
      ensures out == rep.(freedBlobs := rep.freedBlobs + |batch|)
    {
      hide *;
      ghost var counted: set<Hash> := {};
      var todo := batch;
      out := rep;
      NothingRemoved(store.blobs, stuck);
      assert gone + counted == gone;
      while todo != {}
        invariant todo !! counted && counted + todo == batch
        invariant db.View() == if dryRun then old(db.View()) else Dropped(t, gone + counted)
        invariant store.blobs == if dryRun then old(store.blobs) else old(store.blobs) - (counted - stuck)
        invariant out == rep.(freedBlobs := rep.freedBlobs + |counted|)
        decreases todo
      {
        var hash :| hash in todo;
        todo := todo - {hash};
        r := CleanupOne(hash, dryRun, stuck, t, gone + counted);
        if r.Err? {
          return;
        }
        RemovedMore(old(store.blobs), counted, {hash}, stuck);
        assert gone + counted + {hash} == gone + (counted + {hash});
        counted := counted + {hash};
        out := out.(freedBlobs := out.freedBlobs + 1);
      }
      assert counted == batch;
      return out, Ok(());
    }

    /** One sweep, real or dry. `usage` is where the global phase's variable of that name ended. */
    method Run(dryRun: bool, now: int, stuck: set<Hash>) returns (rep: GcReport, r: Result<()>, ghost usage: int)
      requires Inv(db.View())
      modifies db, store
      ensures r.Ok?
      ensures db.View() == Final(old(db.View()), cfg, now, dryRun)
      ensures db.View() == if dryRun then old(db.View()) else Sweep(old(db.View()), cfg, now)
      ensures rep == Report(old(db.View()), cfg, now, dryRun)
      ensures store.blobs
              == if dryRun then old(store.blobs)
                 else old(store.blobs) - (DeadRows(AfterGlobal(old(db.View()), cfg, now)) - stuck)
      ensures usage == GlobalCounter(Stage2(old(db.View()), cfg, now, dryRun), cfg.globalQuota)
    {
      hide *;
      ghost var t := db.View();
      rep := GcReport(0, 0, 0, 0);
      StagesKeepInv(t, cfg, now, dryRun);
      ReportIs(t, cfg, now, dryRun);
      FinalIs(t, cfg, now);
      rep, r := TtlPhase(rep, dryRun, now);
      if r.Err? {
        return;
      }
      rep, r := QuotaPhase(rep, dryRun);
      if r.Err? {
        return;
      }
      var counter;
      rep, r, counter := GlobalPhase(rep, dryRun);
      usage := counter;
      if r.Err? {
        return;
      }
      rep, r := CleanupBlobs(rep, dryRun, stuck);
      if r.Err? {
        return;
      }
      var total := db.TotalSize();
      rep := rep.(usageGlobal := total);
    }

    /** Reconciles files and rows, deleting the disk orphans it can unlink. */
    method OrphanScan(dryRun: bool, stuck: set<Hash>) returns (rep: OrphanReport)
      modifies db, store
      ensures rep.diskOrphansRemoved == |DiskOrphans(old(db.View()), old(store.blobs))|
      ensures rep.dbOrphansRemoved == |DbOrphans(old(db.View()), old(store.blobs))|
      ensures dryRun ==> db.View() == old(db.View()) && store.blobs == old(store.blobs)
      ensures !dryRun ==>
                && db.View() == Purge(old(db.View()), DbOrphans(old(db.View()), old(store.blobs)))
                && store.blobs == old(store.blobs) - (DiskOrphans(old(db.View()), old(store.blobs)) - stuck)
    {
      hide *;
      var extra := DiskOrphans(db.View(), store.blobs);
      var missing := DbOrphans(db.View(), store.blobs);
      var disk := RemoveFiles(extra, dryRun, stuck);
      var rows := RemoveRows(missing, dryRun);
      rep := OrphanReport(disk, rows);
    }

    method RemoveFiles(extra: set<Hash>, dryRun: bool, stuck: set<Hash>) returns (n: nat)
      modifies store
      ensures n == |extra|
      ensures store.blobs == if dryRun then old(store.blobs) else old(store.blobs) - (extra - stuck)
    {
      hide *;
      ghost var done: set<Hash> := {};
      var todo := extra;
      n := 0;
      NothingRemoved(store.blobs, stuck);
      while todo != {}
        invariant done !! todo && done + todo == extra && n == |done|
        invariant store.blobs == if dryRun then old(store.blobs) else old(store.blobs) - (done - stuck)
        decreases todo
      {
        var h :| h in todo;
        todo := todo - {h};
        if !dryRun {
          ghost var before := store.blobs;
          var _ := store.DeleteBlob(h, stuck);
          assert store.blobs == before - ({h} - stuck);
          RemovedMore(old(store.blobs), done, {h}, stuck);
        }
        done := done + {h};
        n := n + 1;
      }
      assert done == extra;
    }

    method RemoveRows(missing: set<Hash>, dryRun: bool) returns (n: nat)
      modifies db
      ensures n == |missing|
      ensures db.View() == if dryRun then old(db.View()) else Purge(old(db.View()), missing)
    {
      hide *;
      ghost var t := db.View();
      ghost var done: set<Hash> := {};
      var todo := missing;
      n := 0;
      PurgeNothing(t);
      while todo != {}
        invariant done !! todo && done + todo == missing && n == |done|
        invariant db.View() == if dryRun then t else Purge(t, done)
        decreases todo
      {
        var h :| h in todo;
        PurgeMore(t, done, h);
        todo := todo - {h};
        if !dryRun {
          db.PurgeHash(h);
        }
        done := done + {h};
        n := n + 1;
      }
      assert done == missing;
    }
  }

  // ----- helpers -----

  lemma OutOfTimeGoes(t: Db, cfg: GcConfig, now: int)
    requires Inv(t)
    ensures forall id :: id in t.entries ==>
              (id !in After(t, ExpiredSet(t, cfg, now), false).entries
               <==> OutOfTime(t.entries[id], t.projects, cfg, now))
  {
    hide ExpiredSet, OutOfTime;
    forall id | id in t.entries
      ensures id !in After(t, ExpiredSet(t, cfg, now), false).entries
              <==> OutOfTime(t.entries[id], t.projects, cfg, now)
    {
      assert Fk(t);
      ExpiredIff(t, cfg, now, id);
    }
  }

  lemma AfterNothing(t: Db, dryRun: bool)
    ensures After(t, {}, dryRun) == t
  {
    EvictNothing(t);
  }

  /** The expired entries of the first `i` kinds. */
  ghost function TtlDone(t: Db, cfg: GcConfig, now: int, i: int): set<int> {
    if i <= 0 then {}
    else if i == 1 then OfKind(t, ExpiredSet(t, cfg, now), Sstate)
    else ExpiredSet(t, cfg, now)
  }

  /** A pass selects the expired entries of its kind even after the passes before it. */
  lemma TtlPass(t: Db, cfg: GcConfig, now: int, dryRun: bool, i: nat)
    requires i < 2
    ensures var kind := [Sstate, Downloads][i];
            var done := TtlDone(t, cfg, now, i);
            var u := After(t, done, dryRun);
            var todo := TtlSelect(u, kind, now, now - DefaultTtl(cfg, kind));
            && done !! todo && TtlDone(t, cfg, now, i + 1) == done + todo
            && forall id :: id in todo ==> id in u.entries && id in t.entries && u.entries[id] == t.entries[id]
  {
    var kind := [Sstate, Downloads][i];
    var done := TtlDone(t, cfg, now, i);
    TtlSelectIsExpired(t, cfg, kind, now);
    TtlSelectAfter(t, done, kind, now, now - DefaultTtl(cfg, kind));
    assert TtlSelect(t, kind, now, now - DefaultTtl(cfg, kind)) - done == OfKind(t, ExpiredSet(t, cfg, now), kind);
    KindsPartition(t, ExpiredSet(t, cfg, now));
  }

  lemma KindsPartition(t: Db, s: set<int>)
    requires s <= t.entries.Keys
    ensures s == OfKind(t, s, Sstate) + OfKind(t, s, Downloads)
  {
    forall id | id in s ensures id in OfKind(t, s, Sstate) + OfKind(t, s, Downloads) {
      assert t.entries[id].key.kind == Sstate || t.entries[id].key.kind == Downloads;
    }
  }

  lemma TtlPasses(t: Db, cfg: GcConfig, now: int)
    ensures TtlDone(t, cfg, now, 0) == {}
    ensures TtlDone(t, cfg, now, 2) == ExpiredSet(t, cfg, now)
  {
  }

  lemma SumPrefix(sizes: seq<nat>, i: nat)
    requires i <= |sizes|
    ensures i == 0 ==> SumSeq(sizes[..i]) == 0
    ensures i < |sizes| ==> SumSeq(sizes[..i + 1]) == SumSeq(sizes[..i]) + sizes[i]
  {
    if i < |sizes| {
      SumSeqAppend(sizes[..i], [sizes[i]]);
      assert sizes[..i + 1] == sizes[..i] + [sizes[i]];
    }
  }

  lemma EmptyPrefix(ids: seq<int>)
    ensures Elements(ids[..0]) == {}
  {
  }

  /** `SELECT ... FROM projects ORDER BY id`. */
  function ProjectList(ps: map<int, Project>): seq<int> {
    Ids(Sorted(set p | p in ps :: Rank(Num(p), p), false))
  }

  lemma ProjectListed(ps: map<int, Project>)
    ensures forall i :: 0 <= i < |ProjectList(ps)| ==> ProjectList(ps)[i] in ps
    ensures forall p :: p in ps ==> p in ProjectList(ps)
    ensures forall i, j :: 0 <= i < j < |ProjectList(ps)| ==> ProjectList(ps)[i] != ProjectList(ps)[j]
  {
    var all := set p | p in ps :: Rank(Num(p), p);
    var ranks := Sorted(all, false);
    forall i | 0 <= i < |ranks| ensures ranks[i].id in ps && ranks[i].key == Num(ranks[i].id) {
      assert ranks[i] in Elements(ranks);
    }
    forall p | p in ps ensures p in ProjectList(ps) {
      assert Rank(Num(p), p) in Elements(ranks);
      var i :| 0 <= i < |ranks| && ranks[i] == Rank(Num(p), p);
      assert Ids(ranks)[i] == p;
    }
    forall i, j | 0 <= i < j < |ranks| ensures ranks[i].id != ranks[j].id {
      assert Before(ranks[i], ranks[j], false);
    }
  }

  ghost function VictimsOf(t: Db, ps: seq<int>): set<int> {
    set id | id in t.entries && t.entries[id].key.project in ps && id in ProjectVictims(t, t.entries[id].key.project)
  }

  lemma GlobalActs(t: Db, quota: int)
    ensures Tables.TotalSize(t) <= quota ==> GlobalVictims(t, quota) == {}
    ensures GlobalVictims(t, quota) == Victims(t.entries, Tables.TotalSize(t), quota)
    ensures GlobalCounter(t, quota) == Tables.TotalSize(t) - BytesOf(t.entries, GlobalVictims(t, quota))
    ensures Tables.TotalSize(t) <= quota ==> GlobalCounter(t, quota) == Tables.TotalSize(t)
  {
    VictimsEmptyIff(t.entries, Tables.TotalSize(t), quota);
    assert Only(Sizes(t.entries), {}) == map[];
  }

  lemma VictimsOfNone(t: Db, ps: seq<int>)
    ensures VictimsOf(t, ps[..0]) == {}
  {
  }

  lemma AllListed(t: Db, ps: seq<int>)
    requires forall p :: p in t.projects ==> p in ps
    ensures VictimsOf(t, ps) == QuotaVictims(t)
  {
    forall id ensures id in VictimsOf(t, ps) <==> id in QuotaVictims(t) {
      if id in QuotaVictims(t) {
        assert t.entries[id].key.project in t.projects;
      }
    }
  }

  /** The rows of a project are untouched while other projects are swept. */
  lemma RowsStill(t: Db, done: set<int>, dryRun: bool, p: int)
    requires forall id :: id in OfProject(t.entries, p) ==> id !in done
    ensures OfProject(After(t, done, dryRun).entries, p) == OfProject(t.entries, p)
    ensures Usage(After(t, done, dryRun), p) == Usage(t, p)
    ensures forall id :: id in OfProject(t.entries, p) ==>
              id in t.entries && OfProject(t.entries, p)[id] == t.entries[id] && id !in done
  {
    var u := After(t, done, dryRun);
    var was, still := OfProject(t.entries, p), OfProject(u.entries, p);
    forall id ensures id in was <==> id in still {
      assert id in was ==> id !in done;
    }
    assert was == still;
  }

  lemma QuotaSkips(t: Db, p: int)
    requires p in t.projects
    ensures t.projects[p].quota.None? ==> ProjectVictims(t, p) == {}
    ensures t.projects[p].quota.Some? && Usage(t, p) <= t.projects[p].quota.value ==> ProjectVictims(t, p) == {}
  {
    if t.projects[p].quota.Some? {
      VictimsEmptyIff(OfProject(t.entries, p), Usage(t, p), t.projects[p].quota.value);
    }
  }

  lemma QuotaActs(t: Db, p: int)
    requires p in t.projects && t.projects[p].quota.Some?
    ensures Victims(OfProject(t.entries, p), Usage(t, p), t.projects[p].quota.value) == ProjectVictims(t, p)
  {
  }

  lemma VictimsOfMore(t: Db, ps: seq<int>, i: nat)
    requires i < |ps| && forall a, b :: 0 <= a < b < |ps| ==> ps[a] != ps[b]
    ensures VictimsOf(t, ps[..i + 1]) == VictimsOf(t, ps[..i]) + ProjectVictims(t, ps[i])
    ensures VictimsOf(t, ps[..i]) !! ProjectVictims(t, ps[i])
    ensures forall id :: id in OfProject(t.entries, ps[i]) ==> id !in VictimsOf(t, ps[..i])
  {
    assert ps[..i + 1] == ps[..i] + [ps[i]];
    assert forall id :: id in ProjectVictims(t, ps[i]) ==> id in OfProject(t.entries, ps[i]);
  }

  lemma StagesKeepInv(t: Db, cfg: GcConfig, now: int, dryRun: bool)
    requires Inv(t)
    ensures Stage1(t, cfg, now, dryRun) == After(t, ExpiredSet(t, cfg, now), dryRun)
    ensures var u := Stage1(t, cfg, now, dryRun);
            Inv(u) && Stage2(t, cfg, now, dryRun) == After(u, QuotaVictims(u), dryRun)
    ensures var u := Stage2(t, cfg, now, dryRun);
            Inv(u) && Stage3(t, cfg, now, dryRun) == After(u, GlobalVictims(u, cfg.globalQuota), dryRun)
    ensures var u := Stage3(t, cfg, now, dryRun);
            Inv(u) && Final(t, cfg, now, dryRun) == if dryRun then u else DropDead(u)
  {
    var u1 := Stage1(t, cfg, now, dryRun);
    var u2 := Stage2(t, cfg, now, dryRun);
    EvictKeepsInv(t, ExpiredSet(t, cfg, now));
    EvictKeepsInv(u1, QuotaVictims(u1));
    EvictKeepsInv(u2, GlobalVictims(u2, cfg.globalQuota));
  }

  lemma ReportIs(t: Db, cfg: GcConfig, now: int, dryRun: bool)
    ensures var u1 := Stage1(t, cfg, now, dryRun);
            var u2 := Stage2(t, cfg, now, dryRun);
            var r1 := Counting(GcReport(0, 0, 0, 0), t.entries, ExpiredSet(t, cfg, now));
            var r2 := Counting(r1, u1.entries, QuotaVictims(u1));
            var r3 := Counting(r2, u2.entries, GlobalVictims(u2, cfg.globalQuota));
            Report(t, cfg, now, dryRun)
            == r3.(freedBlobs := r3.freedBlobs + Freed(Stage3(t, cfg, now, dryRun), dryRun),
                   usageGlobal := Tables.TotalSize(Final(t, cfg, now, dryRun)))
  {
  }

  /** The tables while cleanup is under way: the rows in `gone` have been deleted. */
  ghost function Dropped(t: Db, gone: set<Hash>): Db {
    t.(blobs := t.blobs - gone)
  }

  lemma DroppedEnds(t: Db)
    ensures Dropped(t, {}) == t
    ensures Dropped(t, DeadRows(t)) == DropDead(t)
  {
    assert t.blobs - {} == t.blobs;
    assert t.blobs - DeadRows(t) == DropDead(t).blobs;
  }

  lemma DeadAfter(t: Db, gone: set<Hash>)
    requires gone <= DeadRows(t)
    ensures DeadRows(Dropped(t, gone)) == DeadRows(t) - gone
    ensures CLEANUP_BATCH > 0
  {
  }

  /** Deleting a dead row never meets the foreign key. */
  lemma DroppedMore(t: Db, gone: set<Hash>, h: Hash)
    requires Inv(t) && h in DeadRows(t)
    ensures Tables.DeleteBlob(Dropped(t, gone), h) == Ok(Dropped(t, gone + {h}))
  {
    DeadIsUnreferenced(t, h);
    assert t.blobs - gone - {h} == t.blobs - (gone + {h});
  }

  lemma MinusMore(m: map<Hash, Bytes>, s: set<Hash>, h: Hash)
    ensures m - s - {h} == m - (s + {h})
  {
  }

  lemma NothingRemoved(m: map<Hash, Bytes>, stuck: set<Hash>)
    ensures m - ({} - stuck) == m
  {
  }

  lemma RemovedMore(m: map<Hash, Bytes>, s: set<Hash>, r: set<Hash>, stuck: set<Hash>)
    ensures m - (s - stuck) - (r - stuck) == m - ((s + r) - stuck)
  {
  }

  lemma FreedLiterally(t: Db, dryRun: bool)
    ensures var dead := |DeadRows(t)|; Freed(t, dryRun) == if dryRun && dead > 1000 then 1000 else dead
  {
  }

  lemma FreedDry(t: Db, batch: set<Hash>)
    requires batch <= DeadRows(t) && |batch| <= CLEANUP_BATCH
    requires |batch| < CLEANUP_BATCH ==> batch == DeadRows(t)
    ensures |batch| == Freed(t, true)
  {
    assert DeadRows(t) == batch + (DeadRows(t) - batch);
  }

  lemma FreedAll(t: Db, dryRun: bool)
    ensures !dryRun || DeadRows(t) == {} ==> Freed(t, dryRun) == |DeadRows(t)|
  {
  }

  lemma PurgeNothing(t: Db)
    ensures Purge(t, {}) == t
  {
    assert Purge(t, {}).entries == t.entries && Purge(t, {}).blobs == t.blobs;
  }

  lemma PurgeMore(t: Db, s: set<Hash>, h: Hash)
    ensures Purge(Purge(t, s), {h}) == Purge(t, s + {h})
  {
    assert Purge(Purge(t, s), {h}).entries == Purge(t, s + {h}).entries;
    assert Purge(Purge(t, s), {h}).blobs == Purge(t, s + {h}).blobs;
  }
}
