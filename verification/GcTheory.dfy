/** What sweeps achieve: global accounting, convergence, and dry run against real run. */
module GcTheory {
  import opened Prelude
  import opened Sums
  import opened Ordering
  import opened Tables
  import opened Evictions
  import opened Gc

  // ----- global accounting -----

  /** Bytes of the rows at refcount 0. */
  ghost function DeadBytes(t: Db): nat {
    Total(Only(BlobSizes(t.blobs), DeadRows(t)))
  }

  /** Blob rows the eviction of `s` brought to refcount 0. */
  ghost function Released(t: Db, s: set<int>): set<Hash> {
    DeadRows(Evict(t, s)) - DeadRows(t)
  }

  ghost function ReleasedBytes(t: Db, s: set<int>): nat {
    Total(Only(BlobSizes(t.blobs), Released(t, s)))
  }

  lemma CleanupFrees(t: Db)
    ensures TotalSize(DropDead(t)) == TotalSize(t) - DeadBytes(t)
  {
    TotalSplit(BlobSizes(t.blobs), DeadRows(t));
    assert BlobSizes(DropDead(t).blobs) == BlobSizes(t.blobs) - DeadRows(t);
  }

  /** Dead rows have nothing left to lose, so evicting entries keeps them dead. */
  lemma DeadStayDead(t: Db, s: set<int>)
    requires Inv(t)
    ensures DeadRows(t) <= DeadRows(Evict(t, s))
  {
    forall h | h in DeadRows(t) ensures h in DeadRows(Evict(t, s)) {
      DeadIsUnreferenced(t, h);
      assert RefSet(t.entries - s, h) <= RefSet(t.entries, h);
      assert RefSet(t.entries - s, h) == {};
    }
  }

  lemma DeadBytesAfter(t: Db, s: set<int>)
    requires Inv(t)
    ensures DeadBytes(Evict(t, s)) == DeadBytes(t) + ReleasedBytes(t, s)
  {
    DeadStayDead(t, s);
    assert BlobSizes(Evict(t, s).blobs) == BlobSizes(t.blobs);
    assert DeadRows(Evict(t, s)) == DeadRows(t) + Released(t, s);
    TotalUnion(BlobSizes(t.blobs), DeadRows(t), Released(t, s));
  }

  /**
   Exact accounting: the total after cleanup is the loop's counter, plus the victims' bytes that sharing kept
   alive, minus the bytes that were dead before the phase measured them.
   */
  lemma GlobalAccounting(t: Db, quota: int)
    requires Inv(t)
    ensures var s := GlobalVictims(t, quota);
            TotalSize(DropDead(Evict(t, s)))
            == GlobalCounter(t, quota) + (BytesOf(t.entries, s) - ReleasedBytes(t, s)) - DeadBytes(t)
  {
    var s := GlobalVictims(t, quota);
    CleanupFrees(Evict(t, s));
    EvictKeepsTotal(t, s);
    DeadBytesAfter(t, s);
  }

  /** A released blob lost its last reference to a victim, so releases never exceed the evicted bytes. */
  lemma ReleasedAtMostEvicted(t: Db, s: set<int>)
    requires Inv(t) && s <= t.entries.Keys
    ensures ReleasedBytes(t, s) <= BytesOf(t.entries, s)
  {
    var f := HashesOf(t, s);
    forall h | h in Released(t, s) ensures h in f.Values {
      var id := VictimOf(t, s, h);
      assert id in f && f[id] == h;
    }
    SizesAgree(t, s);
    var m, n := Only(Sizes(t.entries), s), Only(BlobSizes(t.blobs), Released(t, s));
    assert forall k :: k in f && f[k] in n ==> m[k] == n[f[k]];
    TotalCovered(m, n, f);
  }

  ghost function HashesOf(t: Db, s: set<int>): map<int, Hash> {
    map id | id in t.entries && id in s :: t.entries[id].hash
  }

  lemma SizesAgree(t: Db, s: set<int>)
    requires Inv(t)
    ensures var f := HashesOf(t, s);
            forall id :: id in f ==> f[id] in t.blobs && Sizes(t.entries)[id] == BlobSizes(t.blobs)[f[id]]
  {
    forall id | id in t.entries && id in s
      ensures t.entries[id].hash in t.blobs && t.entries[id].size == t.blobs[t.entries[id].hash].size
    {
    }
  }

  lemma NoVictimNoRelease(t: Db, s: set<int>, h: Hash)
    requires forall id :: id in t.entries && id in s ==> t.entries[id].hash != h
    ensures h !in Released(t, s)
  {
    assert forall id :: id in RefSet(t.entries - s, h) <==> id in RefSet(t.entries, h);
    assert RefSet(t.entries - s, h) == RefSet(t.entries, h);
  }

  lemma VictimOf(t: Db, s: set<int>, h: Hash) returns (id: int)
    requires Inv(t) && h in Released(t, s)
    ensures id in t.entries && id in s && t.entries[id].hash == h
  {
    if forall x :: x in t.entries && x in s ==> t.entries[x].hash != h {
      NoVictimNoRelease(t, s, h);
      assert false;
    }
    id :| id in t.entries && id in s && t.entries[id].hash == h;
  }

  /** No unpinned entry shares its blob with another entry. */
  ghost predicate Unshared(t: Db) {
    forall i, j :: i in t.entries && j in t.entries && !t.entries[i].pinned ==>
      t.entries[i].hash == t.entries[j].hash ==> i == j
  }

  /** Without sharing and leaks, what the loop subtracts is what cleanup frees. */
  lemma UnsharedReleasesAll(t: Db, s: set<int>)
    requires Inv(t) && Exact(t) && Unshared(t) && s <= Unpinned(t)
    ensures ReleasedBytes(t, s) == BytesOf(t.entries, s)
  {
    var f := HashesOf(t, s);
    forall h | h in Released(t, s) ensures h in f.Values {
      var id := VictimOf(t, s, h);
      assert id in f && f[id] == h;
    }
    forall id | id in f ensures f[id] in Released(t, s) {
      var h := f[id];
      assert id in Unpinned(t);
      assert forall j :: j in t.entries && t.entries[j].hash == h ==> j == id;
      assert RefSet(t.entries, h) == {id};
      assert RefSet(t.entries - s, h) == {};
      assert h in t.blobs;
    }
    assert f.Values == Released(t, s);
    SizesAgree(t, s);
    forall i, j | i in f && j in f && f[i] == f[j] ensures i == j {
      assert i in Unpinned(t);
    }
    TotalRename(Only(Sizes(t.entries), s), Only(BlobSizes(t.blobs), Released(t, s)), f);
  }

  /** With exact refcounts and no sharing one sweep meets the quota or leaves no unpinned entry. */
  lemma OneSweepSuffices(t: Db, cfg: GcConfig, now: int)
    requires Inv(t) && Exact(t) && Unshared(t)
    ensures var u := Sweep(t, cfg, now); TotalSize(u) <= cfg.globalQuota || Unpinned(u) == {}
  {
    StagesKeepInv(t, cfg, now, false);
    var t1 := AfterTtl(t, cfg, now);
    var t2 := AfterQuota(t, cfg, now);
    EvictKeepsExact(t, ExpiredSet(t, cfg, now));
    EvictKeepsExact(t1, QuotaVictims(t1));
    var s := GlobalVictims(t2, cfg.globalQuota);
    GlobalAccounting(t2, cfg.globalQuota);
    UnsharedReleasesAll(t2, s);
    VictimsReach(t2.entries, TotalSize(t2), cfg.globalQuota);
    if TotalSize(Sweep(t, cfg, now)) > cfg.globalQuota {
      assert forall id :: id !in Unpinned(Sweep(t, cfg, now));
    }
  }

  lemma EvictKeepsExact(t: Db, s: set<int>)
    requires Fk(t) && Exact(t) && Unshared(t)
    ensures Exact(Evict(t, s)) && Unshared(Evict(t, s))
  {
    forall h | h in t.blobs ensures Refs(t.entries - s, h) == Evict(t, s).blobs[h].refcount {
      EvictConserves(t, s, h);
    }
  }

  // ----- convergence -----

  /** Sweeps at the given times with nothing else in between. */
  ghost function Sweeps(t: Db, cfg: GcConfig, nows: seq<int>): Db
    decreases |nows|
  {
    if nows == [] then t else Sweeps(Sweep(t, cfg, nows[0]), cfg, nows[1..])
  }

  ghost predicate Settled(t: Db, cfg: GcConfig) {
    TotalSize(t) <= cfg.globalQuota || Unpinned(t) == {}
  }

  lemma SweepShrinks(t: Db, cfg: GcConfig, now: int)
    requires Inv(t)
    ensures Inv(Sweep(t, cfg, now))
    ensures TotalSize(Sweep(t, cfg, now)) <= TotalSize(t)
    ensures Unpinned(Sweep(t, cfg, now)) <= Unpinned(t)
  {
    StagesKeepInv(t, cfg, now, false);
    var t1, t2, t3 := AfterTtl(t, cfg, now), AfterQuota(t, cfg, now), AfterGlobal(t, cfg, now);
    EvictKeepsTotal(t, ExpiredSet(t, cfg, now));
    EvictKeepsTotal(t1, QuotaVictims(t1));
    EvictKeepsTotal(t2, GlobalVictims(t2, cfg.globalQuota));
    CleanupFrees(t3);
    DropDeadKeepsInv(t3);
  }

  /** A sweep that does not settle the store has evicted at least one entry. */
  lemma SweepProgress(t: Db, cfg: GcConfig, now: int)
    requires Inv(t) && !Settled(Sweep(t, cfg, now), cfg)
    ensures Unpinned(Sweep(t, cfg, now)) < Unpinned(t)
  {
    SweepShrinks(t, cfg, now);
    var t1, t2, t3 := AfterTtl(t, cfg, now), AfterQuota(t, cfg, now), AfterGlobal(t, cfg, now);
    EvictKeepsTotal(t2, GlobalVictims(t2, cfg.globalQuota));
    CleanupFrees(t3);
    assert TotalSize(t2) > cfg.globalQuota;
    VictimsEmptyIff(t2.entries, TotalSize(t2), cfg.globalQuota);
    var s := GlobalVictims(t2, cfg.globalQuota);
    var u := Sweep(t, cfg, now);
    assert s == {} ==> Unpinned(u) == {};
    NonEmpty(s);
    var id :| id in s;
    assert id in Unpinned(t) && id !in Unpinned(u);
  }

  lemma SettledStays(t: Db, cfg: GcConfig, now: int)
    requires Inv(t) && Settled(t, cfg)
    ensures Settled(Sweep(t, cfg, now), cfg)
  {
    SweepShrinks(t, cfg, now);
    if Unpinned(t) == {} {
      assert Unpinned(Sweep(t, cfg, now)) == {};
    }
  }

  /**
   Repeated sweeps converge for any sharing of blobs and any leaked refcounts: as many sweeps as there were
   unpinned entries bring the total to the quota or leave nothing unpinned.
   */
  lemma {:induction false} SweepsConverge(t: Db, cfg: GcConfig, nows: seq<int>)
    requires Inv(t) && |nows| >= |Unpinned(t)|
    ensures Settled(Sweeps(t, cfg, nows), cfg)
    decreases |nows|
  {
    if nows == [] {
      assert Unpinned(t) == {};
    } else {
      var u := Sweep(t, cfg, nows[0]);
      SweepShrinks(t, cfg, nows[0]);
      if Settled(u, cfg) {
        SweepsStaySettled(u, cfg, nows[1..]);
      } else {
        SweepProgress(t, cfg, nows[0]);
        ProperSubsetSize(Unpinned(u), Unpinned(t));
        SweepsConverge(u, cfg, nows[1..]);
      }
    }
  }

  lemma {:induction false} SweepsStaySettled(t: Db, cfg: GcConfig, nows: seq<int>)
    requires Inv(t) && Settled(t, cfg)
    ensures Settled(Sweeps(t, cfg, nows), cfg)
    decreases |nows|
  {
    if nows != [] {
      SweepShrinks(t, cfg, nows[0]);
      SettledStays(t, cfg, nows[0]);
      SweepsStaySettled(Sweep(t, cfg, nows[0]), cfg, nows[1..]);
    }
  }

  lemma ProperSubsetSize<T>(a: set<T>, b: set<T>)
    requires a < b
    ensures |a| < |b|
  {
    assert b == a + (b - a);
    assert b - a != {};
  }

  // ----- what protects an entry -----

  /** An entry pinned before a sweep survives it, and the pin moves no reference. */
  lemma PinProtects(t: Db, project: int, id: int, cfg: GcConfig, now: int)
    requires Inv(t) && SetPinned(t, project, id, true).Ok?
    ensures var u := SetPinned(t, project, id, true).value;
            && Inv(u) && (forall h :: Slack(u, h) == Slack(t, h))
            && id in Sweep(u, cfg, now).entries && Sweep(u, cfg, now).entries[id] == u.entries[id]
  {
    hide ExpiredSet, Victims, Fk, UniqueKeys, IdsBelow, Counted, Sized, RefSet;
    var u := SetPinned(t, project, id, true).value;
    RowUpdateKeepsInv(t, id, u.entries[id]);
    PinnedIsNoVictim(u, id, cfg, now);
    PinnedIsNoVictim(AfterTtl(u, cfg, now), id, cfg, now);
    PinnedIsNoVictim(AfterQuota(u, cfg, now), id, cfg, now);
  }

  lemma PinnedIsNoVictim(t: Db, id: int, cfg: GcConfig, now: int)
    requires id in t.entries && t.entries[id].pinned
    ensures id !in ExpiredSet(t, cfg, now) && id !in QuotaVictims(t) && id !in GlobalVictims(t, cfg.globalQuota)
  {
  }

  /**
   An access moves the entry behind every other in eviction order and moves no reference: from then on, whatever
   the usage and the quota, it goes only if every other unpinned entry goes.
   */
  lemma TouchedGoesLast(t: Db, id: int, now: int, usage: int, quota: int)
    requires Inv(t) && id in t.entries
    requires forall other :: other in t.entries && other != id ==> t.entries[other].accessed < now
    ensures var u := Touch(t, id, now);
            && Inv(u) && (forall h :: Slack(u, h) == Slack(t, h))
            && (id in Victims(u.entries, usage, quota) ==> Unpinned(u) <= Victims(u.entries, usage, quota))
  {
    hide Fk, UniqueKeys, IdsBelow, Counted, Sized, RefSet, Victims;
    var u := Touch(t, id, now);
    RowUpdateKeepsInv(t, id, u.entries[id]);
    if id in Victims(u.entries, usage, quota) {
      forall other | other in Unpinned(u) ensures other in Victims(u.entries, usage, quota) {
        if other !in Victims(u.entries, usage, quota) {
          VictimsLru(u.entries, usage, quota, id, other);
        }
      }
    }
  }

  // ----- dry run against real run -----

  /** The ids the eviction loop takes. */
  ghost function Taken(ids: seq<int>, rows: map<int, Entry>, usage: int, quota: int): seq<int>
    requires forall i :: 0 <= i < |ids| ==> ids[i] in rows
    decreases |ids|
  {
    if usage <= quota || ids == [] then []
    else [ids[0]] + Taken(ids[1..], rows, usage - rows[ids[0]].size, quota)
  }

  lemma {:induction false} TakenIsCut(ids: seq<int>, rows: map<int, Entry>, usage: int, quota: int)
    requires forall i :: 0 <= i < |ids| ==> ids[i] in rows
    ensures Taken(ids, rows, usage, quota) == ids[..Cut(SizeList(ids, rows), usage, quota)]
    decreases |ids|
  {
    if usage > quota && ids != [] {
      TakenIsCut(ids[1..], rows, usage - rows[ids[0]].size, quota);
      assert SizeList(ids, rows)[1..] == SizeList(ids[1..], rows);
      var k := Cut(SizeList(ids, rows), usage, quota);
      assert ids[..k] == [ids[0]] + ids[1..][..k - 1];
    }
  }

  /** Bytes of the rows of a list that are in `drop`. */
  ghost function DropBytes(ids: seq<int>, rows: map<int, Entry>, drop: set<int>): nat
    requires forall i :: 0 <= i < |ids| ==> ids[i] in rows
    decreases |ids|
  {
    if ids == [] then 0
    else (if ids[0] in drop then rows[ids[0]].size else 0) + DropBytes(ids[1..], rows, drop)
  }

  lemma RestInRows(ids: seq<int>, rows: map<int, Entry>, drop: set<int>)
    requires forall i :: 0 <= i < |ids| ==> ids[i] in rows
    ensures forall i :: 0 <= i < |Without(ids, drop)| ==> Without(ids, drop)[i] in rows
  {
    var rest := Without(ids, drop);
    assert forall i :: 0 <= i < |rest| ==> rest[i] in ids;
  }

  /**
   Dropping rows from the list and their bytes from the usage can only shorten what is taken: whatever is
   taken from the rest was taken from the whole list too.
   */
  lemma {:induction false} TakenFromRest(ids: seq<int>, rows: map<int, Entry>, drop: set<int>, usage: int, quota: int)
    requires forall i :: 0 <= i < |ids| ==> ids[i] in rows
    requires forall i :: 0 <= i < |Without(ids, drop)| ==> Without(ids, drop)[i] in rows
    ensures forall x :: x in Taken(Without(ids, drop), rows, usage - DropBytes(ids, rows, drop), quota) ==>
                          x in Taken(ids, rows, usage, quota)
    decreases |ids|
  {
    hide *;
    var left := usage - DropBytes(ids, rows, drop);
    TakenStep(ids, rows, usage, quota);
    DropStep(ids, rows, drop);
    if usage > quota && ids != [] {
      var head, tail := ids[0], ids[1..];
      RestInRows(tail, rows, drop);
      TakenFromRest(tail, rows, drop, usage - rows[head].size, quota);
      if head !in drop {
        TakenStep([head] + Without(tail, drop), rows, left, quota);
        assert ([head] + Without(tail, drop))[1..] == Without(tail, drop);
      }
    } else {
      TakenStep(Without(ids, drop), rows, left, quota);
    }
  }

  lemma TakenStep(ids: seq<int>, rows: map<int, Entry>, usage: int, quota: int)
    requires forall i :: 0 <= i < |ids| ==> ids[i] in rows
    ensures usage <= quota || ids == [] ==> Taken(ids, rows, usage, quota) == []
    ensures usage > quota && ids != [] ==>
              Taken(ids, rows, usage, quota) == [ids[0]] + Taken(ids[1..], rows, usage - rows[ids[0]].size, quota)
  {
  }

  lemma DropStep(ids: seq<int>, rows: map<int, Entry>, drop: set<int>)
    requires forall i :: 0 <= i < |ids| ==> ids[i] in rows
    ensures ids == [] ==> Without(ids, drop) == []
    ensures ids != [] && ids[0] in drop ==>
              && Without(ids, drop) == Without(ids[1..], drop)
              && DropBytes(ids, rows, drop) == rows[ids[0]].size + DropBytes(ids[1..], rows, drop)
    ensures ids != [] && ids[0] !in drop ==>
              && Without(ids, drop) == [ids[0]] + Without(ids[1..], drop)
              && DropBytes(ids, rows, drop) == DropBytes(ids[1..], rows, drop)
  {
  }

  lemma {:induction false} DropBytesIs(ids: seq<int>, rows: map<int, Entry>, drop: set<int>)
    requires forall i :: 0 <= i < |ids| ==> ids[i] in rows
    requires forall i, j :: 0 <= i < j < |ids| ==> ids[i] != ids[j]
    ensures DropBytes(ids, rows, drop) == BytesOf(rows, Elements(ids) * drop)
    decreases |ids|
  {
    if ids == [] {
      assert Only(Sizes(rows), Elements(ids) * drop) == map[];
    } else {
      var tail := ids[1..];
      DropBytesIs(tail, rows, drop);
      assert Elements(ids) == {ids[0]} + Elements(tail);
      if ids[0] in drop {
        assert Elements(ids) * drop == {ids[0]} + Elements(tail) * drop;
        TotalUnion(Sizes(rows), {ids[0]}, Elements(tail) * drop);
        BytesOfOne(rows, ids[0]);
      } else {
        assert Elements(ids) * drop == Elements(tail) * drop;
      }
    }
  }

  lemma {:induction false} IdsWithout(s: seq<Rank>, drop: set<Rank>, ids: set<int>)
    requires forall i :: 0 <= i < |s| ==> (s[i] in drop <==> s[i].id in ids)
    ensures Ids(Without(s, drop)) == Without(Ids(s), ids)
    decreases |s|
  {
    if s != [] {
      IdsWithout(s[1..], drop, ids);
      assert Ids(s)[1..] == Ids(s[1..]);
      if s[0] !in drop {
        assert Ids([s[0]] + Without(s[1..], drop)) == [s[0].id] + Ids(Without(s[1..], drop));
      }
    }
  }

  /** Evicting rows removes them from the LRU list and moves nothing else. */
  lemma LruWithout(rows: map<int, Entry>, drop: set<int>)
    ensures Lru(rows - drop) == Without(Lru(rows), drop)
  {
    hide *;
    RanksWithout(rows, drop);
    SortedWithout(LruRanks(rows), RanksIn(rows, drop), false);
    SortedRanksIn(rows, drop);
    IdsWithout(Sorted(LruRanks(rows), false), RanksIn(rows, drop), drop);
    LruIs(rows);
    LruIs(rows - drop);
  }

  ghost function RanksIn(rows: map<int, Entry>, s: set<int>): set<Rank> {
    set r | r in LruRanks(rows) && r.id in s
  }

  lemma LruIs(rows: map<int, Entry>)
    ensures Lru(rows) == Ids(Sorted(LruRanks(rows), false))
  {
  }

  lemma RanksWithout(rows: map<int, Entry>, drop: set<int>)
    ensures LruRanks(rows - drop) == LruRanks(rows) - RanksIn(rows, drop)
  {
    forall r ensures r in LruRanks(rows - drop) <==> r in LruRanks(rows) - RanksIn(rows, drop) {
      if r in LruRanks(rows) - RanksIn(rows, drop) {
        assert r.id in rows - drop;
      }
    }
  }

  lemma SortedRanksIn(rows: map<int, Entry>, drop: set<int>)
    ensures var s := Sorted(LruRanks(rows), false);
            forall i :: 0 <= i < |s| ==> (s[i] in RanksIn(rows, drop) <==> s[i].id in drop)
  {
    var s := Sorted(LruRanks(rows), false);
    forall i | 0 <= i < |s| ensures s[i] in RanksIn(rows, drop) <==> s[i].id in drop {
      assert s[i] in Elements(s);
    }
  }

  lemma VictimsTaken(rows: map<int, Entry>, usage: int, quota: int)
    ensures Victims(rows, usage, quota) == Elements(Taken(Lru(rows), rows, usage, quota))
  {
    TakenIsCut(Lru(rows), rows, usage, quota);
  }

  lemma {:induction false} TakenSame(ids: seq<int>, rows: map<int, Entry>, fs: map<int, Entry>, usage: int, quota: int)
    requires forall i :: 0 <= i < |ids| ==> ids[i] in rows && ids[i] in fs && rows[ids[i]] == fs[ids[i]]
    ensures Taken(ids, rows, usage, quota) == Taken(ids, fs, usage, quota)
    decreases |ids|
  {
    if usage > quota && ids != [] {
      TakenSame(ids[1..], rows, fs, usage - rows[ids[0]].size, quota);
    }
  }

  lemma LruDropBytes(rows: map<int, Entry>, drop: set<int>)
    requires forall id :: id in drop && id in rows ==> !rows[id].pinned
    ensures DropBytes(Lru(rows), rows, drop) == BytesOf(rows, drop)
  {
    var ids := Lru(rows);
    LruDistinct(rows);
    DropBytesIs(ids, rows, drop);
    forall id | id in rows ensures id in drop <==> id in Elements(ids) * drop {
      assert id in drop ==> id in ids;
    }
    OnlySame(rows, drop, Elements(ids) * drop);
  }

  lemma OnlySame(rows: map<int, Entry>, s: set<int>, r: set<int>)
    requires forall id :: id in rows ==> (id in s <==> id in r)
    ensures BytesOf(rows, s) == BytesOf(rows, r)
  {
    var m, n := Only(Sizes(rows), s), Only(Sizes(rows), r);
    assert forall id :: id in m <==> id in n;
    assert m == n;
  }

  lemma LruKept(rows: map<int, Entry>, drop: set<int>)
    ensures var rest := Lru(rows - drop);
            forall i :: 0 <= i < |rest| ==>
              rest[i] in rows && rest[i] in rows - drop && rows[rest[i]] == (rows - drop)[rest[i]]
  {
  }

  lemma ElementsSubset(a: seq<int>, b: seq<int>)
    requires forall x :: x in a ==> x in b
    ensures Elements(a) <= Elements(b)
  {
    forall x | x in Elements(a) ensures x in Elements(b) {
      assert x in a;
    }
  }

  /** Evicting unpinned rows first, and discounting their bytes, can only shrink the victims of a phase. */
  lemma VictimsAfterDrop(rows: map<int, Entry>, drop: set<int>, usage: int, quota: int)
    requires forall id :: id in drop && id in rows ==> !rows[id].pinned
    ensures Victims(rows - drop, usage - BytesOf(rows, drop), quota) <= Victims(rows, usage, quota)
  {
    hide *;
    var ids, rest, left := Lru(rows), Lru(rows - drop), usage - BytesOf(rows, drop);
    LruWithout(rows, drop);
    LruKept(rows, drop);
    LruDropBytes(rows, drop);
    VictimsTaken(rows, usage, quota);
    VictimsTaken(rows - drop, left, quota);
    TakenSame(rest, rows, rows - drop, left, quota);
    TakenFromRest(ids, rows, drop, usage, quota);
    ElementsSubset(Taken(rest, rows, left, quota), Taken(ids, rows, usage, quota));
  }

  lemma QuotaVictimsAfterTtl(t: Db, x: set<int>)
    requires x <= Unpinned(t)
    ensures QuotaVictims(Evict(t, x)) <= QuotaVictims(t)
  {
    var u := Evict(t, x);
    forall id | id in QuotaVictims(u) ensures id in QuotaVictims(t) {
      var p := u.entries[id].key.project;
      ProjectVictimsShrink(t, x, p);
    }
  }

  lemma ProjectVictimsShrink(t: Db, x: set<int>, p: int)
    requires x <= Unpinned(t)
    ensures ProjectVictims(Evict(t, x), p) <= ProjectVictims(t, p)
  {
    hide *;
    var rows := OfProject(t.entries, p);
    RowsAfter(t, x, p);
    BytesAfter(rows, x);
    if p in t.projects && t.projects[p].quota.Some? {
      VictimsAfterDrop(rows, x, Usage(t, p), t.projects[p].quota.value);
    }
  }

  lemma RowsAfter(t: Db, x: set<int>, p: int)
    requires x <= Unpinned(t)
    ensures var rows := OfProject(t.entries, p);
            && (forall id :: id in x && id in rows ==> !rows[id].pinned)
            && (p !in t.projects || t.projects[p].quota.None? ==> ProjectVictims(Evict(t, x), p) == {})
            && (p in t.projects && t.projects[p].quota.Some? ==>
                  && ProjectVictims(t, p) == Victims(rows, Usage(t, p), t.projects[p].quota.value)
                  && ProjectVictims(Evict(t, x), p) == Victims(rows - x, Total(Sizes(rows - x)),
                      t.projects[p].quota.value))
            && Usage(t, p) == Total(Sizes(rows))
  {
    hide Victims;
    assert OfProject(Evict(t, x).entries, p) == OfProject(t.entries, p) - x;
  }

  /**
   While the total is within the global quota, a dry run never reports less than the real run evicts. A real
   run removes the expired entries before it measures the projects; a dry run measures them with the expired
   entries still there.
   */
  lemma DryRunCoversReal(t: Db, cfg: GcConfig, now: int)
    requires Inv(t) && TotalSize(t) <= cfg.globalQuota
    ensures Report(t, cfg, now, true).evictedEntries >= Report(t, cfg, now, false).evictedEntries
    ensures Report(t, cfg, now, true).evictedBytes >= Report(t, cfg, now, false).evictedBytes
  {
    var x := ExpiredSet(t, cfg, now);
    var u := Evict(t, x);
    var v := Evict(u, QuotaVictims(u));
    EvictKeepsTotal(t, x);
    EvictKeepsTotal(u, QuotaVictims(u));
    VictimsEmptyIff(t.entries, TotalSize(t), cfg.globalQuota);
    VictimsEmptyIff(v.entries, TotalSize(v), cfg.globalQuota);
    QuotaVictimsAfterTtl(t, x);
    CountingSubset(t.entries, u.entries, QuotaVictims(t), QuotaVictims(u));
    ReportIs(t, cfg, now, true);
    ReportIs(t, cfg, now, false);
    forall rep: GcReport, es: map<int, Entry> ensures Counting(rep, es, {}) == rep {
      CountingNone(rep, es);
    }
  }

  lemma CountingSubset(es: map<int, Entry>, fs: map<int, Entry>, s: set<int>, r: set<int>)
    requires r <= s && r <= fs.Keys && fs.Keys <= es.Keys && forall id :: id in fs ==> fs[id] == es[id]
    ensures |r| <= |s| && BytesOf(fs, r) <= BytesOf(es, s)
  {
    assert s == r + (s - r);
    var m, n := Only(Sizes(fs), r), Only(Sizes(es), s);
    assert forall id :: id in m ==> id in n && m[id] == n[id];
    TotalSubset(m, n);
  }

  // ----- what the code does not promise -----

  /** Three unpinned entries of one unlimited project, each on its own blob, least recently used first. */
  function Three(a: Bytes, b: Bytes, c: Bytes, x: int, y: int, z: int): Db {
    Db(map[1 := Project("p", None, None)],
       map[1 := Entry(CacheKey(1, Sstate, "a"), Digest(a), |a|, 0, x, false),
           2 := Entry(CacheKey(1, Sstate, "b"), Digest(b), |b|, 0, y, false),
           3 := Entry(CacheKey(1, Sstate, "c"), Digest(c), |c|, 0, z, false)],
       map[Digest(a) := Blob(|a|, 1), Digest(b) := Blob(|b|, 1), Digest(c) := Blob(|c|, 1)],
       3)
  }

  lemma LruUnique(rows: map<int, Entry>, ids: seq<int>)
    requires forall i :: 0 <= i < |ids| ==> ids[i] in rows && !rows[ids[i]].pinned
    requires forall id :: id in rows && !rows[id].pinned ==> id in ids
    requires forall i, j :: 0 <= i < j < |ids| ==> LruBefore(rows, ids[i], ids[j])
    ensures Lru(rows) == ids
  {
    var ranks := seq(|ids|, i requires 0 <= i < |ids| => Rank(Num(rows[ids[i]].accessed), ids[i]));
    forall r ensures r in Elements(ranks) <==> r in LruRanks(rows) {
      if r in LruRanks(rows) {
        var i :| 0 <= i < |ids| && ids[i] == r.id;
        assert ranks[i] == r;
      }
    }
    SortedUnique(ranks, Sorted(LruRanks(rows), false), false);
  }

  lemma ThreeExact(a: Bytes, b: Bytes, c: Bytes, x: int, y: int, z: int)
    requires a != b && b != c && a != c
    ensures Exact(Three(a, b, c, x, y, z))
  {
    var t := Three(a, b, c, x, y, z);
    assert RefSet(t.entries, Digest(a)) == {1};
    assert RefSet(t.entries, Digest(b)) == {2};
    assert RefSet(t.entries, Digest(c)) == {3};
  }

  lemma ThreeInv(a: Bytes, b: Bytes, c: Bytes, x: int, y: int, z: int)
    requires a != b && b != c && a != c
    ensures var t := Three(a, b, c, x, y, z); Inv(t) && Exact(t) && Unshared(t)
  {
    hide RefSet;
    ThreeExact(a, b, c, x, y, z);
  }

  lemma ThreeTotal(a: Bytes, b: Bytes, c: Bytes, x: int, y: int, z: int)
    requires a != b && b != c && a != c
    ensures TotalSize(Three(a, b, c, x, y, z)) == |a| + |b| + |c|
  {
    var m: map<Hash, nat> := map[];
    TotalAdd(m, Digest(a), |a|);
    TotalAdd(m[Digest(a) := |a|], Digest(b), |b|);
    TotalAdd(m[Digest(a) := |a|][Digest(b) := |b|], Digest(c), |c|);
    assert BlobSizes(Three(a, b, c, x, y, z).blobs) == m[Digest(a) := |a|][Digest(b) := |b|][Digest(c) := |c|];
  }

  /** The victims among rows given in LRU order with their sizes. */
  lemma VictimsAre(rows: map<int, Entry>, ids: seq<int>, sizes: seq<nat>, usage: int, quota: int, k: nat)
    requires Lru(rows) == ids && SizeList(Lru(rows), rows) == sizes && k == Cut(sizes, usage, quota)
    ensures Victims(rows, usage, quota) == Elements(ids[..k])
  {
  }

  lemma LruAre(rows: map<int, Entry>, ids: seq<int>, sizes: seq<nat>)
    requires |ids| == |sizes|
    requires forall i :: 0 <= i < |ids| ==> ids[i] in rows && !rows[ids[i]].pinned && rows[ids[i]].size == sizes[i]
    requires forall id :: id in rows ==> id in ids
    requires forall i, j :: 0 <= i < j < |ids| ==> rows[ids[i]].accessed < rows[ids[j]].accessed
    ensures Lru(rows) == ids && SizeList(Lru(rows), rows) == sizes
  {
    LruUnique(rows, ids);
  }

  lemma ThreeLru(t: Db, a: Bytes, b: Bytes, c: Bytes, x: int, y: int, z: int)
    requires t == Three(a, b, c, x, y, z) && x < y < z
    ensures Lru(t.entries) == [1, 2, 3] && SizeList(Lru(t.entries), t.entries) == [|a|, |b|, |c|]
  {
    LruAre(t.entries, [1, 2, 3], [|a|, |b|, |c|]);
  }

  lemma LastTwoLru(t: Db, a: Bytes, b: Bytes, c: Bytes, x: int, y: int, z: int)
    requires t == Three(a, b, c, x, y, z) && x < y < z
    ensures Lru(t.entries - {1}) == [2, 3] && SizeList(Lru(t.entries - {1}), t.entries - {1}) == [|b|, |c|]
  {
    LruAre(t.entries - {1}, [2, 3], [|b|, |c|]);
  }

  lemma LastLru(t: Db, a: Bytes, b: Bytes, c: Bytes, x: int, y: int, z: int)
    requires t == Three(a, b, c, x, y, z) && x < y < z
    ensures Lru(t.entries - {1, 2}) == [3] && SizeList(Lru(t.entries - {1, 2}), t.entries - {1, 2}) == [|c|]
  {
    LruAre(t.entries - {1, 2}, [3], [|c|]);
  }

  lemma CutFacts()
    ensures Cut([2, 1, 1], 4, 2) == 1 && Cut([1, 1], 4, 2) == 2
    ensures Cut([1, 1, 3], 5, 3) == 2 && Cut([3], 5, 3) == 1
    ensures Cut([10, 10], 10, 5) == 1
  {
    assert Cut([1], 3, 2) == 1;
    assert Cut([1, 3], 4, 3) == 1;
  }

  lemma ReportsWithoutQuotas(t: Db, cfg: GcConfig, now: int, x: set<int>)
    requires x == ExpiredSet(t, cfg, now) && QuotaVictims(t) == {} && QuotaVictims(Evict(t, x)) == {}
    ensures Report(t, cfg, now, true).evictedEntries == |x| + |GlobalVictims(t, cfg.globalQuota)|
    ensures Report(t, cfg, now, false).evictedEntries == |x| + |GlobalVictims(Evict(t, x), cfg.globalQuota)|
  {
    EvictNothing(Evict(t, x));
    ReportIs(t, cfg, now, true);
    ReportIs(t, cfg, now, false);
  }

  lemma NoLimitsNoVictims(t: Db)
    requires forall p :: p in t.projects ==> t.projects[p].quota.None?
    ensures QuotaVictims(t) == {}
  {
    assert forall p :: ProjectVictims(t, p) == {};
  }

  lemma FirstExpired(t: Db)
    requires t == Three([0, 0], [1], [2], 0, 864_000, 864_001)
    ensures ExpiredSet(t, GcConfig(1, 1, 2), 864_002) == {1}
  {
  }

  lemma SecondExpired(t: Db)
    requires t == Three([1], [2], [0, 0, 0], 0, 1, 864_001)
    ensures ExpiredSet(t, GcConfig(1, 1, 3), 864_002) == {1, 2}
  {
  }

  lemma Listed()
    ensures Elements([1, 2, 3][..1]) == {1} && Elements([1, 2, 3][..2]) == {1, 2}
    ensures Elements([2, 3][..2]) == {2, 3} && Elements([3][..1]) == {3} && Elements([1, 2][..1]) == {1}
  {
    assert [1, 2, 3][..1] == [1] && [1, 2, 3][..2] == [1, 2] && [2, 3][..2] == [2, 3];
    assert [3][..1] == [3] && [1, 2][..1] == [1];
  }

  lemma GlobalVictimsAfter(t: Db, s: set<int>, quota: int)
    ensures GlobalVictims(t, quota) == Victims(t.entries, TotalSize(t), quota)
    ensures GlobalVictims(Evict(t, s), quota) == Victims(t.entries - s, TotalSize(t), quota)
  {
    EvictKeepsTotal(t, s);
  }

  lemma FirstExample(t: Db)
    requires t == Three([0, 0], [1], [2], 0, 864_000, 864_001)
    ensures GlobalVictims(t, 2) == {1} && GlobalVictims(Evict(t, {1}), 2) == {2, 3}
  {
    hide *;
    ThreeTotal([0, 0], [1], [2], 0, 864_000, 864_001);
    ThreeLru(t, [0, 0], [1], [2], 0, 864_000, 864_001);
    LastTwoLru(t, [0, 0], [1], [2], 0, 864_000, 864_001);
    CutFacts();
    Listed();
    GlobalVictimsAfter(t, {1}, 2);
    VictimsAre(t.entries, [1, 2, 3], [2, 1, 1], 4, 2, 1);
    VictimsAre(t.entries - {1}, [2, 3], [1, 1], 4, 2, 2);
  }

  lemma SecondExample(t: Db)
    requires t == Three([1], [2], [0, 0, 0], 0, 1, 864_001)
    ensures GlobalVictims(t, 3) == {1, 2} && GlobalVictims(Evict(t, {1, 2}), 3) == {3}
  {
    hide *;
    ThreeTotal([1], [2], [0, 0, 0], 0, 1, 864_001);
    ThreeLru(t, [1], [2], [0, 0, 0], 0, 1, 864_001);
    LastLru(t, [1], [2], [0, 0, 0], 0, 1, 864_001);
    CutFacts();
    Listed();
    GlobalVictimsAfter(t, {1, 2}, 3);
    VictimsAre(t.entries, [1, 2, 3], [1, 1, 3], 5, 3, 2);
    VictimsAre(t.entries - {1, 2}, [3], [3], 5, 3, 1);
  }

  /**
   Once the global phase fires the dry run is no bound in either direction. With a 2-byte expired entry and two
   fresh 1-byte entries at quota 2, the dry run counts the expired entry twice and reports 2; the real run still
   measures the expired blob, evicts everything and reports 3.
   */
  lemma DryRunCanReportLess()
    ensures var t := Three([0, 0], [1], [2], 0, 864_000, 864_001);
            var cfg := GcConfig(1, 1, 2);
            && Inv(t) && Exact(t)
            && Report(t, cfg, 864_002, true).evictedEntries == 2
            && Report(t, cfg, 864_002, false).evictedEntries == 3
  {
    hide *;
    var t := Three([0, 0], [1], [2], 0, 864_000, 864_001);
    ThreeInv([0, 0], [1], [2], 0, 864_000, 864_001);
    FirstExample(t);
    FirstExpired(t);
    ThreeUnlimited([0, 0], [1], [2], 0, 864_000, 864_001, {1});
    ReportsWithoutQuotas(t, GcConfig(1, 1, 2), 864_002, {1});
  }

  /** With two expired 1-byte entries and a fresh 3-byte one at quota 3, the dry run reports 4 and the real run 3. */
  lemma DryRunCanReportMore()
    ensures var t := Three([1], [2], [0, 0, 0], 0, 1, 864_001);
            var cfg := GcConfig(1, 1, 3);
            && Inv(t) && Exact(t)
            && Report(t, cfg, 864_002, true).evictedEntries == 4
            && Report(t, cfg, 864_002, false).evictedEntries == 3
  {
    hide *;
    var t := Three([1], [2], [0, 0, 0], 0, 1, 864_001);
    ThreeInv([1], [2], [0, 0, 0], 0, 1, 864_001);
    SecondExample(t);
    SecondExpired(t);
    ThreeUnlimited([1], [2], [0, 0, 0], 0, 1, 864_001, {1, 2});
    ReportsWithoutQuotas(t, GcConfig(1, 1, 3), 864_002, {1, 2});
  }

  lemma ThreeUnlimited(a: Bytes, b: Bytes, c: Bytes, x: int, y: int, z: int, s: set<int>)
    ensures var t := Three(a, b, c, x, y, z); QuotaVictims(t) == {} && QuotaVictims(Evict(t, s)) == {}
  {
    NoLimitsNoVictims(Three(a, b, c, x, y, z));
    NoLimitsNoVictims(Evict(Three(a, b, c, x, y, z), s));
  }

  /** Bytes already dead when the phase measures make it evict too much: nothing had to go, everything did. */
  lemma DeadBlobsCauseOverEviction()
    ensures var t := Three([0, 0], [1], [2], 0, 864_000, 864_001);
            var cfg := GcConfig(1, 1, 2);
            && TotalSize(DropDead(AfterTtl(t, cfg, 864_002))) <= cfg.globalQuota
            && Unpinned(AfterTtl(t, cfg, 864_002)) == {2, 3}
            && Unpinned(AfterGlobal(t, cfg, 864_002)) == {}
  {
    hide *;
    var t := Three([0, 0], [1], [2], 0, 864_000, 864_001);
    var cfg := GcConfig(1, 1, 2);
    FirstExpired(t);
    FirstExample(t);
    ThreeUnlimited([0, 0], [1], [2], 0, 864_000, 864_001, {1});
    StagesWithoutQuotas(t, cfg, 864_002, {1});
    FirstReleases(t);
    FirstUnpinned(t);
  }

  lemma StagesWithoutQuotas(t: Db, cfg: GcConfig, now: int, x: set<int>)
    requires x == ExpiredSet(t, cfg, now) && QuotaVictims(Evict(t, x)) == {}
    ensures AfterTtl(t, cfg, now) == Evict(t, x)
    ensures AfterQuota(t, cfg, now) == Evict(t, x)
    ensures AfterGlobal(t, cfg, now) == Evict(Evict(t, x), GlobalVictims(Evict(t, x), cfg.globalQuota))
  {
    EvictNothing(Evict(t, x));
  }

  lemma FirstUnpinned(t: Db)
    requires t == Three([0, 0], [1], [2], 0, 864_000, 864_001)
    ensures Unpinned(Evict(t, {1})) == {2, 3} && Unpinned(Evict(Evict(t, {1}), {2, 3})) == {}
  {
    assert Unpinned(t) == {1, 2, 3};
    UnpinnedAfter(t, {1});
    UnpinnedAfter(Evict(t, {1}), {2, 3});
  }

  lemma UnpinnedAfter(t: Db, s: set<int>)
    ensures Unpinned(Evict(t, s)) == Unpinned(t) - s
  {
  }

  lemma FirstReleases(t: Db)
    requires t == Three([0, 0], [1], [2], 0, 864_000, 864_001)
    ensures TotalSize(DropDead(Evict(t, {1}))) == 2
  {
    ThreeInv([0, 0], [1], [2], 0, 864_000, 864_001);
    ThreeTotal([0, 0], [1], [2], 0, 864_000, 864_001);
    FirstFreed(t);
    CleanupFrees(Evict(t, {1}));
    EvictKeepsTotal(t, {1});
  }

  lemma FirstFreed(t: Db)
    requires t == Three([0, 0], [1], [2], 0, 864_000, 864_001)
    ensures DeadBytes(Evict(t, {1})) == 2
  {
    hide *;
    ThreeInv([0, 0], [1], [2], 0, 864_000, 864_001);
    FirstRow(t);
    UnsharedReleasesAll(t, {1});
    BytesOfOne(t.entries, 1);
    DeadBytesAfter(t, {1});
    NoneDead(t);
  }

  lemma FirstRow(t: Db)
    requires t == Three([0, 0], [1], [2], 0, 864_000, 864_001)
    ensures {1} <= Unpinned(t) && 1 in t.entries && t.entries[1].size == 2 && DeadRows(t) == {}
  {
  }

  lemma NoneDead(t: Db)
    requires DeadRows(t) == {}
    ensures DeadBytes(t) == 0
  {
    assert Only(BlobSizes(t.blobs), {}) == map[];
  }

  /** Two entries on one 10-byte blob at quota 5: the loop stops after one eviction and the total stays at 10. */
  function Shared(b: Bytes): Db {
    Db(map[1 := Project("p", None, None)],
       map[1 := Entry(CacheKey(1, Sstate, "a"), Digest(b), |b|, 0, 0, false),
           2 := Entry(CacheKey(1, Sstate, "b"), Digest(b), |b|, 0, 1, false)],
       map[Digest(b) := Blob(|b|, 2)],
       2)
  }

  lemma SharingCausesUnderEviction()
    ensures var t := Shared([0, 0, 0, 0, 0, 0, 0, 0, 0, 0]);
            var cfg := GcConfig(1, 1, 5);
            && Inv(t) && Exact(t)
            && GlobalVictims(t, 5) == {1} && GlobalCounter(t, 5) <= 5
            && TotalSize(Sweep(t, cfg, 0)) == 10
  {
    hide *;
    var b: Bytes := [0, 0, 0, 0, 0, 0, 0, 0, 0, 0];
    var t := Shared(b);
    SharedInv(b);
    SharedVictims(t, b);
    SharedSweep(t, b);
  }

  lemma SharedVictims(t: Db, b: Bytes)
    requires t == Shared(b) && |b| == 10
    ensures GlobalVictims(t, 5) == {1} && GlobalCounter(t, 5) == 0
  {
    hide *;
    SharedInv(b);
    SharedLru(t, b);
    CutFacts();
    Listed();
    GlobalVictimsAfter(t, {}, 5);
    VictimsAre(t.entries, [1, 2], [10, 10], 10, 5, 1);
    BytesOfOne(t.entries, 1);
    CounterIs(t, 5);
  }

  lemma SharedLru(t: Db, b: Bytes)
    requires t == Shared(b) && |b| == 10
    ensures 1 in t.entries && t.entries[1].size == 10
    ensures Lru(t.entries) == [1, 2] && SizeList(Lru(t.entries), t.entries) == [10, 10]
  {
    LruAre(t.entries, [1, 2], [10, 10]);
  }

  lemma CounterIs(t: Db, quota: int)
    ensures GlobalCounter(t, quota) == TotalSize(t) - BytesOf(t.entries, GlobalVictims(t, quota))
  {
  }

  lemma SharedInv(b: Bytes)
    ensures Inv(Shared(b)) && Exact(Shared(b)) && TotalSize(Shared(b)) == |b|
  {
    hide RefSet, Total;
    SharedExact(b);
    var m: map<Hash, nat> := map[];
    TotalAdd(m, Digest(b), |b|);
    NothingTotals(m);
    assert BlobSizes(Shared(b).blobs) == m[Digest(b) := |b|];
  }

  lemma SharedExact(b: Bytes)
    ensures Exact(Shared(b))
  {
    assert RefSet(Shared(b).entries, Digest(b)) == {1, 2};
  }

  lemma NothingTotals(m: map<Hash, nat>)
    requires m == map[]
    ensures Total(m) == 0
  {
  }

  lemma SharedSweep(t: Db, b: Bytes)
    requires t == Shared(b) && GlobalVictims(t, 5) == {1}
    ensures TotalSize(Sweep(t, GcConfig(1, 1, 5), 0)) == |b|
  {
    hide *;
    var cfg := GcConfig(1, 1, 5);
    SharedInv(b);
    SharedFresh(t, b);
    EvictNothing(t);
    StagesWithoutQuotas(t, cfg, 0, {});
    SharedAlive(t, b);
    NoneDead(Evict(t, {1}));
    CleanupFrees(Evict(t, {1}));
    EvictKeepsTotal(t, {1});
    SweepIs(t, cfg, 0);
  }

  lemma SweepIs(t: Db, cfg: GcConfig, now: int)
    ensures Sweep(t, cfg, now) == DropDead(AfterGlobal(t, cfg, now))
  {
  }

  lemma SharedFresh(t: Db, b: Bytes)
    requires t == Shared(b)
    ensures ExpiredSet(t, GcConfig(1, 1, 5), 0) == {} && QuotaVictims(t) == {}
  {
    NoLimitsNoVictims(t);
  }

  lemma SharedAlive(t: Db, b: Bytes)
    requires t == Shared(b)
    ensures DeadRows(Evict(t, {1})) == {}
  {
    assert RefSet(t.entries - {1}, Digest(b)) == {2};
    assert RefSet(t.entries, Digest(b)) == {1, 2};
  }

  // ----- orphan scan -----

  /**
   What a scan with nothing beside it leaves, from any tables that satisfy the foreign key: rows and files name
   the same hashes up to files that could not be unlinked, exactly the entries whose file exists survive, no
   surviving refcount moves, and a second scan finds only the files that got stuck.
   */
  lemma ScanReconciles(t: Db, files: map<Hash, Bytes>, unlinked: set<Hash>)
    requires Fk(t) && unlinked <= DiskOrphans(t, files)
    ensures var u := Purge(t, DbOrphans(t, files));
            var left := files - unlinked;
            && Fk(u) && u.blobs.Keys <= left.Keys
            && (unlinked == DiskOrphans(t, files) ==> u.blobs.Keys == left.Keys)
            && (forall id :: id in t.entries ==> (id in u.entries <==> t.entries[id].hash in files))
            && (forall id :: id in u.entries ==> id in t.entries && u.entries[id] == t.entries[id])
            && (forall h :: h in u.blobs ==> h in t.blobs && u.blobs[h] == t.blobs[h])
            && DbOrphans(u, left) == {}
            && DiskOrphans(u, left) == DiskOrphans(t, files) - unlinked
  {
    var u := Purge(t, DbOrphans(t, files));
    var left := files - unlinked;
    assert u.blobs.Keys == t.blobs.Keys * files.Keys;
    assert left.Keys == files.Keys - unlinked;
  }
}
