/** Exactly when a dry run bounds the real run. */
module DryRuns {
  import opened Prelude
  import opened Sums
  import opened Ordering
  import opened Tables
  import opened Evictions
  import opened Gc
  import opened GcTheory

  /** The dry run reports at least the entries and bytes the real run evicts. */
  ghost predicate Covers(t: Db, cfg: GcConfig, now: int) {
    && Report(t, cfg, now, true).evictedEntries >= Report(t, cfg, now, false).evictedEntries
    && Report(t, cfg, now, true).evictedBytes >= Report(t, cfg, now, false).evictedBytes
  }

  /**
   Among all stores of a given total size the dry run is a bound for every one of them, at every time, if and only
   if that total is within the global quota.
   */
  lemma DryRunCoversIff(total: nat, cfg: GcConfig)
    ensures (forall t: Db, now: int :: Inv(t) && TotalSize(t) == total ==> Covers(t, cfg, now))
            <==> total <= cfg.globalQuota
  {
    hide Inv, Report;
    if total <= cfg.globalQuota {
      forall t: Db, now: int ensures Inv(t) && TotalSize(t) == total ==> Covers(t, cfg, now) {
        if Inv(t) && TotalSize(t) == total {
          DryRunCoversReal(t, cfg, now);
        }
      }
    } else {
      OverQuotaNotCovered(total, cfg);
      var t := OneExpired(total);
      assert Inv(t) && TotalSize(t) == total && !Covers(t, cfg, 1);
    }
  }

  // ----- a store over the quota that the dry run does not cover -----

  function Zeros(n: nat): (b: Bytes)
    ensures |b| == n
  {
    seq(n, _ => 0)
  }

  /** One expired entry with all the bytes, then two fresh empty ones, in a project that keeps nothing unread. */
  function OneExpired(total: nat): Db {
    Db(map[1 := Project("p", None, Some(0))],
       map[1 := Entry(CacheKey(1, Sstate, "a"), Digest(Zeros(total)), total, 0, 0, false),
           2 := Entry(CacheKey(1, Sstate, "b"), Digest([]), 0, 0, 1, false),
           3 := Entry(CacheKey(1, Sstate, "c"), Digest([]), 0, 0, 2, false)],
       map[Digest(Zeros(total)) := Blob(total, 1), Digest([]) := Blob(0, 2)],
       3)
  }

  lemma OneExpiredExact(total: nat)
    requires total > 0
    ensures Exact(OneExpired(total))
  {
    var t := OneExpired(total);
    assert RefSet(t.entries, Digest(Zeros(total))) == {1};
    assert RefSet(t.entries, Digest([])) == {2, 3};
  }

  lemma OneExpiredInv(total: nat)
    requires total > 0
    ensures Inv(OneExpired(total))
  {
    hide RefSet, Zeros;
    OneExpiredExact(total);
  }

  lemma OneExpiredTotal(total: nat)
    requires total > 0
    ensures TotalSize(OneExpired(total)) == total
  {
    var m: map<Hash, nat> := map[];
    TotalAdd(m, Digest(Zeros(total)), total);
    TotalAdd(m[Digest(Zeros(total)) := total], Digest([]), 0);
    assert BlobSizes(OneExpired(total).blobs) == m[Digest(Zeros(total)) := total][Digest([]) := 0];
  }

  lemma OneExpiredPhases(total: nat, cfg: GcConfig)
    requires total > 0
    ensures var t := OneExpired(total);
            ExpiredSet(t, cfg, 1) == {1} && QuotaVictims(t) == {} && QuotaVictims(Evict(t, {1})) == {}
  {
    hide Zeros;
    var t := OneExpired(total);
    NoLimitsNoVictims(t);
    NoLimitsNoVictims(Evict(t, {1}));
  }

  lemma OneExpiredRows(total: nat, es: map<int, Entry>)
    requires es == OneExpired(total).entries
    ensures es.Keys == {1, 2, 3} && (es - {1}).Keys == {2, 3}
    ensures forall id :: id in es ==>
              !es[id].pinned && es[id].accessed == id - 1 && es[id].size == if id == 1 then total else 0
    ensures forall id :: id in es - {1} ==> (es - {1})[id] == es[id]
  {
    hide Zeros;
  }

  lemma OneExpiredLru(total: nat)
    ensures var es := OneExpired(total).entries;
            && Lru(es) == [1, 2, 3] && SizeList(Lru(es), es) == [total, 0, 0]
            && Lru(es - {1}) == [2, 3] && SizeList(Lru(es - {1}), es - {1}) == [0, 0]
  {
    hide *;
    var es := OneExpired(total).entries;
    OneExpiredRows(total, es);
    LruAre(es, [1, 2, 3], [total, 0, 0]);
    LruAre(es - {1}, [2, 3], [0, 0]);
  }

  lemma CutOneExpired(total: nat, quota: nat)
    requires total > quota
    ensures Cut([total, 0, 0], total, quota) == 1 && Cut([0, 0], total, quota) == 2
  {
    assert Cut([0], total, quota) == 1;
  }

  lemma OneExpiredVictims(total: nat, quota: nat)
    requires total > quota
    ensures var t := OneExpired(total);
            GlobalVictims(t, quota) == {1} && GlobalVictims(Evict(t, {1}), quota) == {2, 3}
  {
    hide *;
    var t := OneExpired(total);
    OneExpiredLru(total);
    OneExpiredTotal(total);
    CutOneExpired(total, quota);
    Listed();
    GlobalVictimsAfter(t, {1}, quota);
    VictimsAre(t.entries, [1, 2, 3], [total, 0, 0], total, quota, 1);
    VictimsAre(t.entries - {1}, [2, 3], [0, 0], total, quota, 2);
  }

  /**
   The dry run counts the expired entry twice and reports 2; the real run still measures its blob and evicts all 3.
   */
  lemma OverQuotaNotCovered(total: nat, cfg: GcConfig)
    requires total > cfg.globalQuota
    ensures var t := OneExpired(total);
            && Inv(t) && Exact(t) && TotalSize(t) == total
            && Report(t, cfg, 1, true).evictedEntries == 2 && Report(t, cfg, 1, false).evictedEntries == 3
  {
    hide *;
    var t := OneExpired(total);
    OneExpiredInv(total);
    OneExpiredExact(total);
    OneExpiredTotal(total);
    OneExpiredPhases(total, cfg);
    OneExpiredVictims(total, cfg.globalQuota);
    ReportsWithoutQuotas(t, cfg, 1, {1});
  }

  // ----- the global victims of the two runs -----

  lemma {:induction false} SumSeqGrows(sizes: seq<nat>, c: nat, m: nat)
    requires c <= m <= |sizes|
    ensures SumSeq(sizes[..c]) <= SumSeq(sizes[..m])
    decreases m
  {
    if c < m {
      SumSeqGrows(sizes, c, m - 1);
      SumPrefix(sizes, m - 1);
    }
  }

  /** An LRU prefix contains the victims if and only if it is everything or fits the quota by itself. */
  lemma PrefixCoversIff(rows: map<int, Entry>, usage: int, quota: int, m: nat)
    requires m <= |Lru(rows)|
    ensures Victims(rows, usage, quota) <= Elements(Lru(rows)[..m])
            <==> m == |Lru(rows)| || usage - BytesOf(rows, Elements(Lru(rows)[..m])) <= quota
  {
    hide *;
    var sizes := SizeList(Lru(rows), rows);
    var c := Cut(sizes, usage, quota);
    VictimsAre(rows, Lru(rows), sizes, usage, quota, c);
    LruPrefixBytes(rows, m);
    LruDistinct(rows);
    PrefixSubset(Lru(rows), c, m);
    PrefixNotSubset(Lru(rows), c, m);
    if c <= m {
      SumSeqGrows(sizes, c, m);
    }
  }

  lemma PrefixNotSubset(ids: seq<int>, c: nat, m: nat)
    requires m <= |ids| && c <= |ids| && forall i, j :: 0 <= i < j < |ids| ==> ids[i] != ids[j]
    ensures m < c ==> !(Elements(ids[..c]) <= Elements(ids[..m]))
  {
    if m < c {
      assert ids[..c][m] == ids[m] && ids[m] in Elements(ids[..c]);
      assert ids[m] !in ids[..m];
    }
  }

  lemma {:induction false} WithoutAppend(a: seq<int>, b: seq<int>, drop: set<int>)
    ensures Without(a + b, drop) == Without(a, drop) + Without(b, drop)
    decreases |a|
  {
    if a == [] {
      assert a + b == b;
    } else {
      assert (a + b)[1..] == a[1..] + b;
      WithoutAppend(a[1..], b, drop);
    }
  }

  /** The victims among the rows that are left lie inside the victims among all rows exactly under this condition. */
  lemma VictimsInsideIff(rows: map<int, Entry>, drop: set<int>, usage: int, quota: int)
    ensures var all := Victims(rows, usage, quota);
            Victims(rows - drop, usage, quota) <= all
            <==> (forall id :: id in rows - drop && !rows[id].pinned ==> id in all)
                 || usage - BytesOf(rows, all - drop) <= quota
  {
    hide *;
    var ids, rest := Lru(rows), Lru(rows - drop);
    var k := Cut(SizeList(ids, rows), usage, quota);
    VictimsAre(rows, ids, SizeList(ids, rows), usage, quota, k);
    LruWithout(rows, drop);
    var m := |Without(ids[..k], drop)|;
    WithoutAppend(ids[..k], ids[k..], drop);
    assert ids == ids[..k] + ids[k..];
    assert rest[..m] == Without(ids[..k], drop);
    PrefixCoversIff(rows - drop, usage, quota, m);
    KeptElements(ids[..k], drop);
    KeptBytes(rows, drop, Elements(ids[..k]));
    KeptSubset(rows, drop, Elements(ids[..k]), Victims(rows - drop, usage, quota));
    AllKept(rows, drop, Elements(ids[..k]), m);
  }

  lemma KeptElements(ids: seq<int>, drop: set<int>)
    ensures Elements(Without(ids, drop)) == Elements(ids) - drop
  {
  }

  lemma KeptBytes(rows: map<int, Entry>, drop: set<int>, all: set<int>)
    ensures BytesOf(rows - drop, all - drop) == BytesOf(rows, all - drop)
  {
    assert Only(Sizes(rows - drop), all - drop) == Only(Sizes(rows), all - drop);
  }

  lemma KeptSubset(rows: map<int, Entry>, drop: set<int>, all: set<int>, s: set<int>)
    requires forall id :: id in s ==> id in rows - drop
    ensures s <= all <==> s <= all - drop
  {
    if s <= all {
      forall id | id in s ensures id in all - drop {
        assert id in rows - drop;
      }
    }
  }

  /** The kept part of the prefix is the whole list of what is left exactly if it contains every unpinned row left. */
  lemma AllKept(rows: map<int, Entry>, drop: set<int>, all: set<int>, m: nat)
    requires m <= |Lru(rows - drop)| && Elements(Lru(rows - drop)[..m]) == all - drop
    ensures m == |Lru(rows - drop)| <==> forall id :: id in rows - drop && !rows[id].pinned ==> id in all
  {
    hide SizeList, Cut;
    var rest := Lru(rows - drop);
    LruDistinct(rows - drop);
    if m < |rest| {
      assert rest[m] !in rest[..m] && rest[m] !in all - drop;
      assert rest[m] in rows - drop && !rows[rest[m]].pinned;
    } else {
      assert rest[..m] == rest;
      forall id | id in rows - drop && !rows[id].pinned ensures id in all {
        assert id in rest;
        assert id in Elements(rest[..m]);
      }
    }
  }

  /**
   Once the global phase fires: the real run's global victims are among the dry run's if and only if those the dry
   run names beyond the expired and over-quota entries are all that is left, or would fit the quota by themselves.
   */
  lemma GlobalVictimsInsideIff(t: Db, cfg: GcConfig, now: int)
    ensures var v := AfterQuota(t, cfg, now);
            var named := GlobalVictims(t, cfg.globalQuota);
            GlobalVictims(v, cfg.globalQuota) <= named
            <==> Unpinned(v) <= named
                 || TotalSize(t) - BytesOf(t.entries, named - (t.entries.Keys - v.entries.Keys)) <= cfg.globalQuota
  {
    hide *;
    var x := ExpiredSet(t, cfg, now);
    var y := QuotaVictims(Evict(t, x));
    AfterQuotaIs(t, cfg, now, x, y);
    GlobalVictimsAfter(t, x + y, cfg.globalQuota);
    VictimsInsideIff(t.entries, x + y, TotalSize(t), cfg.globalQuota);
    var named := GlobalVictims(t, cfg.globalQuota);
    NamedInRows(t, cfg.globalQuota, x + y);
    LeftUnpinned(t, x + y, named);
  }

  lemma AfterQuotaIs(t: Db, cfg: GcConfig, now: int, x: set<int>, y: set<int>)
    requires x == ExpiredSet(t, cfg, now) && y == QuotaVictims(Evict(t, x))
    ensures AfterQuota(t, cfg, now) == Evict(t, x + y)
    ensures Evict(t, x + y).entries == t.entries - (x + y)
  {
    EvictTwice(t, x, y);
  }

  lemma NamedInRows(t: Db, quota: int, drop: set<int>)
    ensures var named := GlobalVictims(t, quota);
            named - (t.entries.Keys - (t.entries - drop).Keys) == named - drop
  {
  }

  lemma LeftUnpinned(t: Db, drop: set<int>, named: set<int>)
    ensures Unpinned(Evict(t, drop)) <= named
            <==> forall id :: id in t.entries - drop && !t.entries[id].pinned ==> id in named
  {
    var left := Unpinned(Evict(t, drop));
    if left <= named {
      forall id | id in t.entries - drop && !t.entries[id].pinned ensures id in named {
        assert id in left;
      }
    }
    if forall id :: id in t.entries - drop && !t.entries[id].pinned ==> id in named {
      forall id | id in left ensures id in named {
        assert id in t.entries - drop && !t.entries[id].pinned;
      }
    }
  }
}
