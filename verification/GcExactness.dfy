/** Exactly when the global phase's bookkeeping is right: sharing, leaks and blobs that are already dead. */
module GcExactness {
  import opened Sums
  import opened Ordering
  import opened Tables
  import opened Evictions
  import opened GcTheory
  import Gc

  /** Every victim that has bytes is the only claim on its blob. */
  ghost predicate SoleClaims(t: Db, s: set<int>) {
    forall id :: id in s && id in t.entries && t.entries[id].size > 0 ==>
      t.entries[id].hash in t.blobs && t.blobs[t.entries[id].hash].refcount == 1
  }

  ghost function WithBytes(t: Db, s: set<int>): set<int> {
    set id | id in t.entries && id in s && t.entries[id].size > 0
  }

  lemma {:induction false} ZeroTotal<K>(m: map<K, nat>)
    requires forall k :: k in m ==> m[k] == 0
    ensures Total(m) == 0
    decreases m.Keys
  {
    if m.Keys != {} {
      var k :| k in m;
      TotalRemove(m, k);
      ZeroTotal(m - {k});
    }
  }

  lemma OnlyWithBytesCount(t: Db, s: set<int>)
    requires s <= t.entries.Keys
    ensures BytesOf(t.entries, s) == BytesOf(t.entries, WithBytes(t, s))
  {
    var p := WithBytes(t, s);
    assert s == p + (s - p);
    TotalUnion(Sizes(t.entries), p, s - p);
    ZeroTotal(Only(Sizes(t.entries), s - p));
  }

  lemma SoleClaimIsAlone(t: Db, id: int)
    requires Inv(t) && id in t.entries && t.blobs[t.entries[id].hash].refcount == 1
    ensures RefSet(t.entries, t.entries[id].hash) == {id}
  {
    var refs := RefSet(t.entries, t.entries[id].hash);
    assert id in refs && |refs| <= 1;
    assert |refs - {id}| == |refs| - 1;
    assert refs - {id} == {};
  }

  lemma SoleClaimIsReleased(t: Db, s: set<int>, id: int)
    requires Inv(t) && id in s && id in t.entries && t.blobs[t.entries[id].hash].refcount == 1
    ensures t.entries[id].hash in Released(t, s)
  {
    var h := t.entries[id].hash;
    SoleClaimIsAlone(t, id);
    assert RefSet(t.entries - s, h) == {} by {
      forall x ensures x !in RefSet(t.entries - s, h) {
        assert x in RefSet(t.entries - s, h) ==> x in RefSet(t.entries, h);
      }
    }
    assert Refs(t.entries, h) == 1;
  }

  lemma SoleClaimsReleaseAll(t: Db, s: set<int>)
    requires Inv(t) && s <= t.entries.Keys && SoleClaims(t, s)
    ensures ReleasedBytes(t, s) >= BytesOf(t.entries, s)
  {
    var p := WithBytes(t, s);
    var f := HashesOf(t, p);
    var sizes := BlobSizes(t.blobs);
    OnlyWithBytesCount(t, s);
    SizesAgree(t, p);
    forall id | id in f ensures f[id] in Released(t, s) && RefSet(t.entries, f[id]) == {id} {
      SoleClaimIsReleased(t, s, id);
      SoleClaimIsAlone(t, id);
    }
    forall i, j | i in f && j in f && f[i] == f[j] ensures i == j {
      assert {i} == {j};
    }
    assert Only(sizes, f.Values).Keys == f.Values;
    TotalRename(Only(Sizes(t.entries), p), Only(sizes, f.Values), f);
    TotalSubset(Only(sizes, f.Values), Only(sizes, Released(t, s)));
  }

  /** A released blob has a victim other than `id` unless `id` was its only claim. */
  lemma AnotherVictim(t: Db, s: set<int>, id: int, h: Hash) returns (other: int)
    requires Inv(t) && id in s && id in t.entries && t.blobs[t.entries[id].hash].refcount != 1
    requires h in Released(t, s)
    ensures other in t.entries && other in s - {id} && t.entries[other].hash == h
  {
    other := VictimOf(t, s, h);
    if other == id {
      var refs := RefSet(t.entries, h);
      EvictConserves(t, s, h);
      EvictKeepsInv(t, s);
      assert RefSet(t.entries - s, h) == {} by { DeadIsUnreferenced(Evict(t, s), h); }
      assert |refs| == t.blobs[h].refcount && id in refs;
      assert |refs - {id}| == |refs| - 1;
      NonEmpty(refs - {id});
      other :| other in refs - {id};
      assert other !in RefSet(t.entries - s, h);
    }
  }

  lemma OtherClaimWithholds(t: Db, s: set<int>, id: int)
    requires Inv(t) && s <= t.entries.Keys && id in s
    requires t.entries[id].size > 0 && t.blobs[t.entries[id].hash].refcount != 1
    ensures ReleasedBytes(t, s) < BytesOf(t.entries, s)
  {
    hide Inv, Released, RefSet;
    var rest := s - {id};
    var f := HashesOf(t, rest);
    forall h | h in Released(t, s) ensures h in f.Values {
      var other := AnotherVictim(t, s, id, h);
      assert other in f && f[other] == h;
    }
    SizesAgree(t, rest);
    var m, n := Only(Sizes(t.entries), rest), Only(BlobSizes(t.blobs), Released(t, s));
    assert forall k :: k in f && f[k] in n ==> m[k] == n[f[k]];
    TotalCovered(m, n, f);
    assert s == rest + {id};
    TotalUnion(Sizes(t.entries), rest, {id});
    BytesOfOne(t.entries, id);
  }

  /** An eviction releases all the bytes it counts if and only if each victim with bytes has a refcount of 1. */
  lemma ReleasesAllIff(t: Db, s: set<int>)
    requires Inv(t) && s <= t.entries.Keys
    ensures ReleasedBytes(t, s) == BytesOf(t.entries, s) <==> SoleClaims(t, s)
  {
    ReleasedAtMostEvicted(t, s);
    if SoleClaims(t, s) {
      SoleClaimsReleaseAll(t, s);
    } else {
      var id :| id in s && id in t.entries && t.entries[id].size > 0 && t.blobs[t.entries[id].hash].refcount != 1;
      OtherClaimWithholds(t, s, id);
    }
  }

  /**
   With no dead rows beforehand, the global phase's `usage` variable ends at the total that cleanup leaves if and
   only if every victim with bytes has a refcount of 1: one shared or leaked blob is enough to break it.
   */
  lemma CounterIsTotalIff(t: Db, quota: int)
    requires Inv(t) && DeadRows(t) == {}
    ensures TotalSize(DropDead(Evict(t, GlobalVictims(t, quota)))) == GlobalCounter(t, quota)
            <==> SoleClaims(t, GlobalVictims(t, quota))
  {
    GlobalAccounting(t, quota);
    NoneDead(t);
    ReleasesAllIff(t, GlobalVictims(t, quota));
  }

  /** Victims' bytes that stay because something else still claims their blobs. */
  ghost function Withheld(t: Db, quota: int): int {
    BytesOf(t.entries, GlobalVictims(t, quota)) - ReleasedBytes(t, GlobalVictims(t, quota))
  }

  /** The entries the three phases of a sweep evict. */
  ghost function Evicted(t: Db, cfg: GcConfig, now: int): set<int> {
    ExpiredSet(t, cfg, now) + QuotaVictims(AfterTtl(t, cfg, now)) + GlobalVictims(AfterQuota(t, cfg, now),
        cfg.globalQuota)
  }

  lemma UnpinnedAfterSweep(t: Db, cfg: GcConfig, now: int)
    ensures Unpinned(Sweep(t, cfg, now)) == Unpinned(t) - Evicted(t, cfg, now)
  {
    hide ExpiredSet, QuotaVictims, GlobalVictims, Unpinned;
    var t1, t2, t3 := AfterTtl(t, cfg, now), AfterQuota(t, cfg, now), AfterGlobal(t, cfg, now);
    UnpinnedAfter(t, ExpiredSet(t, cfg, now));
    UnpinnedAfter(t1, QuotaVictims(t1));
    UnpinnedAfter(t2, GlobalVictims(t2, cfg.globalQuota));
    UnpinnedByEntries(t3, DropDead(t3));
  }

  lemma UnpinnedByEntries(t: Db, u: Db)
    requires t.entries == u.entries
    ensures Unpinned(t) == Unpinned(u)
  {
  }

  /**
   One sweep settles the store if and only if its phases evict every unpinned entry, or the bytes withheld by sharing
   and leaks are made up for by the bytes that were dead already and by what the loop went below the quota.
   */
  lemma SweepSettlesIff(t: Db, cfg: GcConfig, now: int)
    requires Inv(t)
    ensures var u := AfterQuota(t, cfg, now);
            Settled(Sweep(t, cfg, now), cfg)
            <==> Unpinned(t) <= Evicted(t, cfg, now)
                 || Withheld(u, cfg.globalQuota) <= DeadBytes(u) + cfg.globalQuota - GlobalCounter(u, cfg.globalQuota)
  {
    hide GlobalVictims, GlobalCounter, AfterTtl, AfterQuota, Inv, Evicted, Unpinned;
    QuotaKeepsInv(t, cfg, now);
    UnpinnedAfterSweep(t, cfg, now);
    NothingLeft(Unpinned(t), Evicted(t, cfg, now));
    GlobalAccounting(AfterQuota(t, cfg, now), cfg.globalQuota);
  }

  lemma NothingLeft<T>(a: set<T>, b: set<T>)
    ensures a - b == {} <==> a <= b
  {
    if a - b == {} {
      forall x | x in a ensures x in b {
        assert x !in a - b;
      }
    }
  }

  lemma QuotaKeepsInv(t: Db, cfg: GcConfig, now: int)
    requires Inv(t)
    ensures Inv(AfterQuota(t, cfg, now))
  {
    hide Inv;
    Gc.StagesKeepInv(t, cfg, now, false);
  }

  /** It settles the store whenever the global victims with bytes are the only claims on their blobs. */
  lemma SoleClaimsSettle(t: Db, cfg: GcConfig, now: int)
    requires Inv(t)
    requires SoleClaims(AfterQuota(t, cfg, now), GlobalVictims(AfterQuota(t, cfg, now), cfg.globalQuota))
    ensures Settled(Sweep(t, cfg, now), cfg)
  {
    hide Inv, SoleClaims, AfterQuota, Settled;
    var u := AfterQuota(t, cfg, now);
    QuotaKeepsInv(t, cfg, now);
    VictimsAreRows(u, cfg.globalQuota);
    ReleasesAllIff(u, GlobalVictims(u, cfg.globalQuota));
    SweepSettlesIff(t, cfg, now);
    UnpinnedAfterSweep(t, cfg, now);
    NothingLeft(Unpinned(t), Evicted(t, cfg, now));
    CounterReaches(t, cfg, now);
  }

  lemma VictimsAreRows(t: Db, quota: int)
    ensures GlobalVictims(t, quota) <= t.entries.Keys
  {
  }

  /** The loop's counter ends within the quota unless the loop ran out of unpinned entries. */
  lemma CounterReaches(t: Db, cfg: GcConfig, now: int)
    ensures GlobalCounter(AfterQuota(t, cfg, now), cfg.globalQuota) <= cfg.globalQuota
        || Unpinned(Sweep(t, cfg, now)) == {}
  {
    hide AfterQuota, Victims;
    var u := AfterQuota(t, cfg, now);
    var s := GlobalVictims(u, cfg.globalQuota);
    Gc.GlobalActs(u, cfg.globalQuota);
    VictimsReach(u.entries, TotalSize(u), cfg.globalQuota);
    assert Sweep(t, cfg, now).entries == u.entries - s;
    if GlobalCounter(u, cfg.globalQuota) > cfg.globalQuota {
      assert forall id :: id !in Unpinned(Sweep(t, cfg, now));
    }
  }

  /** What the phase would have to evict if it measured the bytes that cleanup is going to leave. */
  ghost function Needed(t: Db, quota: int): set<int> {
    Victims(t.entries, TotalSize(t) - DeadBytes(t), quota)
  }

  /**
   Counting dead blobs changes what the global phase evicts unless what is needed already exhausts the unpinned
   entries or would fit the quota with the dead bytes counted in; it never makes the phase evict less.
   */
  lemma DeadBytesHarmlessIff(t: Db, quota: int)
    ensures Needed(t, quota) <= GlobalVictims(t, quota)
    ensures Needed(t, quota) == GlobalVictims(t, quota)
            <==> (Unpinned(t) <= Needed(t, quota)
                  || TotalSize(t) - BytesOf(t.entries, Needed(t, quota)) <= quota)
  {
    hide *;
    var ids := Lru(t.entries);
    var k := Cut(SizeList(ids, t.entries), TotalSize(t) - DeadBytes(t), quota);
    NeededIs(t, quota);
    VictimsReach(t.entries, TotalSize(t), quota);
    UnpinnedIs(t, Needed(t, quota));
    LruPrefixBytes(t.entries, k);
    NeededIsPrefix(t, quota);
    if Unpinned(t) <= Needed(t, quota) {
      AllTaken(t, k);
    }
    if k == |ids| || TotalSize(t) - BytesOf(t.entries, Needed(t, quota)) <= quota {
      Gc.StopsAtVictims(t.entries, TotalSize(t), quota, k);
    }
  }

  lemma NeededIs(t: Db, quota: int)
    ensures var k := Cut(SizeList(Lru(t.entries), t.entries), TotalSize(t) - DeadBytes(t), quota);
            Needed(t, quota) == Elements(Lru(t.entries)[..k])
    ensures GlobalVictims(t, quota) == Victims(t.entries, TotalSize(t), quota)
  {
    Gc.GlobalActs(t, quota);
  }

  lemma UnpinnedIs(t: Db, s: set<int>)
    ensures Unpinned(t) <= s <==> forall id :: id in t.entries && !t.entries[id].pinned ==> id in s
  {
    if Unpinned(t) <= s {
      forall id | id in t.entries && !t.entries[id].pinned ensures id in s {
        assert id in Unpinned(t);
      }
    }
    if forall id :: id in t.entries && !t.entries[id].pinned ==> id in s {
      forall x | x in Unpinned(t) ensures x in s {
        assert x in t.entries && !t.entries[x].pinned;
      }
    }
  }

  lemma NeededIsPrefix(t: Db, quota: int)
    ensures Needed(t, quota) <= GlobalVictims(t, quota)
  {
    hide Lru, SizeList, DeadBytes, TotalSize;
    var ids := Lru(t.entries);
    var sizes := SizeList(ids, t.entries);
    var k := Cut(sizes, TotalSize(t) - DeadBytes(t), quota);
    var c := Cut(sizes, TotalSize(t), quota);
    PrefixSubset(ids, k, c);
  }

  lemma AllTaken(t: Db, k: nat)
    requires k <= |Lru(t.entries)| && Unpinned(t) <= Elements(Lru(t.entries)[..k])
    ensures k == |Lru(t.entries)|
  {
    hide SizeList, Cut;
    var ids := Lru(t.entries);
    Gc.LruDistinct(t.entries);
    forall x | x in ids ensures x in ids[..k] {
      assert x in Unpinned(t);
    }
    PrefixHasAll(ids, k);
  }

  lemma PrefixHasAll(ids: seq<int>, k: nat)
    requires k <= |ids| && forall i, j :: 0 <= i < j < |ids| ==> ids[i] != ids[j]
    requires forall x :: x in ids ==> x in ids[..k]
    ensures k == |ids|
  {
    if k < |ids| {
      NextIsNew(ids, k);
    }
  }

  lemma NextIsNew(ids: seq<int>, k: nat)
    requires k < |ids| && forall i, j :: 0 <= i < j < |ids| ==> ids[i] != ids[j]
    ensures ids[k] in ids && ids[k] !in ids[..k]
  {
  }
}
