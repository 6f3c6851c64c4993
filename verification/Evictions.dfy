/** Which entries each eviction phase removes, stated without reference to the loops that remove them. */
module Evictions {
  import opened Prelude
  import opened Sums
  import opened Ordering
  import opened Tables

  datatype GcConfig = GcConfig(sstateDays: nat, downloadsDays: nat, globalQuota: nat)

  function DefaultTtl(cfg: GcConfig, kind: Kind): nat {
    (match kind case Sstate => cfg.sstateDays case Downloads => cfg.downloadsDays) * 86_400
  }

  // ----- TTL -----

  /** The effective TTL of an entry: the project's own, or else the default of its kind. */
  function EffectiveTtl(p: Project, cfg: GcConfig, kind: Kind): int {
    match p.ttl case Some(s) => s case None => DefaultTtl(cfg, kind)
  }

  /** Unpinned entries not accessed within their effective TTL. */
  function ExpiredSet(t: Db, cfg: GcConfig, now: int): set<int> {
    set id | id in t.entries && t.entries[id].key.project in t.projects && !t.entries[id].pinned
             && t.entries[id].accessed
                < now - EffectiveTtl(t.projects[t.entries[id].key.project], cfg, t.entries[id].key.kind)
  }

  /**
   The documented rule, column by column: an unpinned row of a project with its own TTL goes when it was last
   accessed longer ago than that many seconds, and any other unpinned row when it was last accessed longer ago than
   the configured days for its kind.
   */
  predicate OutOfTime(e: Entry, projects: map<int, Project>, cfg: GcConfig, now: int) {
    && !e.pinned && e.key.project in projects
    && var ttl := projects[e.key.project].ttl;
    && (ttl.Some? ==> e.accessed + ttl.value < now)
    && (ttl.None? && e.key.kind == Sstate ==> e.accessed + cfg.sstateDays * 86_400 < now)
    && (ttl.None? && e.key.kind == Downloads ==> e.accessed + cfg.downloadsDays * 86_400 < now)
  }

  lemma ExpiredIff(t: Db, cfg: GcConfig, now: int, id: int)
    requires id in t.entries
    ensures id in ExpiredSet(t, cfg, now) <==> OutOfTime(t.entries[id], t.projects, cfg, now)
  {
  }

  /** The rows one pass of the TTL phase selects: the WHERE clause as written, split over two comparisons. */
  function TtlSelect(t: Db, kind: Kind, now: int, cutoffDefault: int): set<int> {
    set id | id in t.entries && t.entries[id].key.project in t.projects
             && t.entries[id].key.kind == kind && !t.entries[id].pinned
             && t.entries[id].accessed
                < now - (match t.projects[t.entries[id].key.project].ttl case Some(s) => s case None => 0)
             && (t.projects[t.entries[id].key.project].ttl.Some? || t.entries[id].accessed < cutoffDefault)
  }

  function OfKind(t: Db, s: set<int>, kind: Kind): set<int> {
    set id | id in s && id in t.entries && t.entries[id].key.kind == kind
  }

  /** The split condition selects exactly the expired entries of the kind, for every non-negative default. */
  lemma TtlSelectIsExpired(t: Db, cfg: GcConfig, kind: Kind, now: int)
    ensures TtlSelect(t, kind, now, now - DefaultTtl(cfg, kind)) == OfKind(t, ExpiredSet(t, cfg, now), kind)
  {
    var d := DefaultTtl(cfg, kind);
    assert d >= 0;
    forall id ensures id in TtlSelect(t, kind, now, now - d) <==> id in OfKind(t, ExpiredSet(t, cfg, now), kind) {
    }
  }

  // ----- least recently used first -----

  function LruRanks(rows: map<int, Entry>): set<Rank> {
    set id | id in rows && !rows[id].pinned :: Rank(Num(rows[id].accessed), id)
  }

  function Ids(s: seq<Rank>): (r: seq<int>)
    ensures |r| == |s| && forall i :: 0 <= i < |r| ==> r[i] == s[i].id
  {
    seq(|s|, i requires 0 <= i < |s| => s[i].id)
  }

  ghost predicate LruBefore(rows: map<int, Entry>, a: int, b: int)
    requires a in rows && b in rows
  {
    rows[a].accessed < rows[b].accessed || (rows[a].accessed == rows[b].accessed && a < b)
  }

  /** `WHERE pinned = 0 ORDER BY last_accessed ASC, id ASC`. */
  function Lru(rows: map<int, Entry>): (ids: seq<int>)
    ensures forall i :: 0 <= i < |ids| ==> ids[i] in rows && !rows[ids[i]].pinned
    ensures forall id :: id in rows && !rows[id].pinned ==> id in ids
    ensures forall i, j :: 0 <= i < j < |ids| ==> LruBefore(rows, ids[i], ids[j])
  {
    var ranks := Sorted(LruRanks(rows), false);
    LruMembers(rows, ranks);
    LruComplete(rows, ranks);
    Ids(ranks)
  }

  lemma LruMembers(rows: map<int, Entry>, ranks: seq<Rank>)
    requires Elements(ranks) == LruRanks(rows) && StrictlySorted(ranks, false)
    ensures forall i :: 0 <= i < |ranks| ==> ranks[i].id in rows && !rows[ranks[i].id].pinned
    ensures forall i, j :: 0 <= i < j < |ranks| ==> LruBefore(rows, ranks[i].id, ranks[j].id)
  {
    forall i | 0 <= i < |ranks|
      ensures ranks[i].id in rows && !rows[ranks[i].id].pinned
      ensures ranks[i].key == Num(rows[ranks[i].id].accessed)
    {
      assert ranks[i] in Elements(ranks);
    }
    forall i, j | 0 <= i < j < |ranks| ensures LruBefore(rows, ranks[i].id, ranks[j].id) {
      assert Before(ranks[i], ranks[j], false);
    }
  }

  lemma LruComplete(rows: map<int, Entry>, ranks: seq<Rank>)
    requires Elements(ranks) == LruRanks(rows)
    ensures forall id :: id in rows && !rows[id].pinned ==> id in Ids(ranks)
  {
    forall id | id in rows && !rows[id].pinned ensures id in Ids(ranks) {
      var r := Rank(Num(rows[id].accessed), id);
      assert r in LruRanks(rows);
      assert r in Elements(ranks);
      var i :| 0 <= i < |ranks| && ranks[i] == r;
      assert Ids(ranks)[i] == id;
    }
  }

  function SizeList(ids: seq<int>, rows: map<int, Entry>): (r: seq<nat>)
    requires forall i :: 0 <= i < |ids| ==> ids[i] in rows
    ensures |r| == |ids| && forall i :: 0 <= i < |r| ==> r[i] == rows[ids[i]].size
  {
    seq(|ids|, i requires 0 <= i < |ids| => rows[ids[i]].size)
  }

  /** How many candidates it takes to bring `usage` to `quota`: the least such count, or all of them. */
  ghost function Cut(sizes: seq<nat>, usage: int, quota: int): (k: nat)
    ensures k <= |sizes|
    ensures k == |sizes| || usage - SumSeq(sizes[..k]) <= quota
    ensures forall j :: 0 <= j < k ==> usage - SumSeq(sizes[..j]) > quota
  {
    if usage <= quota || sizes == [] then 0
    else
      var k := Cut(sizes[1..], usage - sizes[0], quota) + 1;
      assert forall j :: 0 < j <= k ==> sizes[..j][1..] == sizes[1..][..j - 1];
      assert forall j :: 0 < j <= k ==> SumSeq(sizes[..j]) == sizes[0] + SumSeq(sizes[1..][..j - 1]);
      k
  }

  /** The shortest LRU prefix of the unpinned rows that brings `usage` to `quota`, or all of them. */
  ghost function Victims(rows: map<int, Entry>, usage: int, quota: int): (s: set<int>)
    ensures forall id :: id in s ==> id in rows && !rows[id].pinned
  {
    var ids := Lru(rows);
    Elements(ids[..Cut(SizeList(ids, rows), usage, quota)])
  }

  lemma BytesOfNone(rows: map<int, Entry>)
    ensures BytesOf(rows, {}) == 0
  {
    assert Only(Sizes(rows), {}) == map[];
  }

  lemma BytesOfOne(rows: map<int, Entry>, id: int)
    requires id in rows
    ensures BytesOf(rows, {id}) == rows[id].size
  {
    var one := Only(Sizes(rows), {id});
    TotalRemove(one, id);
    assert one - {id} == map[];
  }

  lemma {:induction false} PrefixBytes(rows: map<int, Entry>, ids: seq<int>)
    requires forall i :: 0 <= i < |ids| ==> ids[i] in rows
    requires forall i, j :: 0 <= i < j < |ids| ==> ids[i] != ids[j]
    ensures BytesOf(rows, Elements(ids)) == SumSeq(SizeList(ids, rows))
  {
    hide Sizes, Total;
    if ids == [] {
      BytesOfNone(rows);
      assert Elements(ids) == {};
    } else {
      var rest := ids[1..];
      PrefixBytes(rows, rest);
      assert SizeList(ids, rows)[1..] == SizeList(rest, rows);
      assert Elements(ids) == {ids[0]} + Elements(rest);
      TotalUnion(Sizes(rows), {ids[0]}, Elements(rest));
      BytesOfOne(rows, ids[0]);
    }
  }

  /** Bytes of the first `j` LRU rows. */
  lemma LruPrefixBytes(rows: map<int, Entry>, j: nat)
    requires j <= |Lru(rows)|
    ensures BytesOf(rows, Elements(Lru(rows)[..j])) == SumSeq(SizeList(Lru(rows), rows)[..j])
  {
    var ids := Lru(rows);
    PrefixBytes(rows, ids[..j]);
    assert SizeList(ids[..j], rows) == SizeList(ids, rows)[..j];
  }

  /** Victims are closed downwards in LRU order: a spared row was used after every victim. */
  lemma VictimsLru(rows: map<int, Entry>, usage: int, quota: int, a: int, b: int)
    requires a in Victims(rows, usage, quota)
    requires b in rows && !rows[b].pinned && b !in Victims(rows, usage, quota)
    ensures LruBefore(rows, a, b)
  {
    hide Cut, SizeList, LruRanks;
    var ids := Lru(rows);
    var k := Cut(SizeList(ids, rows), usage, quota);
    var i :| 0 <= i < k && ids[..k][i] == a;
    var j :| 0 <= j < |ids| && ids[j] == b;
    assert forall m :: 0 <= m < k ==> ids[m] in ids[..k];
  }

  /** Victims reach the quota unless every unpinned row is one. */
  lemma VictimsReach(rows: map<int, Entry>, usage: int, quota: int)
    ensures var s := Victims(rows, usage, quota);
            usage - BytesOf(rows, s) <= quota || forall id :: id in rows && !rows[id].pinned ==> id in s
  {
    var ids := Lru(rows);
    var k := Cut(SizeList(ids, rows), usage, quota);
    LruPrefixBytes(rows, k);
    if k == |ids| {
      assert ids[..k] == ids;
    }
  }

  lemma PrefixSubset(ids: seq<int>, i: nat, j: nat)
    requires i <= |ids| && j <= |ids|
    ensures i <= j ==> Elements(ids[..i]) <= Elements(ids[..j])
  {
    if i <= j {
      assert forall m :: 0 <= m < i ==> ids[..i][m] == ids[..j][m];
    }
  }

  /** No shorter LRU prefix would have reached it. */
  lemma VictimsMinimal(rows: map<int, Entry>, usage: int, quota: int, j: nat)
    requires j <= |Lru(rows)| && Elements(Lru(rows)[..j]) < Victims(rows, usage, quota)
    ensures usage - BytesOf(rows, Elements(Lru(rows)[..j])) > quota
  {
    var ids := Lru(rows);
    var k := Cut(SizeList(ids, rows), usage, quota);
    LruPrefixBytes(rows, j);
    PrefixSubset(ids, k, j);
  }

  /** Under the quota nothing is evicted; over it something is, if anything can be. */
  lemma VictimsEmptyIff(rows: map<int, Entry>, usage: int, quota: int)
    ensures Victims(rows, usage, quota) == {} <==> usage <= quota || forall id :: id in rows ==> rows[id].pinned
  {
    var ids := Lru(rows);
    var sizes := SizeList(ids, rows);
    if usage > quota && ids != [] {
      assert Cut(sizes, usage, quota) > 0;
      assert ids[..Cut(sizes, usage, quota)][0] in Victims(rows, usage, quota);
    }
    if usage > quota && exists id :: id in rows && !rows[id].pinned {
      var id :| id in rows && !rows[id].pinned;
      assert id in ids;
    }
  }

  // ----- per-project quota -----

  ghost function Usage(t: Db, p: int): nat {
    Total(Sizes(OfProject(t.entries, p)))
  }

  ghost function ProjectVictims(t: Db, p: int): set<int> {
    if p in t.projects && t.projects[p].quota.Some?
    then Victims(OfProject(t.entries, p), Usage(t, p), t.projects[p].quota.value)
    else {}
  }

  ghost function QuotaVictims(t: Db): set<int> {
    set id | id in t.entries && id in ProjectVictims(t, t.entries[id].key.project)
  }

  /** A project's eviction depends on its own row and entries alone. */
  function PinnedRows(rows: map<int, Entry>): map<int, Entry> {
    map id | id in rows && rows[id].pinned :: rows[id]
  }

  ghost function PinnedBytes(rows: map<int, Entry>): nat {
    Total(Sizes(PinnedRows(rows)))
  }

  lemma OfProjectAfter(t: Db, p: int)
    ensures OfProject(Evict(t, QuotaVictims(t)).entries, p) == OfProject(t.entries, p) - ProjectVictims(t, p)
  {
  }

  /** After the quota phase every limited project fits its quota or holds nothing but pinned bytes. */
  lemma QuotaPhaseFits(t: Db, p: int)
    requires p in t.projects && t.projects[p].quota.Some?
    ensures var rows := OfProject(t.entries, p);
            var left := Usage(Evict(t, QuotaVictims(t)), p);
            left <= t.projects[p].quota.value || left == PinnedBytes(rows)
  {
    OfProjectAfter(t, p);
    VictimsFit(OfProject(t.entries, p), t.projects[p].quota.value);
  }

  lemma VictimsFit(rows: map<int, Entry>, quota: int)
    ensures var left := Total(Sizes(rows - Victims(rows, Total(Sizes(rows)), quota)));
            left <= quota || left == PinnedBytes(rows)
  {
    var usage := Total(Sizes(rows));
    var s := Victims(rows, usage, quota);
    VictimsReach(rows, usage, quota);
    BytesAfter(rows, s);
    if usage - BytesOf(rows, s) > quota {
      OnlyPinnedLeft(rows, s);
    }
  }

  lemma BytesAfter(rows: map<int, Entry>, s: set<int>)
    ensures Total(Sizes(rows - s)) == Total(Sizes(rows)) - BytesOf(rows, s)
  {
    TotalSplit(Sizes(rows), s);
    assert Sizes(rows - s) == Sizes(rows) - s;
  }

  lemma OnlyPinnedLeft(rows: map<int, Entry>, s: set<int>)
    requires forall id :: id in s ==> id in rows && !rows[id].pinned
    requires forall id :: id in rows && !rows[id].pinned ==> id in s
    ensures rows - s == PinnedRows(rows)
  {
    var left, pinned := rows - s, PinnedRows(rows);
    assert forall id :: id in left <==> id in pinned;
    assert left == pinned;
  }

  /** A project without a quota, or within it, loses nothing to the quota phase. */
  lemma QuotaPhaseSpares(t: Db, p: int)
    requires p in t.projects ==> t.projects[p].quota.None? || Usage(t, p) <= t.projects[p].quota.value
    ensures OfProject(Evict(t, QuotaVictims(t)).entries, p) == OfProject(t.entries, p)
  {
    OfProjectAfter(t, p);
    if p in t.projects && t.projects[p].quota.Some? {
      VictimsEmptyIff(OfProject(t.entries, p), Usage(t, p), t.projects[p].quota.value);
    }
    assert ProjectVictims(t, p) == {};
  }

  // ----- global quota and the whole sweep -----

  ghost function GlobalVictims(t: Db, quota: int): set<int> {
    Victims(t.entries, TotalSize(t), quota)
  }

  /** The bytes the global phase ends up accounting for: the measured total less the sizes of its victims. */
  ghost function GlobalCounter(t: Db, quota: int): int {
    TotalSize(t) - BytesOf(t.entries, GlobalVictims(t, quota))
  }

  ghost function AfterTtl(t: Db, cfg: GcConfig, now: int): Db {
    Evict(t, ExpiredSet(t, cfg, now))
  }

  ghost function AfterQuota(t: Db, cfg: GcConfig, now: int): Db {
    var u := AfterTtl(t, cfg, now);
    Evict(u, QuotaVictims(u))
  }

  ghost function AfterGlobal(t: Db, cfg: GcConfig, now: int): Db {
    var u := AfterQuota(t, cfg, now);
    Evict(u, GlobalVictims(u, cfg.globalQuota))
  }

  /** One full sweep with nothing running beside it. */
  ghost function Sweep(t: Db, cfg: GcConfig, now: int): Db {
    DropDead(AfterGlobal(t, cfg, now))
  }

  ghost function Unpinned(t: Db): set<int> {
    set id | id in t.entries && !t.entries[id].pinned
  }
}
