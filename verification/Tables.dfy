/** The `projects`, `entries` and `blobs` tables, and each SQL transaction as one step on them. */
module Tables {
  import opened Prelude
  import opened Sums

  newtype Byte = b: int | 0 <= b < 256

  type Bytes = seq<Byte>

  /** SHA-256 with collisions ruled out: equal digests come from equal bytes. */
  datatype Hash = Digest(of: Bytes)

  datatype Kind = Sstate | Downloads

  /** `UNIQUE(project_id, kind, path)`. */
  datatype CacheKey = CacheKey(project: int, kind: Kind, path: string)

  datatype Entry = Entry(key: CacheKey, hash: Hash, size: nat, created: int, accessed: int, pinned: bool)

  datatype Blob = Blob(size: nat, refcount: int)

  datatype Project = Project(name: string, quota: Option<int>, ttl: Option<int>)

  /** `lastId` is the AUTOINCREMENT high-water mark of `entries`. */
  datatype Db = Db(
    projects: map<int, Project>,
    entries: map<int, Entry>,
    blobs: map<Hash, Blob>,
    lastId: int)

  // ----- reading -----

  ghost predicate Has(es: map<int, Entry>, k: CacheKey) {
    exists id :: id in es && es[id].key == k
  }

  ghost function Find(es: map<int, Entry>, k: CacheKey): (r: Option<int>)
    ensures r.Some? ==> r.value in es && es[r.value].key == k
    ensures r.None? ==> forall id :: id in es ==> es[id].key != k
  {
    if Has(es, k) then var id :| id in es && es[id].key == k; Some(id) else None
  }

  ghost function RefSet(es: map<int, Entry>, h: Hash): set<int> {
    set id | id in es && es[id].hash == h
  }

  /** The number of entries that reference blob `h`. */
  ghost function Refs(es: map<int, Entry>, h: Hash): nat {
    |RefSet(es, h)|
  }

  /** The number of references that disappear when the entries in `s` do. */
  ghost function RefsIn(es: map<int, Entry>, s: set<int>, h: Hash): int {
    Refs(es, h) - Refs(es - s, h)
  }

  function Sizes(es: map<int, Entry>): map<int, nat> {
    map id | id in es :: es[id].size
  }

  function BlobSizes(blobs: map<Hash, Blob>): map<Hash, nat> {
    map h | h in blobs :: blobs[h].size
  }

  /** `SELECT SUM(size_bytes) FROM blobs`. */
  ghost function TotalSize(t: Db): nat {
    Total(BlobSizes(t.blobs))
  }

  /** Logical bytes of the entries in `s`. */
  ghost function BytesOf(es: map<int, Entry>, s: set<int>): nat {
    Total(Only(Sizes(es), s))
  }

  // ----- transactions -----

  /** `Blobs::decr`. */
  function Decr(blobs: map<Hash, Blob>, h: Hash): Result<map<Hash, Blob>> {
    if h in blobs then Ok(blobs[h := blobs[h].(refcount := blobs[h].refcount - 1)]) else Err(NotFound)
  }

  /** `Blobs::upsert_incr`. */
  function Incr(blobs: map<Hash, Blob>, h: Hash, size: nat): map<Hash, Blob> {
    if h in blobs then blobs[h := blobs[h].(refcount := blobs[h].refcount + 1)]
    else blobs[h := Blob(size, 1)]
  }

  /** `Entries::upsert`: replace the entry at `k` or insert one, moving the refcount only if the blob changes. */
  ghost function Upsert(t: Db, k: CacheKey, h: Hash, size: nat, now: int): Result<Db> {
    match Find(t.entries, k)
    case Some(id) => Replace(t, id, h, size, now)
    case None => Insert(t, k, h, size, now)
  }

  function Replace(t: Db, id: int, h: Hash, size: nat, now: int): Result<Db>
    requires id in t.entries
  {
    var es := t.entries[id := t.entries[id].(hash := h, size := size, accessed := now)];
    if t.entries[id].hash == h then Ok(t.(entries := es))
    else match Decr(t.blobs, t.entries[id].hash)
         case Err(e) => Err(e)
         case Ok(bs) => Ok(t.(entries := es, blobs := Incr(bs, h, size)))
  }

  function Insert(t: Db, k: CacheKey, h: Hash, size: nat, now: int): Result<Db> {
    if k.project !in t.projects then Err(ForeignKey)
    else
      var id := t.lastId + 1;
      Ok(t.(entries := t.entries[id := Entry(k, h, size, now, now, false)],
            blobs := Incr(t.blobs, h, size), lastId := id))
  }

  /** `Entries::delete`. */
  function DeleteEntry(t: Db, project: int, id: int): Result<Db> {
    if id !in t.entries || t.entries[id].key.project != project then Err(NotFound)
    else match Decr(t.blobs, t.entries[id].hash)
         case Err(e) => Err(e)
         case Ok(bs) => Ok(t.(entries := t.entries - {id}, blobs := bs))
  }

  /** `Entries::set_pinned`. */
  function SetPinned(t: Db, project: int, id: int, pinned: bool): Result<Db> {
    if id !in t.entries || t.entries[id].key.project != project then Err(NotFound)
    else Ok(t.(entries := t.entries[id := t.entries[id].(pinned := pinned)]))
  }

  /** `Entries::touch`: an UPDATE that matches no row changes nothing. */
  function Touch(t: Db, id: int, now: int): Db {
    if id !in t.entries then t
    else t.(entries := t.entries[id := t.entries[id].(accessed := now)])
  }

  function OfProject(es: map<int, Entry>, p: int): map<int, Entry> {
    map id | id in es && es[id].key.project == p :: es[id]
  }

  /** `Projects::delete`: the cascade removes the project's entries and leaves `blobs` alone. */
  function DeleteProject(t: Db, p: int): Result<Db> {
    if p !in t.projects then Err(NotFound)
    else Ok(t.(projects := t.projects - {p}, entries := t.entries - OfProject(t.entries, p).Keys))
  }

  /** `Blobs::delete` under the foreign key from `entries.blob_hash`. */
  ghost function DeleteBlob(t: Db, h: Hash): Result<Db> {
    if RefSet(t.entries, h) != {} then Err(ForeignKey) else Ok(t.(blobs := t.blobs - {h}))
  }

  /** The orphan scan's purge: every entry on a hash in `s`, then the blob rows themselves. */
  function Purge(t: Db, s: set<Hash>): Db {
    t.(entries := map id | id in t.entries && t.entries[id].hash !in s :: t.entries[id],
       blobs := t.blobs - s)
  }

  /** The effect of deleting the entries in `s` one transaction each, in any order. */
  ghost function Evict(t: Db, s: set<int>): Db {
    t.(entries := t.entries - s,
       blobs := map h | h in t.blobs ::
                  t.blobs[h].(refcount := t.blobs[h].refcount - RefsIn(t.entries, s, h)))
  }

  function DeadRows(t: Db): set<Hash> {
    set h | h in t.blobs && t.blobs[h].refcount == 0
  }

  /** `cleanup_blobs` run to completion: rows at refcount 0 are gone. */
  function DropDead(t: Db): Db {
    t.(blobs := map h | h in t.blobs && t.blobs[h].refcount != 0 :: t.blobs[h])
  }

  // ----- invariants -----

  ghost predicate Fk(t: Db) {
    forall id :: id in t.entries ==> t.entries[id].hash in t.blobs && t.entries[id].key.project in t.projects
  }

  ghost predicate UniqueKeys(t: Db) {
    forall i, j :: i in t.entries && j in t.entries && t.entries[i].key == t.entries[j].key ==> i == j
  }

  ghost predicate IdsBelow(t: Db) {
    forall id :: id in t.entries ==> id <= t.lastId
  }

  /** No refcount is below the number of entries that reference the blob. */
  ghost predicate Counted(t: Db) {
    forall h :: h in t.blobs ==> Refs(t.entries, h) <= t.blobs[h].refcount
  }

  ghost predicate Exact(t: Db) {
    forall h :: h in t.blobs ==> Refs(t.entries, h) == t.blobs[h].refcount
  }

  /** Size is a function of content: entries and blob rows record the length of the bytes. */
  ghost predicate Sized(t: Db) {
    && (forall id :: id in t.entries ==> t.entries[id].size == |t.entries[id].hash.of|)
    && (forall h :: h in t.blobs ==> t.blobs[h].size == |h.of|)
  }

  ghost predicate Inv(t: Db) {
    Fk(t) && UniqueKeys(t) && IdsBelow(t) && Counted(t) && Sized(t)
  }

  /** References the refcount claims beyond those that exist. */
  ghost function Slack(t: Db, h: Hash): int {
    if h in t.blobs then t.blobs[h].refcount - Refs(t.entries, h) else 0
  }

  // ----- counting references -----

  lemma RefsDrop(es: map<int, Entry>, id: int, h: Hash)
    requires id in es
    ensures Refs(es, h) == Refs(es - {id}, h) + if es[id].hash == h then 1 else 0
  {
    assert RefSet(es - {id}, h) == RefSet(es, h) - {id};
  }

  lemma RefsPut(es: map<int, Entry>, id: int, e: Entry, h: Hash)
    ensures Refs(es[id := e], h) == Refs(es - {id}, h) + if e.hash == h then 1 else 0
  {
    RefsDrop(es[id := e], id, h);
    assert es[id := e] - {id} == es - {id};
  }

  lemma SameHashesSameRefs(es: map<int, Entry>, fs: map<int, Entry>, h: Hash)
    requires es.Keys == fs.Keys && forall id :: id in es ==> es[id].hash == fs[id].hash
    ensures Refs(es, h) == Refs(fs, h)
  {
    assert forall id :: id in es <==> id in fs;
    assert forall id :: id in RefSet(es, h) <==> id in RefSet(fs, h);
    assert RefSet(es, h) == RefSet(fs, h);
  }

  lemma NoRowNoRefs(t: Db, h: Hash)
    requires Fk(t) && h !in t.blobs
    ensures RefSet(t.entries, h) == {}
  {
    assert forall id :: id in t.entries ==> t.entries[id].hash in t.blobs;
    assert forall id :: id !in RefSet(t.entries, h);
  }

  /** A decrement undoes an increment, up to the row it may have created. */
  lemma IncrThenDecr(blobs: map<Hash, Blob>, h: Hash, size: nat)
    ensures h in blobs ==> Decr(Incr(blobs, h, size), h) == Ok(blobs)
    ensures h !in blobs ==> Decr(Incr(blobs, h, size), h) == Ok(blobs[h := Blob(size, 0)])
  {
    var more := Incr(blobs, h, size);
    var less := more[h := more[h].(refcount := more[h].refcount - 1)];
    assert less == if h in blobs then blobs else blobs[h := Blob(size, 0)];
  }

  // ----- conservation: what each transaction does to the slack -----

  /** An upsert moves references without creating or losing any, whichever branch it takes. */
  lemma UpsertConserves(t: Db, k: CacheKey, h: Hash, size: nat, now: int, x: Hash)
    requires Fk(t) && IdsBelow(t) && Upsert(t, k, h, size, now).Ok?
    ensures Slack(Upsert(t, k, h, size, now).value, x) == Slack(t, x)
  {
    var u := Upsert(t, k, h, size, now).value;
    if x !in t.blobs {
      NoRowNoRefs(t, x);
    }
    match Find(t.entries, k)
    case Some(id) =>
      RefsDrop(t.entries, id, x);
      RefsPut(t.entries, id, u.entries[id], x);
    case None =>
      RefsPut(t.entries, t.lastId + 1, u.entries[t.lastId + 1], x);
      assert t.entries - {t.lastId + 1} == t.entries;
  }

  /** A refused upsert can only be the project's foreign key: `decr` never misses its row. */
  lemma UpsertFailsOnlyOnProject(t: Db, k: CacheKey, h: Hash, size: nat, now: int)
    requires Fk(t)
    ensures Upsert(t, k, h, size, now).Err? <==> k.project !in t.projects
    ensures Upsert(t, k, h, size, now).Err? ==> Upsert(t, k, h, size, now).error == ForeignKey
  {
  }

  lemma UpsertKeepsInv(t: Db, k: CacheKey, body: Bytes, now: int)
    requires Inv(t) && Upsert(t, k, Digest(body), |body|, now).Ok?
    ensures Inv(Upsert(t, k, Digest(body), |body|, now).value)
  {
    hide Fk, UniqueKeys, IdsBelow, Counted, Sized, Upsert;
    UpsertKeepsKeys(t, k, Digest(body), |body|, now);
    UpsertKeepsSizes(t, k, body, now);
    UpsertKeepsCounted(t, k, Digest(body), |body|, now);
  }

  lemma UpsertKeepsKeys(t: Db, k: CacheKey, h: Hash, size: nat, now: int)
    requires Fk(t) && UniqueKeys(t) && IdsBelow(t) && Upsert(t, k, h, size, now).Ok?
    ensures var u := Upsert(t, k, h, size, now).value; Fk(u) && UniqueKeys(u) && IdsBelow(u)
  {
  }

  lemma UpsertKeepsSizes(t: Db, k: CacheKey, body: Bytes, now: int)
    requires Fk(t) && Sized(t) && Upsert(t, k, Digest(body), |body|, now).Ok?
    ensures Sized(Upsert(t, k, Digest(body), |body|, now).value)
  {
  }

  lemma UpsertKeepsCounted(t: Db, k: CacheKey, h: Hash, size: nat, now: int)
    requires Fk(t) && IdsBelow(t) && Counted(t) && Upsert(t, k, h, size, now).Ok?
    ensures Counted(Upsert(t, k, h, size, now).value)
  {
    hide Upsert, RefSet;
    var u := Upsert(t, k, h, size, now).value;
    forall x | x in u.blobs ensures Refs(u.entries, x) <= u.blobs[x].refcount {
      UpsertConserves(t, k, h, size, now, x);
      if x !in t.blobs {
        NoRowNoRefs(t, x);
      }
    }
  }

  /** Deleting one entry is evicting the singleton. */
  lemma DeleteIsEvict(t: Db, project: int, id: int)
    requires Fk(t) && id in t.entries && t.entries[id].key.project == project
    ensures DeleteEntry(t, project, id) == Ok(Evict(t, {id}))
  {
    forall h | h in t.blobs ensures RefsIn(t.entries, {id}, h) == if t.entries[id].hash == h then 1 else 0 {
      RefsDrop(t.entries, id, h);
    }
    assert DeleteEntry(t, project, id).value.blobs == Evict(t, {id}).blobs;
  }

  lemma EvictNothing(t: Db)
    ensures Evict(t, {}) == t
  {
    assert t.entries - {} == t.entries;
    assert Evict(t, {}).blobs == t.blobs;
  }

  /** Evictions compose: the order and grouping of the transactions do not matter. */
  lemma EvictTwice(t: Db, s: set<int>, r: set<int>)
    ensures Evict(Evict(t, s), r) == Evict(t, s + r)
  {
    assert t.entries - s - r == t.entries - (s + r);
    assert Evict(Evict(t, s), r).blobs == Evict(t, s + r).blobs;
  }

  lemma EvictConserves(t: Db, s: set<int>, x: Hash)
    requires Fk(t)
    ensures Slack(Evict(t, s), x) == Slack(t, x)
  {
    if x !in t.blobs {
      NoRowNoRefs(t, x);
    }
  }

  lemma EvictKeepsInv(t: Db, s: set<int>)
    requires Inv(t)
    ensures Inv(Evict(t, s))
  {
    var u := Evict(t, s);
    forall x | x in u.blobs ensures Refs(u.entries, x) <= u.blobs[x].refcount {
      EvictConserves(t, s, x);
    }
    assert Fk(u);
    assert Counted(u);
    assert Sized(u);
  }

  /** Evicting entries deletes no blob row, so the measured total does not move. */
  lemma EvictKeepsTotal(t: Db, s: set<int>)
    ensures TotalSize(Evict(t, s)) == TotalSize(t)
  {
    assert BlobSizes(Evict(t, s).blobs) == BlobSizes(t.blobs);
  }

  /** The cascade is the one transaction that leaks: each entry it removes leaves one reference behind. */
  lemma CascadeLeaks(t: Db, p: int, x: Hash)
    requires p in t.projects && x in t.blobs
    ensures Slack(DeleteProject(t, p).value, x) == Slack(t, x) + Refs(OfProject(t.entries, p), x)
  {
    var gone := OfProject(t.entries, p);
    assert RefSet(t.entries, x) == RefSet(t.entries - gone.Keys, x) + RefSet(gone, x);
  }

  /** Deleting a project keeps the refcounts exact if and only if the project has no entries. */
  lemma DeleteProjectExactIff(t: Db, p: int)
    requires Inv(t) && Exact(t) && p in t.projects
    ensures Inv(DeleteProject(t, p).value)
    ensures Exact(DeleteProject(t, p).value) <==> OfProject(t.entries, p) == map[]
  {
    var u := DeleteProject(t, p).value;
    forall x | x in t.blobs ensures Slack(u, x) == Refs(OfProject(t.entries, p), x) {
      CascadeLeaks(t, p, x);
    }
    if id :| id in t.entries && t.entries[id].key.project == p {
      assert id in OfProject(t.entries, p);
      var h := t.entries[id].hash;
      assert id in RefSet(OfProject(t.entries, p), h);
      assert Slack(u, h) != 0;
    } else {
      assert forall id :: id in t.entries ==> t.entries[id].key.project != p;
      assert OfProject(t.entries, p) == map[];
      assert u.entries == t.entries;
    }
  }

  lemma DeleteProjectKeepsInv(t: Db, p: int)
    requires Inv(t) && p in t.projects
    ensures Inv(DeleteProject(t, p).value)
  {
    var u := DeleteProject(t, p).value;
    forall x | x in u.blobs ensures Refs(u.entries, x) <= u.blobs[x].refcount {
      CascadeLeaks(t, p, x);
    }
  }

  lemma PurgeKeepsInv(t: Db, s: set<Hash>)
    requires Inv(t)
    ensures Inv(Purge(t, s))
    ensures forall x :: x in Purge(t, s).blobs ==> Slack(Purge(t, s), x) == Slack(t, x)
  {
    var u := Purge(t, s);
    forall x | x in u.blobs ensures Refs(u.entries, x) == Refs(t.entries, x) {
      assert RefSet(u.entries, x) == RefSet(t.entries, x);
    }
  }

  /** Rows at refcount 0 are referenced by nothing, so dropping them breaks no foreign key. */
  lemma DeadIsUnreferenced(t: Db, h: Hash)
    requires Counted(t) && h in t.blobs && t.blobs[h].refcount == 0
    ensures RefSet(t.entries, h) == {}
  {
    assert Refs(t.entries, h) <= 0;
  }

  lemma DropDeadKeepsInv(t: Db)
    requires Inv(t)
    ensures Inv(DropDead(t))
  {
    forall id | id in t.entries ensures t.entries[id].hash in DropDead(t).blobs {
      var h := t.entries[id].hash;
      assert id in RefSet(t.entries, h);
      assert Refs(t.entries, h) > 0;
    }
  }

  /** Updating columns other than the key, hash and size of one row breaks nothing. */
  lemma RowUpdateKeepsInv(t: Db, id: int, e: Entry)
    requires Inv(t) && id in t.entries
    requires e.key == t.entries[id].key && e.hash == t.entries[id].hash && e.size == t.entries[id].size
    ensures Inv(t.(entries := t.entries[id := e]))
    ensures forall h :: Refs(t.entries[id := e], h) == Refs(t.entries, h)
  {
    forall h ensures Refs(t.entries[id := e], h) == Refs(t.entries, h) {
      SameHashesSameRefs(t.entries, t.entries[id := e], h);
    }
  }

  /** Unpinning undoes pinning, and a pin moves nothing but itself. */
  lemma UnpinUndoesPin(t: Db, project: int, id: int)
    requires SetPinned(t, project, id, true).Ok?
    ensures id in t.entries && t.entries[id].key.project == project
    ensures var u := SetPinned(t, project, id, true).value;
            && u.entries[id].pinned && SetPinned(u, project, id, false).Ok?
            && var v := SetPinned(u, project, id, false).value;
            && !v.entries[id].pinned && (!t.entries[id].pinned ==> v == t)
  {
    if !t.entries[id].pinned {
      assert t.entries[id := t.entries[id].(pinned := true)][id := t.entries[id].(pinned := false)] == t.entries;
    }
  }

  lemma DeleteBlobKeepsInv(t: Db, h: Hash)
    requires Inv(t) && DeleteBlob(t, h).Ok?
    ensures Inv(DeleteBlob(t, h).value)
  {
    assert forall id :: id in t.entries ==> t.entries[id].hash != h by {
      forall id | id in t.entries ensures t.entries[id].hash != h {
        assert id !in RefSet(t.entries, h);
      }
    }
  }
}
