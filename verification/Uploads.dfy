/** Uploads as the tables see them: any number of commits of the same files acts as one commit of each. */
module Uploads {
  import opened Prelude
  import opened Tables
  import opened Protocol
  import Sums

  /** One `Entries::upsert` reached by a PUT of `body` to `key`. */
  datatype Upload = Upload(key: CacheKey, body: Bytes, now: int)

  ghost function HashAt(t: Db, k: CacheKey): Option<Hash> {
    match Find(t.entries, k)
    case None => None
    case Some(id) => Some(t.entries[id].hash)
  }

  ghost function Store(t: Db, u: Upload): Db {
    Try(t, Upsert(t, u.key, Digest(u.body), |u.body|, u.now))
  }

  ghost function StoreAll(t: Db, us: seq<Upload>): Db {
    if us == [] then t else Store(StoreAll(t, us[..|us| - 1]), us[|us| - 1])
  }

  /** Whoever uploads to `k` uploads `body`. */
  ghost predicate Agree(us: seq<Upload>, k: CacheKey, body: Bytes) {
    forall i :: 0 <= i < |us| && us[i].key == k ==> us[i].body == body
  }

  ghost predicate Stores(us: seq<Upload>, k: CacheKey) {
    exists i :: 0 <= i < |us| && us[i].key == k
  }

  // ----- what a commit does -----

  lemma InvParts(t: Db)
    requires Inv(t)
    ensures Fk(t) && UniqueKeys(t) && IdsBelow(t)
  {
  }

  lemma StoreKeepsInv(t: Db, u: Upload)
    requires Inv(t)
    ensures Inv(Store(t, u)) && Store(t, u).projects == t.projects
  {
    hide Inv;
    if Upsert(t, u.key, Digest(u.body), |u.body|, u.now).Ok? {
      UpsertKeepsInv(t, u.key, u.body, u.now);
    }
  }

  lemma {:induction false} StoreAllKeepsInv(t: Db, us: seq<Upload>)
    requires Inv(t)
    ensures Inv(StoreAll(t, us)) && StoreAll(t, us).projects == t.projects
    decreases |us|
  {
    hide Inv, Store;
    if us != [] {
      StoreAllKeepsInv(t, us[..|us| - 1]);
      StoreKeepsInv(StoreAll(t, us[..|us| - 1]), us[|us| - 1]);
    }
  }

  /** One commit sets the hash at its own key and at no other. */
  lemma StoreHash(t: Db, u: Upload, k: CacheKey)
    requires Inv(t)
    ensures HashAt(Store(t, u), k)
            == if u.key == k && k.project in t.projects then Some(Digest(u.body)) else HashAt(t, k)
  {
    StoreKeepsInv(t, u);
    UpsertFailsOnlyOnProject(t, u.key, Digest(u.body), |u.body|, u.now);
    var v := Store(t, u);
    if u.key == k && k.project in t.projects {
      var id := if Find(t.entries, k).Some? then Find(t.entries, k).value else t.lastId + 1;
      assert v.entries[id].key == k && v.entries[id].hash == Digest(u.body);
      FindIs(v, k, id);
    } else {
      match Find(t.entries, k)
      case Some(id) =>
        assert v.entries[id].key == k && v.entries[id].hash == t.entries[id].hash;
        FindIs(v, k, id);
      case None => FindMisses(v, k);
    }
  }

  lemma {:induction false} StoreAllHash(t: Db, us: seq<Upload>, k: CacheKey, body: Bytes)
    requires Inv(t) && Agree(us, k, body)
    ensures HashAt(StoreAll(t, us), k)
            == if Stores(us, k) && k.project in t.projects then Some(Digest(body)) else HashAt(t, k)
    decreases |us|
  {
    hide Inv, Store, HashAt;
    if us != [] {
      var n := |us| - 1;
      StoreAllHash(t, us[..n], k, body);
      StoreAllKeepsInv(t, us[..n]);
      StoreHash(StoreAll(t, us[..n]), us[n], k);
      assert Stores(us, k) <==> Stores(us[..n], k) || us[n].key == k by {
        if i :| 0 <= i < n && us[i].key == k {
          assert us[..n][i].key == k;
        }
      }
    }
  }

  // ----- any number of commits act as one -----

  /** Committing the same upload again only moves `last_accessed`. */
  lemma {:induction false} RetriesOnlyTouch(t: Db, us: seq<Upload>, k: CacheKey, body: Bytes)
    requires Inv(t) && k.project in t.projects && us != []
    requires forall i :: 0 <= i < |us| ==> us[i].key == k && us[i].body == body
    ensures var once := Store(t, us[0]);
            Find(once.entries, k).Some? && StoreAll(t, us) == Touch(once, Find(once.entries, k).value, us[|us| - 1].now)
    decreases |us|
  {
    var n := |us| - 1;
    var once := Store(t, us[0]);
    StoreKeepsInv(t, us[0]);
    StoreHash(t, us[0], k);
    if n == 0 {
      assert us[..0] == [];
      FirstUploadTouches(t, us[0]);
    } else {
      hide Store, StoreAll, Inv, HashAt;
      RetriesOnlyTouch(t, us[..n], k, body);
      StoreAllLast(t, us);
      UploadAgain(once, us[n], us[n - 1].now);
    }
  }

  lemma StoreAllLast(t: Db, us: seq<Upload>)
    requires us != []
    ensures StoreAll(t, us) == Store(StoreAll(t, us[..|us| - 1]), us[|us| - 1])
  {
  }

  lemma FirstUploadTouches(t: Db, u: Upload)
    requires Inv(t) && u.key.project in t.projects
    ensures var v := Store(t, u);
            Find(v.entries, u.key).Some? && v == Touch(v, Find(v.entries, u.key).value, u.now)
  {
    var v := Store(t, u);
    StoreKeepsInv(t, u);
    var id := if Find(t.entries, u.key).Some? then Find(t.entries, u.key).value else t.lastId + 1;
    assert v.entries[id].key == u.key && v.entries[id].accessed == u.now;
    FindIs(v, u.key, id);
    assert v.entries == v.entries[id := v.entries[id].(accessed := u.now)];
  }

  lemma UploadAgain(v: Db, u: Upload, then_: int)
    requires Inv(v) && HashAt(v, u.key) == Some(Digest(u.body))
    ensures Find(v.entries, u.key).Some?
    ensures var id := Find(v.entries, u.key).value;
            Store(Touch(v, id, then_), u) == Touch(v, id, u.now)
  {
    var id := Find(v.entries, u.key).value;
    var w := Touch(v, id, then_);
    RowUpdateKeepsInv(v, id, v.entries[id].(accessed := then_));
    FindIs(w, u.key, id);
  }

  ghost function Keys(us: seq<Upload>): set<CacheKey> {
    set u | u in us :: u.key
  }

  /** Each key is uploaded with the contents of one file. */
  ghost predicate Follows(us: seq<Upload>, files: map<CacheKey, Bytes>) {
    forall u :: u in us ==> u.key in files && files[u.key] == u.body
  }

  ghost function KeysOn(t: Db, h: Hash): set<CacheKey> {
    set id | id in RefSet(t.entries, h) :: t.entries[id].key
  }

  lemma {:induction false} KeysCount(es: map<int, Entry>, ids: set<int>)
    requires forall id :: id in ids ==> id in es
    requires forall i, j :: i in ids && j in ids && es[i].key == es[j].key ==> i == j
    ensures |set id | id in ids :: es[id].key| == |ids|
    decreases ids
  {
    var all := set id | id in ids :: es[id].key;
    if ids == {} {
      assert all == {};
    } else {
      Sums.NonEmpty(ids);
      var x :| x in ids;
      var rest := set id | id in ids - {x} :: es[id].key;
      KeysCount(es, ids - {x});
      assert all == rest + {es[x].key};
    }
  }

  lemma KeysOnIs(t: Db, h: Hash, k: CacheKey)
    requires UniqueKeys(t)
    ensures k in KeysOn(t, h) <==> HashAt(t, k) == Some(h)
  {
    if k in KeysOn(t, h) {
      var id :| id in RefSet(t.entries, h) && t.entries[id].key == k;
      FindIs(t, k, id);
    }
    if HashAt(t, k) == Some(h) {
      assert Find(t.entries, k).value in RefSet(t.entries, h);
    }
  }

  /** Tables that map the same keys to the same hashes reference every hash equally often. */
  lemma SameMapSameRefs(t: Db, u: Db, h: Hash)
    requires UniqueKeys(t) && UniqueKeys(u) && forall k :: HashAt(t, k) == HashAt(u, k)
    ensures Refs(t.entries, h) == Refs(u.entries, h)
  {
    hide HashAt;
    forall k ensures k in KeysOn(t, h) <==> k in KeysOn(u, h) {
      KeysOnIs(t, h, k);
      KeysOnIs(u, h, k);
    }
    assert KeysOn(t, h) == KeysOn(u, h);
    KeysCount(t.entries, RefSet(t.entries, h));
    KeysCount(u.entries, RefSet(u.entries, h));
  }

  lemma {:induction false} StoreAllConserves(t: Db, us: seq<Upload>, h: Hash)
    requires Inv(t)
    ensures Slack(StoreAll(t, us), h) == Slack(t, h)
    decreases |us|
  {
    hide Inv, Slack, Upsert;
    if us != [] {
      var n := |us| - 1;
      var u := us[n];
      var mid := StoreAll(t, us[..n]);
      StoreAllKeepsInv(t, us[..n]);
      StoreAllConserves(t, us[..n], h);
      if Upsert(mid, u.key, Digest(u.body), |u.body|, u.now).Ok? {
        InvParts(mid);
        UpsertConserves(mid, u.key, Digest(u.body), |u.body|, u.now, h);
      }
    }
  }

  /** Some file stored under an existing project has the contents `h` names. */
  ghost predicate Brings(t: Db, ks: set<CacheKey>, files: map<CacheKey, Bytes>, h: Hash) {
    exists k :: k in ks && k in files && k.project in t.projects && Digest(files[k]) == h
  }

  lemma StoreRows(t: Db, u: Upload, h: Hash)
    requires Inv(t)
    ensures h in Store(t, u).blobs <==> h in t.blobs || (u.key.project in t.projects && Digest(u.body) == h)
  {
    UpsertFailsOnlyOnProject(t, u.key, Digest(u.body), |u.body|, u.now);
  }

  lemma {:induction false} StoreAllRows(t: Db, us: seq<Upload>, files: map<CacheKey, Bytes>, h: Hash)
    requires Inv(t) && Follows(us, files)
    ensures h in StoreAll(t, us).blobs <==> h in t.blobs || Brings(t, Keys(us), files, h)
    decreases |us|
  {
    hide Inv, Store;
    if us != [] {
      var n := |us| - 1;
      assert us == us[..n] + [us[n]];
      StoreAllRows(t, us[..n], files, h);
      StoreAllKeepsInv(t, us[..n]);
      StoreRows(StoreAll(t, us[..n]), us[n], h);
      assert us[n] in us && us[n].key in Keys(us);
      assert Keys(us) == Keys(us[..n]) + {us[n].key};
    }
  }

  lemma FollowsAgrees(us: seq<Upload>, files: map<CacheKey, Bytes>, k: CacheKey)
    requires Follows(us, files)
    ensures k in files ==> Agree(us, k, files[k])
    ensures Stores(us, k) <==> k in Keys(us)
    ensures k in Keys(us) ==> k in files
  {
    if k in Keys(us) {
      var u :| u in us && u.key == k;
      var i :| 0 <= i < |us| && us[i] == u;
    }
    if i :| 0 <= i < |us| && us[i].key == k {
      assert us[i] in us;
    }
  }

  /** After a push a key holds its file if the file was committed, and what it held before otherwise. */
  lemma PushedHash(t: Db, us: seq<Upload>, files: map<CacheKey, Bytes>, k: CacheKey)
    requires Inv(t) && Follows(us, files)
    ensures k in Keys(us) ==> k in files
    ensures HashAt(StoreAll(t, us), k)
            == if k in Keys(us) && k.project in t.projects then Some(Digest(files[k])) else HashAt(t, k)
  {
    hide Inv, HashAt, StoreAll, Keys, Follows;
    FollowsAgrees(us, files, k);
    if k in files {
      StoreAllHash(t, us, k, files[k]);
    } else {
      StoreAllHash(t, us, k, []) by { NeverStored(us, k); }
    }
  }

  lemma NeverStored(us: seq<Upload>, k: CacheKey)
    requires !Stores(us, k)
    ensures Agree(us, k, [])
  {
  }

  /**
   The commits of a push count once per file: whatever their number and order, the tables map the same keys to
   the same hashes and hold the same blob rows with the same refcounts, as after one commit of each file.
   */
  lemma CommitsCountOnce(t: Db, us: seq<Upload>, vs: seq<Upload>, files: map<CacheKey, Bytes>)
    requires Inv(t) && Follows(us, files) && Follows(vs, files) && Keys(us) == Keys(vs)
    ensures forall k :: HashAt(StoreAll(t, us), k) == HashAt(StoreAll(t, vs), k)
    ensures StoreAll(t, us).blobs == StoreAll(t, vs).blobs
  {
    hide HashAt, Keys, Follows, StoreAll, Inv;
    var a, b := StoreAll(t, us), StoreAll(t, vs);
    forall k ensures HashAt(a, k) == HashAt(b, k) {
      PushedHash(t, us, files, k);
      PushedHash(t, vs, files, k);
    }
    StoreAllKeepsInv(t, us);
    StoreAllKeepsInv(t, vs);
    forall h ensures h in a.blobs <==> h in b.blobs {
      StoreAllRows(t, us, files, h);
      StoreAllRows(t, vs, files, h);
    }
    forall h | h in a.blobs ensures a.blobs[h] == b.blobs[h] {
      StoreAllConserves(t, us, h);
      StoreAllConserves(t, vs, h);
      SameRow(a, b, h);
    }
  }

  lemma SameRow(a: Db, b: Db, h: Hash)
    requires Inv(a) && Inv(b) && h in a.blobs && h in b.blobs && Slack(a, h) == Slack(b, h)
    requires forall k :: HashAt(a, k) == HashAt(b, k)
    ensures a.blobs[h] == b.blobs[h]
  {
    hide HashAt;
    SameMapSameRefs(a, b, h);
  }

  lemma SkippedBefore(t: Db, us: seq<Upload>, m: nat, files: map<CacheKey, Bytes>, k: CacheKey)
    requires Inv(t) && Follows(us, files) && m <= |us| && !(k in Keys(us) && k.project in t.projects)
    ensures HashAt(StoreAll(t, us[..m]), k) == HashAt(t, k)
  {
    hide HashAt, StoreAll, Inv;
    assert forall u :: u in us[..m] ==> u in us;
    assert Keys(us[..m]) <= Keys(us);
    PushedHash(t, us[..m], files, k);
  }
}
