/** The repositories over the SQLite pool. Each method is one transaction, proved against its function in `Tables`. */
module Database {
  import opened Prelude
  import opened Sums
  import opened Tables
  import Evictions

  class Pool {
    var projects: map<int, Project>
    var entries: map<int, Entry>
    var blobs: map<Hash, Blob>
    var lastId: int

    function View(): Db
      reads this
    {
      Db(projects, entries, blobs, lastId)
    }

    /** `Blobs::decr`. */
    method Decr(h: Hash) returns (r: Result<int>)
      modifies this`blobs
      ensures r.Err? <==> h !in old(blobs)
      ensures r.Err? ==> r.error == NotFound && blobs == old(blobs)
      ensures r.Ok? ==> Tables.Decr(old(blobs), h) == Ok(blobs) && r.value == blobs[h].refcount
    {
      if h !in blobs {
        return Err(NotFound);
      }
      blobs := blobs[h := blobs[h].(refcount := blobs[h].refcount - 1)];
      return Ok(blobs[h].refcount);
    }

    /**
     `Blobs::upsert_incr`. A decrement undoes it. `existed` tells whether the row was there before, as promised,
     exactly when it was not there at refcount 0, waiting for cleanup.
     */
    method UpsertIncr(h: Hash, size: nat) returns (existed: bool)
      modifies this`blobs
      ensures blobs == Incr(old(blobs), h, size)
      ensures h in old(blobs) ==> Tables.Decr(blobs, h) == Ok(old(blobs))
      ensures h !in old(blobs) ==> Tables.Decr(blobs, h) == Ok(old(blobs)[h := Blob(size, 0)])
      ensures (existed <==> h in old(blobs)) <==> !(h in old(blobs) && old(blobs)[h].refcount <= 0)
    {
      if h in blobs {
        blobs := blobs[h := blobs[h].(refcount := blobs[h].refcount + 1)];
      } else {
        blobs := blobs[h := Blob(size, 1)];
      }
      Tables.IncrThenDecr(old(blobs), h, size);
      return blobs[h].refcount > 1;
    }

    /** `Entries::find`. */
    method Find(k: CacheKey) returns (r: Option<int>)
      requires UniqueKeys(View())
      ensures r == Tables.Find(entries, k)
    {
      var rest := set id | id in entries;
      while exists id :: id in rest
        invariant forall id :: id in rest ==> id in entries
        invariant forall id :: id in entries && id !in rest ==> entries[id].key != k
        decreases rest
      {
        var id :| id in rest;
        if entries[id].key == k {
          assert Has(entries, k);
          return Some(id);
        }
        rest := rest - {id};
      }
      assert !Has(entries, k);
      return None;
    }

    /**
     `Entries::upsert`. The entry it returns is rebuilt from the arguments, so it equals the stored row
     exactly when the row was inserted, or was unpinned and created at this very instant.
     */
    method Upsert(k: CacheKey, h: Hash, size: nat, now: int) returns (r: Result<(int, Entry)>)
      requires UniqueKeys(View()) && IdsBelow(View())
      modifies this
      ensures r.Ok? ==> Tables.Upsert(old(View()), k, h, size, now) == Ok(View())
      ensures r.Err? ==> Tables.Upsert(old(View()), k, h, size, now) == Err(r.error) && View() == old(View())
      ensures r.Ok? ==> r.value.0 in entries && entries[r.value.0].key == k
      ensures r.Ok? ==>
                (r.value.1 == entries[r.value.0] <==>
                   r.value.0 !in old(entries)
                   || (!old(entries)[r.value.0].pinned && old(entries)[r.value.0].created == now))
    {
      var begun := blobs;
      var prev := Find(k);
      var id: int;
      match prev {
        case Some(found) =>
          id := found;
          if entries[id].hash != h {
            var d := Decr(entries[id].hash);
            if d.Err? {
              return Err(d.error);
            }
            var _ := UpsertIncr(h, size);
          }
          entries := entries[id := entries[id].(hash := h, size := size, accessed := now)];
        case None =>
          var _ := UpsertIncr(h, size);
          if k.project !in projects {
            blobs := begun;
            return Err(ForeignKey);
          }
          lastId := lastId + 1;
          id := lastId;
          entries := entries[id := Entry(k, h, size, now, now, false)];
      }
      return Ok((id, Entry(k, h, size, now, now, false)));
    }

    /** `Entries::delete`. */
    method Delete(project: int, id: int) returns (r: Result<()>)
      modifies this`entries, this`blobs
      ensures r.Ok? ==> DeleteEntry(old(View()), project, id) == Ok(View())
      ensures r.Err? ==> DeleteEntry(old(View()), project, id) == Err(r.error) && View() == old(View())
    {
      if id !in entries || entries[id].key.project != project {
        return Err(NotFound);
      }
      var hash := entries[id].hash;
      var begun := entries;
      entries := entries - {id};
      var d := Decr(hash);
      if d.Err? {
        entries := begun;
        return Err(d.error);
      }
      return Ok(());
    }

    /** `Entries::set_pinned`. */
    method SetPinned(project: int, id: int, pinned: bool) returns (r: Result<()>)
      modifies this`entries
      ensures r.Ok? ==> Tables.SetPinned(old(View()), project, id, pinned) == Ok(View())
      ensures r.Err? ==> Tables.SetPinned(old(View()), project, id, pinned) == Err(r.error) && View() == old(View())
    {
      if id !in entries || entries[id].key.project != project {
        return Err(NotFound);
      }
      entries := entries[id := entries[id].(pinned := pinned)];
      return Ok(());
    }

    /** `Entries::touch`. */
    method Touch(id: int, now: int)
      modifies this`entries
      ensures View() == Tables.Touch(old(View()), id, now)
    {
      if id in entries {
        entries := entries[id := entries[id].(accessed := now)];
      }
    }

    /** `Projects::delete` with its cascade. */
    method DeleteProject(p: int) returns (r: Result<()>)
      modifies this`projects, this`entries
      ensures r.Ok? ==> Tables.DeleteProject(old(View()), p) == Ok(View())
      ensures r.Err? ==> Tables.DeleteProject(old(View()), p) == Err(r.error) && View() == old(View())
    {
      if p !in projects {
        return Err(NotFound);
      }
      projects := projects - {p};
      entries := entries - OfProject(entries, p).Keys;
      return Ok(());
    }

    /** `Blobs::zero_refcount`: any `limit` of the rows at refcount 0, or all of them. */
    method ZeroRefcount(limit: nat) returns (batch: set<Hash>)
      ensures batch <= DeadRows(View())
      ensures |batch| <= limit
      ensures |batch| < limit ==> batch == DeadRows(View())
    {
      batch := {};
      var rest := DeadRows(View());
      while rest != {} && |batch| < limit
        invariant batch + rest == DeadRows(View())
        invariant rest !! batch && |batch| <= limit
        decreases rest
      {
        var h :| h in rest;
        rest := rest - {h};
        batch := batch + {h};
      }
    }

    /** `Blobs::delete` under the foreign key from `entries`. */
    method DeleteBlob(h: Hash) returns (r: Result<()>)
      modifies this`blobs
      ensures r.Ok? ==> Tables.DeleteBlob(old(View()), h) == Ok(View())
      ensures r.Err? ==> Tables.DeleteBlob(old(View()), h) == Err(r.error) && View() == old(View())
    {
      var referring := set id | id in entries && entries[id].hash == h;
      assert referring == RefSet(entries, h);
      if referring != {} {
        return Err(ForeignKey);
      }
      blobs := blobs - {h};
      return Ok(());
    }

    /** `Blobs::total_size`. */
    method TotalSize() returns (v: nat)
      ensures v == Tables.TotalSize(View())
    {
      v := Sum(BlobSizes(blobs));
    }

    /** `Entries::project_usage`. */
    method ProjectUsage(p: int) returns (v: nat)
      ensures v == Evictions.Usage(View(), p)
    {
      v := Sum(Sizes(OfProject(entries, p)));
    }

    /** The orphan scan's transaction on one missing hash. */
    method PurgeHash(h: Hash)
      modifies this`entries, this`blobs
      ensures View() == Purge(old(View()), {h})
    {
      entries := map id | id in entries && entries[id].hash != h :: entries[id];
      blobs := blobs - {h};
    }
  }
}
