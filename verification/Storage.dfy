/** The content-addressed blob store: streamed writes, crashes and reopening. */
module Storage {
  import opened Prelude
  import opened Tables

  function Flat(chunks: seq<Bytes>): Bytes {
    if chunks == [] then [] else Flat(chunks[..|chunks| - 1]) + chunks[|chunks| - 1]
  }

  /** Every file under `blobs/` holds complete bytes whose digest is its name. */
  ghost predicate Faithful(blobs: map<Hash, Bytes>) {
    forall h :: h in blobs ==> Digest(blobs[h]) == h
  }

  datatype Written = Written(hash: Hash, size: nat)

  /** An item of the body stream is a chunk, or `None` for a transport error. */
  function ChunksBefore(body: seq<Option<Bytes>>, n: nat): seq<Bytes>
    requires n <= |body| && forall i :: 0 <= i < n ==> body[i].Some?
  {
    seq(n, i requires 0 <= i < n => body[i].value)
  }

  /** Which file operations of one write fail. `write` is the index of a chunk that cannot be written. */
  datatype Faults = Faults(create: bool, write: Option<nat>, sync: bool, mkdir: bool, rename: bool, discard: bool)

  /** `blobs` is keyed by digest, standing for the canonical sharded path. */
  class LocalFsStore {
    var tmp: map<nat, Bytes>
    var blobs: map<Hash, Bytes>

    /** A restart: whatever was left under `tmp/` goes, except files that cannot be removed. */
    constructor Open(tmpOnDisk: map<nat, Bytes>, blobsOnDisk: map<Hash, Bytes>, stuck: set<nat>)
      ensures tmp.Keys == tmpOnDisk.Keys * stuck && forall n :: n in tmp ==> tmp[n] == tmpOnDisk[n]
      ensures blobs == blobsOnDisk
    {
      var left := tmpOnDisk;
      var names := tmpOnDisk.Keys;
      while names != {}
        invariant names <= tmpOnDisk.Keys
        invariant left.Keys == names + tmpOnDisk.Keys * stuck && forall n :: n in left ==> left[n] == tmpOnDisk[n]
        decreases names
      {
        var name :| name in names;
        names := names - {name};
        if name !in stuck {
          left := left - {name};
        }
      }
      tmp := left;
      blobs := blobsOnDisk;
    }

    /**
     Streams `body` into a fresh temporary file while hashing it, then renames it to its digest, or
     discards it when that digest is already stored. Whatever fails, no blob changes or disappears, and all that
     a failure can leave behind is the temporary file.
     */
    method WriteStreamed(body: seq<Option<Bytes>>, name: nat, io: Faults) returns (r: Option<Written>)
      requires name !in tmp
      modifies this
      ensures r.Some? <==>
                && !io.create && !io.sync && !io.mkdir
                && (forall i :: 0 <= i < |body| ==> body[i].Some? && io.write != Some(i))
                && (io.rename ==> Digest(Flat(ChunksBefore(body, |body|))) in old(blobs))
      ensures r.None? ==> blobs == old(blobs) && tmp - {name} == old(tmp)
      ensures r.Some? ==>
                var all := Flat(ChunksBefore(body, |body|));
                && r.value == Written(Digest(all), |all|)
                && blobs == (if r.value.hash in old(blobs) then old(blobs) else old(blobs)[r.value.hash := all])
                && tmp == (if r.value.hash in old(blobs) && io.discard then old(tmp)[name := all] else old(tmp))
                && (Faithful(old(blobs)) ==> blobs[r.value.hash] == all)
      ensures Faithful(old(blobs)) ==> Faithful(blobs)
    {
      assert tmp - {name} == tmp;
      if io.create {
        return None;
      }
      tmp := tmp[name := []];
      var hashed: Bytes := [];
      var total := 0;
      var i := 0;
      while i < |body|
        invariant 0 <= i <= |body|
        invariant forall j :: 0 <= j < i ==> body[j].Some? && io.write != Some(j)
        invariant hashed == Flat(ChunksBefore(body, i)) && total == |hashed|
        invariant tmp == old(tmp)[name := hashed] && blobs == old(blobs)
      {
        match body[i]
        case None => return None;
        case Some(chunk) =>
          if io.write == Some(i) {
            return None;
          }
          hashed := hashed + chunk;
          total := total + |chunk|;
          tmp := tmp[name := tmp[name] + chunk];
          assert ChunksBefore(body, i + 1)[..i] == ChunksBefore(body, i);
          i := i + 1;
      }
      if io.sync || io.mkdir {
        return None;
      }
      var hash := Digest(hashed);
      if hash in blobs {
        if !io.discard {
          tmp := tmp - {name};
        }
      } else {
        if io.rename {
          return None;
        }
        blobs := blobs[hash := tmp[name]];
        tmp := tmp - {name};
      }
      return Some(Written(hash, total));
    }

    /** What is read under a digest are the bytes with that digest; NotFound exactly when there is no such file. */
    method ReadBlob(hash: Hash) returns (r: Result<Bytes>)
      ensures r.Ok? <==> hash in blobs
      ensures r.Ok? ==> r.value == blobs[hash] && (Faithful(blobs) ==> r.value == hash.of)
      ensures r.Err? ==> r.error == NotFound
    {
      if hash in blobs {
        return Ok(blobs[hash]);
      }
      return Err(NotFound);
    }

    /** Idempotent removal. The file system refuses to remove the files in `stuck`; no other file is touched. */
    method DeleteBlob(hash: Hash, stuck: set<Hash>) returns (ok: bool)
      modifies this`blobs
      ensures ok <==> hash !in stuck
      ensures ok ==> hash !in blobs
      ensures forall h :: h in blobs ==> h in old(blobs) && blobs[h] == old(blobs)[h]
      ensures forall h :: h in old(blobs) && (h != hash || h in stuck) ==> h in blobs
    {
      if hash in stuck {
        return false;
      }
      blobs := blobs - {hash};
      return true;
    }
  }

  /** How the bytes were cut into chunks does not matter to what the store returns. */
  lemma {:induction false} FlatAppend(a: seq<Bytes>, b: seq<Bytes>)
    ensures Flat(a + b) == Flat(a) + Flat(b)
  {
    if b == [] {
      assert a + b == a;
    } else {
      assert (a + b)[..|a + b| - 1] == a + b[..|b| - 1];
      FlatAppend(a, b[..|b| - 1]);
    }
  }

  lemma Rechunking(a: seq<Bytes>, x: Bytes, y: Bytes, b: seq<Bytes>)
    ensures Flat(a + [x, y] + b) == Flat(a + [x + y] + b)
  {
    FlatAppend(a + [x, y], b);
    FlatAppend(a + [x + y], b);
    FlatAppend(a, [x, y]);
    FlatAppend(a, [x + y]);
    assert [x, y][..1] == [x] && [x][..0] == [] && [x + y][..0] == [];
    assert Flat([x, y]) == x + y;
    assert Flat([x + y]) == x + y;
  }
}
