/**
 Any number of concurrent writers over one store. The machine may stop between any two steps, and then any file
 whose bytes were not synced may come back torn, even one that has been renamed into place.
 */
module StorageRuns {
  import opened Tables
  import opened Storage

  datatype File = File(bytes: Bytes, synced: bool)

  datatype Progress = Writing | Synced | Checked(found: bool)

  datatype Writer = Writer(name: nat, hashed: Bytes, progress: Progress)

  datatype Disk = Disk(tmp: map<nat, File>, blobs: map<Hash, File>, writers: map<nat, Writer>)

  datatype Step =
    | Create(w: nat, name: nat)
    | Append(w: nat, chunk: Bytes)
    | Fail(w: nat)
    | Sync(w: nat)
    | Check(w: nat)
    | Finish(w: nat)
    | Unlink(hash: Hash)
    | Crash(torn: map<nat, Bytes>, tornBlobs: map<Hash, Bytes>, lost: set<Hash>)
    | Reopen(stuck: set<nat>)

  /** `syncs` says whether writers call `sync_all` before they go on; the source's do. */
  ghost predicate Enabled(d: Disk, s: Step, syncs: bool) {
    match s
    case Create(w, name) => w !in d.writers && name !in d.tmp
    case Append(w, _) => w in d.writers && d.writers[w].progress == Writing && d.writers[w].name in d.tmp
    case Fail(w) => w in d.writers
    case Sync(w) => w in d.writers && d.writers[w].progress == Writing && d.writers[w].name in d.tmp
    case Check(w) =>
      w in d.writers && (d.writers[w].progress == Synced || (!syncs && d.writers[w].progress == Writing))
    case Finish(w) => w in d.writers && d.writers[w].progress.Checked? && d.writers[w].name in d.tmp
    case Unlink(_) => true
    case Crash(torn, tornBlobs, _) => torn.Keys == d.tmp.Keys && tornBlobs.Keys == d.blobs.Keys
    case Reopen(_) => d.writers == map[]
  }

  /** A synced file survives a crash as it is; any other comes back with arbitrary bytes. */
  function AfterCrash(f: File, torn: Bytes): File {
    if f.synced then f else File(torn, true)
  }

  ghost function Apply(d: Disk, s: Step, syncs: bool): Disk
    requires Enabled(d, s, syncs)
  {
    match s
    case Create(w, name) => d.(tmp := d.tmp[name := File([], false)], writers := d.writers[w :=
        Writer(name, [], Writing)])
    case Append(w, chunk) =>
      var x := d.writers[w];
      d.(tmp := d.tmp[x.name := File(d.tmp[x.name].bytes + chunk, false)],
         writers := d.writers[w := x.(hashed := x.hashed + chunk)])
    case Fail(w) => d.(writers := d.writers - {w})
    case Sync(w) =>
      var x := d.writers[w];
      d.(tmp := d.tmp[x.name := d.tmp[x.name].(synced := true)], writers := d.writers[w := x.(progress := Synced)])
    case Check(w) =>
      d.(writers := d.writers[w := d.writers[w].(progress := Checked(Digest(d.writers[w].hashed) in d.blobs))])
    case Finish(w) =>
      var x := d.writers[w];
      d.(tmp := d.tmp - {x.name}, writers := d.writers - {w},
         blobs := if x.progress.found then d.blobs else d.blobs[Digest(x.hashed) := d.tmp[x.name]])
    case Unlink(hash) => d.(blobs := d.blobs - {hash})
    case Crash(torn, tornBlobs, lost) =>
      Disk(map n | n in d.tmp :: AfterCrash(d.tmp[n], torn[n]),
           map h | h in d.blobs && h !in lost :: AfterCrash(d.blobs[h], tornBlobs[h]),
           map[])
    case Reopen(stuck) => d.(tmp := map n | n in d.tmp && n in stuck :: d.tmp[n])
  }

  ghost predicate IsRun(states: seq<Disk>, steps: seq<Step>, syncs: bool) {
    && |states| == |steps| + 1
    && forall i :: 0 <= i < |steps| ==>
         Enabled(states[i], steps[i], syncs) && states[i + 1] == Apply(states[i], steps[i], syncs)
  }

  lemma RunLength(states: seq<Disk>, steps: seq<Step>)
    requires IsRun(states, steps, true)
    ensures |states| == |steps| + 1
  {
  }

  lemma RunStep(states: seq<Disk>, steps: seq<Step>, n: nat)
    requires IsRun(states, steps, true) && n + 1 < |states|
    ensures n < |steps| && Enabled(states[n], steps[n], true) && states[n + 1] == Apply(states[n], steps[n], true)
  {
  }

  function Contents(d: Disk): map<Hash, Bytes> {
    map h | h in d.blobs :: d.blobs[h].bytes
  }

  /** Live writers own distinct temporary files holding exactly the bytes they have hashed. */
  ghost predicate Owned(d: Disk) {
    && (forall w :: w in d.writers ==>
          d.writers[w].name in d.tmp && d.tmp[d.writers[w].name].bytes == d.writers[w].hashed)
    && (forall v, w :: v in d.writers && w in d.writers && d.writers[v].name == d.writers[w].name ==> v == w)
  }

  /** Nothing that is in place, or about to be, could still be torn. */
  ghost predicate Durable(d: Disk) {
    && (forall h :: h in d.blobs ==> d.blobs[h].synced)
    && (forall w :: w in d.writers && d.writers[w].progress != Writing ==>
          d.writers[w].name in d.tmp && d.tmp[d.writers[w].name].synced)
  }

  ghost predicate Sound(d: Disk) {
    Owned(d) && Durable(d) && Faithful(Contents(d))
  }

  lemma StepKeepsSound(d: Disk, s: Step)
    requires Enabled(d, s, true) && Sound(d)
    ensures Sound(Apply(d, s, true))
  {
    var u := Apply(d, s, true);
    forall h | h in u.blobs ensures u.blobs[h].synced && Digest(u.blobs[h].bytes) == h {
      if h in d.blobs {
        assert Digest(Contents(d)[h]) == h;
      }
    }
  }

  /** In every reachable state each blob file is complete and named by its digest. */
  lemma {:induction false} AlwaysSound(states: seq<Disk>, steps: seq<Step>, n: nat)
    requires IsRun(states, steps, true) && Sound(states[0]) && n < |states|
    ensures Sound(states[n])
  {
    if n > 0 {
      AlwaysSound(states, steps, n - 1);
      StepKeepsSound(states[n - 1], steps[n - 1]);
    }
  }

  function NewDisk(): Disk {
    Disk(map[], map[], map[])
  }

  ghost predicate EndsFaithful(states: seq<Disk>, steps: seq<Step>, syncs: bool) {
    |states| > 0 && states[0] == NewDisk() && IsRun(states, steps, syncs) ==> Faithful(Contents(states[|states| - 1]))
  }

  /** Every run from an empty store keeps its blobs faithful if and only if writers sync before they rename. */
  lemma FaithfulIffSynced(syncs: bool)
    ensures (forall states: seq<Disk>, steps: seq<Step> :: EndsFaithful(states, steps, syncs)) <==> syncs
  {
    if syncs {
      forall states: seq<Disk>, steps: seq<Step> ensures EndsFaithful(states, steps, syncs) {
        if |states| > 0 && states[0] == NewDisk() && IsRun(states, steps, true) {
          AlwaysSound(states, steps, |steps|);
        }
      }
    } else {
      UnsyncedRenameTears([1], []);
    }
  }

  /** Without the sync a crash after the rename leaves whatever it likes under the digest of the upload. */
  lemma UnsyncedRenameTears(chunk: Bytes, torn: Bytes)
    requires chunk != torn
    ensures exists states: seq<Disk>, steps: seq<Step> :: !EndsFaithful(states, steps, false)
  {
    hide Enabled, Apply;
    var h := Digest(chunk);
    var d0 := NewDisk();
    var d1 := Disk(map[0 := File([], false)], map[], map[0 := Writer(0, [], Writing)]);
    var d2 := Disk(map[0 := File(chunk, false)], map[], map[0 := Writer(0, chunk, Writing)]);
    var d3 := Disk(map[0 := File(chunk, false)], map[], map[0 := Writer(0, chunk, Checked(false))]);
    var d4 := Disk(map[], map[h := File(chunk, false)], map[]);
    var d5 := Disk(map[], map[h := File(torn, true)], map[]);
    var crash := Crash(map[], map[h := torn], {});
    AppendUnsynced(d1, d2, chunk);
    CheckUnsynced(d2, d3, chunk);
    FinishUnsynced(d3, d4, chunk);
    CrashTears(d4, d5, h, torn);
    CreateUnsynced(d0, d1);
    var states := [d0, d1, d2, d3, d4, d5];
    var steps := [Create(0, 0), Append(0, chunk), Check(0), Finish(0), crash];
    assert IsRun(states, steps, false);
    assert Contents(d5)[h] == torn;
    assert !EndsFaithful(states, steps, false);
  }

  lemma CreateUnsynced(d: Disk, u: Disk)
    requires d == NewDisk() && u == Disk(map[0 := File([], false)], map[], map[0 := Writer(0, [], Writing)])
    ensures Enabled(d, Create(0, 0), false) && Apply(d, Create(0, 0), false) == u
  {
  }

  lemma AppendUnsynced(d: Disk, u: Disk, chunk: Bytes)
    requires d == Disk(map[0 := File([], false)], map[], map[0 := Writer(0, [], Writing)])
    requires u == Disk(map[0 := File(chunk, false)], map[], map[0 := Writer(0, chunk, Writing)])
    ensures Enabled(d, Append(0, chunk), false) && Apply(d, Append(0, chunk), false) == u
  {
    assert [] + chunk == chunk;
  }

  lemma CheckUnsynced(d: Disk, u: Disk, chunk: Bytes)
    requires d == Disk(map[0 := File(chunk, false)], map[], map[0 := Writer(0, chunk, Writing)])
    requires u == d.(writers := map[0 := Writer(0, chunk, Checked(false))])
    ensures Enabled(d, Check(0), false) && Apply(d, Check(0), false) == u
  {
  }

  lemma CrashTears(d: Disk, u: Disk, h: Hash, torn: Bytes)
    requires d.tmp == map[] && d.writers == map[] && d.blobs.Keys == {h} && !d.blobs[h].synced
    requires u == Disk(map[], map[h := File(torn, true)], map[])
    ensures Enabled(d, Crash(map[], map[h := torn], {}), false)
        && Apply(d, Crash(map[], map[h := torn], {}), false) == u
  {
  }

  lemma FinishUnsynced(d: Disk, u: Disk, chunk: Bytes)
    requires d == Disk(map[0 := File(chunk, false)], map[], map[0 := Writer(0, chunk, Checked(false))])
    requires u == Disk(map[], map[Digest(chunk) := File(chunk, false)], map[])
    ensures Enabled(d, Finish(0), false) && Apply(d, Finish(0), false) == u
  {
    assert d.tmp - {0} == map[] && d.writers - {0} == map[];
  }

  /** A step that takes the name `h` away, by an unlink or by a crash before the directory entry was durable. */
  predicate Removes(s: Step, h: Hash) {
    s == Unlink(h) || (s.Crash? && h in s.lost)
  }

  /** A stored blob keeps its bytes through every step that leaves its name in place, crashes included. */
  lemma {:induction false} BlobsPersist(states: seq<Disk>, steps: seq<Step>, h: Hash, m: nat, n: nat)
    requires IsRun(states, steps, true) && m <= n < |states| && Sound(states[0])
    requires h in states[m].blobs && forall i :: m <= i < n ==> !Removes(steps[i], h)
    ensures h in states[n].blobs && states[n].blobs[h].bytes == states[m].blobs[h].bytes
  {
    if m < n {
      BlobsPersist(states, steps, h, m, n - 1);
      AlwaysSound(states, steps, n - 1);
      StepKeepsBlob(states[n - 1], steps[n - 1], h);
    }
  }

  lemma StepKeepsBlob(d: Disk, s: Step, h: Hash)
    requires Enabled(d, s, true) && Sound(d) && h in d.blobs && !Removes(s, h)
    ensures h in Apply(d, s, true).blobs && Apply(d, s, true).blobs[h].bytes == d.blobs[h].bytes
  {
    assert Digest(Contents(d)[h]) == h;
  }

  /** The step renames a file to `h`. */
  ghost predicate Renames(d: Disk, s: Step, h: Hash) {
    s.Finish? && s.w in d.writers && d.writers[s.w].progress == Checked(false) && Digest(d.writers[s.w].hashed) == h
  }

  /** `h` was unlinked in the steps from `m` up to `n` and not renamed into place since. */
  ghost predicate Gone(states: seq<Disk>, steps: seq<Step>, h: Hash, m: nat, n: nat)
    requires n <= |steps| < |states|
  {
    exists i :: m <= i < n && Removes(steps[i], h) && forall j :: i < j < n ==> !Renames(states[j], steps[j], h)
  }

  lemma GoneStep(states: seq<Disk>, steps: seq<Step>, h: Hash, m: nat, n: nat)
    requires m <= n < |steps| < |states|
    ensures Gone(states, steps, h, m, n + 1)
            <==> Removes(steps[n], h) || (Gone(states, steps, h, m, n) && !Renames(states[n], steps[n], h))
  {
    if Gone(states, steps, h, m, n) && !Renames(states[n], steps[n], h) {
      var i :| m <= i < n && Removes(steps[i], h) && forall j :: i < j < n ==> !Renames(states[j], steps[j], h);
      assert m <= i < n + 1 && Removes(steps[i], h);
    }
    if Gone(states, steps, h, m, n + 1) && !Removes(steps[n], h) {
      var i :| m <= i < n + 1 && Removes(steps[i], h) && forall j :: i < j < n + 1 ==> !Renames(states[j], steps[j], h);
      assert i < n && !Renames(states[n], steps[n], h);
    }
  }

  lemma NothingGone(states: seq<Disk>, steps: seq<Step>, h: Hash, m: nat)
    requires m <= |steps| < |states|
    ensures !Gone(states, steps, h, m, m)
  {
  }

  /** A name that was there is still there unless it was removed and not put back. */
  lemma {:induction false} NamedUnlessGone(states: seq<Disk>, steps: seq<Step>, h: Hash, m: nat, n: nat)
    requires IsRun(states, steps, true) && m <= n < |states| && h in states[m].blobs
    ensures h in states[n].blobs <==> !Gone(states, steps, h, m, n)
  {
    hide *;
    RunLength(states, steps);
    NothingGone(states, steps, h, m);
    if m < n {
      RunStep(states, steps, n - 1);
      NamedUnlessGone(states, steps, h, m, n - 1);
      GoneStep(states, steps, h, m, n - 1);
      StepNames(states[n - 1], steps[n - 1], h);
    }
  }

  lemma StepNames(d: Disk, s: Step, h: Hash)
    requires Enabled(d, s, true)
    ensures h in Apply(d, s, true).blobs <==> !Removes(s, h) && (h in d.blobs || Renames(d, s, h))
  {
  }

  /** Nothing ends or restarts the write between steps `m` and `n`. */
  ghost predicate Undisturbed(steps: seq<Step>, w: nat, m: nat, n: nat)
    requires n <= |steps|
  {
    forall i :: m <= i < n ==> steps[i] != Fail(w) && steps[i] != Finish(w) && !steps[i].Crash?
  }

  lemma {:induction false} WriterWaits(states: seq<Disk>, steps: seq<Step>, w: nat, m: nat, n: nat)
    requires IsRun(states, steps, true) && m <= n < |states|
    requires w in states[m].writers && states[m].writers[w].progress.Checked? && Undisturbed(steps, w, m, n)
    ensures w in states[n].writers && states[n].writers[w] == states[m].writers[w]
  {
    if m < n {
      WriterWaits(states, steps, w, m, n - 1);
    }
  }

  /**
   From the existence check at step `c` to the end of the write at step `f`: the finished write has left its blob
   on disk if and only if it was not the case that the check answered yes and the file was then unlinked and not
   put back by another writer.
   */
  lemma FinishLeavesBlobIff(states: seq<Disk>, steps: seq<Step>, w: nat, c: nat, f: nat)
    requires IsRun(states, steps, true) && Sound(states[0]) && c < f < |steps|
    requires steps[c] == Check(w) && steps[f] == Finish(w) && Undisturbed(steps, w, c + 1, f)
    ensures var h := Digest(states[c].writers[w].hashed);
            h in states[f + 1].blobs <==> !(h in states[c].blobs && Gone(states, steps, h, c + 1, f))
  {
    var h := Digest(states[c].writers[w].hashed);
    WriterWaits(states, steps, w, c + 1, f);
    if h in states[c].blobs {
      NamedUnlessGone(states, steps, h, c + 1, f);
    }
    assert states[f + 1] == Apply(states[f], steps[f], true);
  }

  /** Ending a run by a crash and a restart that can remove files leaves `tmp/` empty and every named blob as it was. */
  lemma RestartKeepsBlobs(states: seq<Disk>, steps: seq<Step>, torn: map<nat, Bytes>, tornBlobs: map<Hash, Bytes>)
    requires IsRun(states, steps, true) && Sound(states[0])
    requires Enabled(states[|steps|], Crash(torn, tornBlobs, {}), true)
    ensures var d := Apply(states[|steps|], Crash(torn, tornBlobs, {}), true);
            Enabled(d, Reopen({}), true)
            && var u := Apply(d, Reopen({}), true);
            && u.tmp == map[] && Contents(u) == Contents(states[|steps|]) && Sound(u)
  {
    var d := states[|steps|];
    AlwaysSound(states, steps, |steps|);
    var crash := Crash(torn, tornBlobs, {});
    StepKeepsSound(d, crash);
    StepKeepsSound(Apply(d, crash, true), Reopen({}));
    assert Apply(d, crash, true).blobs == d.blobs;
  }

  // ----- one write alone -----

  ghost predicate LeadsTo(d: Disk, steps: seq<Step>, u: Disk)
    decreases |steps|
  {
    if steps == [] then d == u
    else Enabled(d, steps[0], true) && LeadsTo(Apply(d, steps[0], true), steps[1..], u)
  }

  lemma {:induction false} LeadsOn(d: Disk, a: seq<Step>, u: Disk, b: seq<Step>, v: Disk)
    requires LeadsTo(d, a, u) && LeadsTo(u, b, v)
    ensures LeadsTo(d, a + b, v)
    decreases |a|
  {
    hide Enabled, Apply;
    if a == [] {
      assert a + b == b;
    } else {
      LeadsOn(Apply(d, a[0], true), a[1..], u, b, v);
      assert (a + b)[1..] == a[1..] + b;
    }
  }

  lemma LeadsByStep(d: Disk, step: Step)
    requires Enabled(d, step, true)
    ensures LeadsTo(d, [step], Apply(d, step, true))
  {
    hide Enabled, Apply;
    assert LeadsTo(Apply(d, step, true), [step][1..], Apply(d, step, true));
  }

  function Appends(w: nat, chunks: seq<Bytes>): seq<Step> {
    seq(|chunks|, i requires 0 <= i < |chunks| => Append(w, chunks[i]))
  }

  /** `d` with a writer `w` that has written `bytes` to `name` and not synced them. */
  function Halfway(d: Disk, w: nat, name: nat, bytes: Bytes): Disk {
    d.(tmp := d.tmp[name := File(bytes, false)], writers := d.writers[w := Writer(name, bytes, Writing)])
  }

  lemma {:induction false} AppendsLead(d: Disk, w: nat, name: nat, bytes: Bytes, chunks: seq<Bytes>)
    ensures LeadsTo(Halfway(d, w, name, bytes), Appends(w, chunks), Halfway(d, w, name, bytes + Flat(chunks)))
    decreases |chunks|
  {
    hide LeadsTo, Halfway;
    if chunks == [] {
      assert bytes + Flat(chunks) == bytes;
      LeadsNowhere(Halfway(d, w, name, bytes));
    } else {
      var n := |chunks| - 1;
      var before := bytes + Flat(chunks[..n]);
      AppendsLead(d, w, name, bytes, chunks[..n]);
      AppendOne(d, w, name, before, chunks[n]);
      LeadsByStep(Halfway(d, w, name, before), Append(w, chunks[n]));
      LeadsOn(Halfway(d, w, name, bytes), Appends(w, chunks[..n]), Halfway(d, w, name, before), [Append(w, chunks[n])],
              Halfway(d, w, name, before + chunks[n]));
      assert before + chunks[n] == bytes + Flat(chunks);
      assert Appends(w, chunks) == Appends(w, chunks[..n]) + [Append(w, chunks[n])];
    }
  }

  lemma LeadsNowhere(d: Disk)
    ensures LeadsTo(d, [], d)
  {
  }

  lemma AppendOne(d: Disk, w: nat, name: nat, bytes: Bytes, chunk: Bytes)
    ensures var u := Halfway(d, w, name, bytes);
            Enabled(u, Append(w, chunk), true) && Apply(u, Append(w, chunk), true) == Halfway(d, w, name, bytes + chunk)
  {
  }

  /** The disk after `bytes` have been stored: as before if their digest was there, or with one more synced blob. */
  function WithBlob(d: Disk, bytes: Bytes): Disk {
    if Digest(bytes) in d.blobs then d else d.(blobs := d.blobs[Digest(bytes) := File(bytes, true)])
  }

  lemma SyncCheckFinish(d: Disk, w: nat, name: nat, bytes: Bytes)
    requires w !in d.writers && name !in d.tmp
    ensures LeadsTo(Halfway(d, w, name, bytes), [Sync(w), Check(w), Finish(w)], WithBlob(d, bytes))
  {
    var found := Digest(bytes) in d.blobs;
    var s1 := d.(tmp := d.tmp[name := File(bytes, true)], writers := d.writers[w := Writer(name, bytes, Synced)]);
    var s2 := s1.(writers := d.writers[w := Writer(name, bytes, Checked(found))]);
    SyncOne(d, w, name, bytes, s1);
    CheckOne(s1, w, name, bytes, s2);
    FinishOne(d, w, name, bytes, s2);
    hide Enabled, Apply, WithBlob, LeadsTo;
    LeadsByStep(Halfway(d, w, name, bytes), Sync(w));
    LeadsByStep(s1, Check(w));
    LeadsByStep(s2, Finish(w));
    LeadsOn(Halfway(d, w, name, bytes), [Sync(w)], s1, [Check(w)], s2);
    LeadsOn(Halfway(d, w, name, bytes), [Sync(w)] + [Check(w)], s2, [Finish(w)], WithBlob(d, bytes));
    assert [Sync(w)] + [Check(w)] + [Finish(w)] == [Sync(w), Check(w), Finish(w)];
  }

  lemma SyncOne(d: Disk, w: nat, name: nat, bytes: Bytes, u: Disk)
    requires u == d.(tmp := d.tmp[name := File(bytes, true)], writers := d.writers[w := Writer(name, bytes, Synced)])
    ensures var h := Halfway(d, w, name, bytes); Enabled(h, Sync(w), true) && Apply(h, Sync(w), true) == u
  {
  }

  lemma CheckOne(d: Disk, w: nat, name: nat, bytes: Bytes, u: Disk)
    requires w in d.writers && d.writers[w] == Writer(name, bytes, Synced)
    requires u == d.(writers := d.writers[w := Writer(name, bytes, Checked(Digest(bytes) in d.blobs))])
    ensures Enabled(d, Check(w), true) && Apply(d, Check(w), true) == u
  {
  }

  lemma FinishOne(d: Disk, w: nat, name: nat, bytes: Bytes, u: Disk)
    requires w !in d.writers && name !in d.tmp
    requires u == d.(tmp := d.tmp[name := File(bytes, true)],
                     writers := d.writers[w := Writer(name, bytes, Checked(Digest(bytes) in d.blobs))])
    ensures Enabled(u, Finish(w), true) && Apply(u, Finish(w), true) == WithBlob(d, bytes)
  {
    assert u.tmp - {name} == d.tmp && u.writers - {w} == d.writers;
  }

  /** Create, the chunks, sync, existence check, rename or discard. */
  function WriteSteps(w: nat, name: nat, chunks: seq<Bytes>): seq<Step> {
    [Create(w, name)] + Appends(w, chunks) + [Sync(w), Check(w), Finish(w)]
  }

  /** Alone, the steps of a writer leave the files as `LocalFsStore.WriteStreamed` does when nothing fails. */
  lemma WriteAlone(d: Disk, w: nat, name: nat, chunks: seq<Bytes>)
    requires w !in d.writers && name !in d.tmp
    ensures var all := Flat(chunks);
            var u := WithBlob(d, all);
            && LeadsTo(d, WriteSteps(w, name, chunks), u)
            && u.tmp == d.tmp && u.writers == d.writers
            && Contents(u) == if Digest(all) in Contents(d) then Contents(d) else Contents(d)[Digest(all) := all]
  {
    hide LeadsTo, Halfway;
    var all := Flat(chunks);
    CreateOne(d, w, name);
    LeadsByStep(d, Create(w, name));
    AppendsLead(d, w, name, [], chunks);
    assert [] + all == all;
    SyncCheckFinish(d, w, name, all);
    LeadsOn(d, [Create(w, name)], Halfway(d, w, name, []), Appends(w, chunks), Halfway(d, w, name, all));
    LeadsOn(d, [Create(w, name)] + Appends(w, chunks), Halfway(d, w, name, all), [Sync(w), Check(w), Finish(w)],
            WithBlob(d, all));
  }

  lemma CreateOne(d: Disk, w: nat, name: nat)
    requires w !in d.writers && name !in d.tmp
    ensures Enabled(d, Create(w, name), true) && Apply(d, Create(w, name), true) == Halfway(d, w, name, [])
  {
  }
}
