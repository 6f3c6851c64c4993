/**
 The two machines agree: every step of a writer of `StorageRuns`, chunk by chunk, is one step of the server's
 machine or none, from the existence check (`Check`) to the rename or discard (`Place`).
 */
module WriterRefinement {
  import opened Prelude
  import opened Tables
  import opened Storage
  import SR = StorageRuns
  import P = Protocol

  /** The same files, and the same uploads between existence check and return. */
  ghost predicate Corresponds(d: SR.Disk, s: P.Sys) {
    && s.files == SR.Contents(d)
    && (forall w :: w in d.writers && d.writers[w].progress.Checked? ==>
          && w in s.puts && s.puts[w].body == d.writers[w].hashed
          && s.puts[w].stage == P.Checked(d.writers[w].progress.found))
    && (forall pid :: pid in s.puts && s.puts[pid].stage.Checked? ==>
          pid in d.writers && d.writers[pid].progress.Checked?)
  }

  /** The server's step for a step of a writer uploading to `key`, if it has one. */
  ghost function Image(d: SR.Disk, step: SR.Step, key: CacheKey, gc: P.Collector): Option<P.Step>
    requires SR.Enabled(d, step, true)
  {
    match step
    case Check(w) => Some(P.Check(w, key, d.writers[w].hashed))
    case Finish(w) => Some(P.Place(w))
    case Fail(w) => if d.writers[w].progress.Checked? then Some(P.Abandon(w)) else None
    case Unlink(h) => Some(if gc.Cleaning? then P.UnlinkDead(h) else P.UnlinkOrphan(h))
    case Crash(_, _, _) => Some(P.Crash)
    case _ => None
  }

  /**
   The server can follow: upload ids are used once, files are unlinked by the collector only, and names survive
   crashes.
   */
  ghost predicate Follows(s: P.Sys, step: SR.Step) {
    match step
    case Check(w) => w !in s.puts
    case Unlink(h) => P.Enabled(s, P.UnlinkDead(h)) || P.Enabled(s, P.UnlinkOrphan(h))
    case Crash(_, _, lost) => lost == {}
    case _ => true
  }

  /** After the step the machines still correspond, the server having taken the image of the step or none. */
  ghost predicate Matched(d: SR.Disk, step: SR.Step, s: P.Sys, key: CacheKey)
    requires SR.Enabled(d, step, true)
  {
    match Image(d, step, key, s.gc)
    case None => Corresponds(SR.Apply(d, step, true), s)
    case Some(e) => P.Enabled(s, e) && Corresponds(SR.Apply(d, step, true), P.Apply(s, e))
  }

  /** A writer's step is the server's step or leaves the server where it is. */
  lemma WriterRefines(d: SR.Disk, step: SR.Step, s: P.Sys, key: CacheKey)
    requires SR.Enabled(d, step, true) && SR.Sound(d) && Corresponds(d, s) && Follows(s, step)
    ensures Matched(d, step, s, key)
  {
    hide *;
    match step
    case Check(w) => CheckRefines(d, step, s, key);
    case Finish(w) => FinishRefines(d, step, s, key);
    case Fail(w) => FailRefines(d, step, s, key);
    case Unlink(h) => UnlinkRefines(d, step, s, key);
    case Crash(_, _, _) => CrashRefines(d, step, s, key);
    case _ => WritingIsInvisible(d, step, s, key);
  }

  lemma CheckRefines(d: SR.Disk, step: SR.Step, s: P.Sys, key: CacheKey)
    requires step.Check? && SR.Enabled(d, step, true) && Corresponds(d, s) && Follows(s, step)
    ensures Matched(d, step, s, key)
  {
    hide P.DbAfter, P.GetsAfter, P.GcAfter;
    assert SR.Contents(SR.Apply(d, step, true)) == SR.Contents(d);
    assert SR.Contents(d).Keys == d.blobs.Keys;
  }

  lemma FinishRefines(d: SR.Disk, step: SR.Step, s: P.Sys, key: CacheKey)
    requires step.Finish? && SR.Enabled(d, step, true) && SR.Sound(d) && Corresponds(d, s)
    ensures Matched(d, step, s, key)
  {
    hide P.DbAfter, P.GetsAfter, P.GcAfter;
    var e, u := SR.Apply(d, step, true), P.Apply(s, P.Place(step.w));
    assert d.tmp[d.writers[step.w].name].bytes == d.writers[step.w].hashed;
    forall h ensures h in SR.Contents(e) <==> h in u.files {
    }
    assert forall h :: h in u.files ==> SR.Contents(e)[h] == u.files[h];
    assert SR.Contents(e) == u.files;
  }

  lemma FailRefines(d: SR.Disk, step: SR.Step, s: P.Sys, key: CacheKey)
    requires step.Fail? && SR.Enabled(d, step, true) && Corresponds(d, s)
    ensures Matched(d, step, s, key)
  {
    hide P.DbAfter, P.GetsAfter, P.GcAfter;
    assert SR.Contents(SR.Apply(d, step, true)) == SR.Contents(d);
  }

  lemma UnlinkRefines(d: SR.Disk, step: SR.Step, s: P.Sys, key: CacheKey)
    requires step.Unlink? && SR.Enabled(d, step, true) && Corresponds(d, s) && Follows(s, step)
    ensures Matched(d, step, s, key)
  {
    hide P.DbAfter, P.GetsAfter, P.GcAfter;
    assert SR.Contents(SR.Apply(d, step, true)) == s.files - {step.hash};
  }

  lemma CrashRefines(d: SR.Disk, step: SR.Step, s: P.Sys, key: CacheKey)
    requires step.Crash? && SR.Enabled(d, step, true) && SR.Sound(d) && Corresponds(d, s) && Follows(s, step)
    ensures Matched(d, step, s, key)
  {
    hide P.DbAfter, P.GetsAfter, P.GcAfter;
    assert SR.Apply(d, step, true).blobs == d.blobs;
  }

  lemma WritingIsInvisible(d: SR.Disk, step: SR.Step, s: P.Sys, key: CacheKey)
    requires step.Create? || step.Append? || step.Sync? || step.Reopen?
    requires SR.Enabled(d, step, true) && Corresponds(d, s)
    ensures Matched(d, step, s, key)
  {
    hide P.DbAfter, P.GetsAfter, P.GcAfter;
    assert SR.Contents(SR.Apply(d, step, true)) == SR.Contents(d);
  }
}
