# Marmotte in Dafny

Marmotte is a content-addressed build cache. Entries (project, kind, path) point at blobs by SHA-256 digest, blob
rows carry refcounts, files sit on disk under their digest, and a multi-phase garbage collector evicts entries and
removes blobs while uploads, reads and admin calls go on. This project models that state and proves what keeps the
tables, the files and the answers to clients in agreement, and exactly where the code does not.

## How the model is laid out

| file | what it holds |
|---|---|
| `Sums.dfy` | options, results, sums over tables (`SUM(column)`) |
| `Ordering.dfy` | `ORDER BY column, id` as a strict total order, and the sorted list of a set |
| `Tables.dfy` | the `projects`, `entries` and `blobs` tables, each SQL transaction as a function on them, the invariants |
| `Database.dfy` | the repositories as a class whose methods update the tables, proved against `Tables` |
| `Evictions.dfy` | which rows each phase of a sweep evicts, defined without loops |
| `Storage.dfy`, `StorageRuns.dfy` | the blob store: a class for one caller, and a machine of concurrent writers with synced and unsynced bytes and crashes |
| `Gc.dfy` | the sweep and the orphan scan as loops over the class, proved against `Evictions` |
| `GcTheory.dfy`, `GcExactness.dfy`, `DryRuns.dfy` | accounting, convergence, dry run against real run, exact conditions |
| `Protocol.dfy` | the whole server as interleaved atomic steps: uploads checked, placed and committed separately, GETs in two reads, admin calls, one collector; what every run keeps, and when a pin protects |
| `Serving.dfy` | files behind entries, what GET and HEAD answer, and the abstract cache they refine |
| `Races.dfy` | where uploads, reads, cleanup and scan collide, and exactly when they do not |
| `WriterRefinement.dfy`, `SweepRuns.dfy` | every step of a writer of `StorageRuns` is a step of `Protocol` or none; a sweep alone is a run of `Protocol` |
| `Like.dfy`, `Paging.dfy` | the `LIKE 'prefix%'` filter and keyset pagination |
| `VerifyCache.dfy`, `AuthRuns.dfy` | the authentication cache, and any interleaving of lookups with table changes |
| `Uploads.dfy`, `Push.dfy` | any number of commits of the same files, and the client's HEAD check and retried PUT, and a whole push |

Each SQL transaction is one atomic step. A phase of a sweep is a fetch followed by one transaction per candidate. A
closed form (`Tables.Evict`, "delete these entries") connects the two views: the loops of `GcSvc` are proved to equal
it, and so is the collector of `Protocol` when nobody interferes (`Protocol.DrainIsEvict`, and `SweepRuns.SweepIsRun`
for the whole sweep). Likewise `StorageRuns.WriteAlone` and `AuthRuns.AloneIsAuthenticate` connect the interleaved
machines to the methods.

Ghost parameters such as `t` and `done` on the helpers of `GcSvc` name the tables before a phase and what it evicted
so far. The report a phase receives as `&mut rep` is passed in and returned.

## Where the code departs from its own prose

The model follows the code. Each departure is a theorem, with the exact condition where there is one.

- Deleting a project lets the cascade remove entries without decrementing refcounts. Refcounts stay exact if and only
  if the project was empty (`Protocol.StepKeepsExactIff`). Only an orphan scan that misses the file ever removes the
  excess (`Protocol.LeakIsPermanent`).
- "Pinned entries are never evicted" (`entries.rs:285`) fails for a pin set after a phase has listed its candidates
  (`Protocol.PinTooLate`). A pinned entry survives every continuation in which nobody releases it if and only if no
  sweep is already on its way to it (`Protocol.PinnedKeptIff`).
- The global phase subtracts entry sizes although blobs are shared: with nothing dead beforehand its counter is right if
  and only if every victim with bytes has a refcount of 1 (`GcExactness.CounterIsTotalIff`); an instance is `GcTheory.SharingCausesUnderEviction`.
- It also measures blobs that are dead already, and may evict too much: `GcExactness.DeadBytesHarmlessIff`, with
  `GcTheory.DeadBlobsCauseOverEviction`.
- A dry run bounds the real run for all stores of a given total size if and only if that total is within the global
  quota (`DryRuns.DryRunCoversIff`). Beyond it there are stores either way (`GcTheory.DryRunCanReportLess`,
  `GcTheory.DryRunCanReportMore`); `DryRuns.GlobalVictimsInsideIff` says when the real global victims are still among
  those the dry run names.
- Cleanup can remove a file that an upload has seen and not committed yet, from the moment `write_streamed` has found
  the blob in place (`Races.CleanupRace`), and a file that a GET has found and not opened yet (`Races.GetRace`).
  Unlinking is harmless if and only if nobody needs the file (`Races.UnlinkSafeIff`).
- The orphan scan can purge a committed entry whose file exists (`Races.ScanRace`). A purge loses something stored if
  and only if its hash is referenced and its file is there (`Races.PurgeForgetsIff`), which takes an upload that put
  the file there after the scan's directory walk (`Races.WrongPurgeNeedsUpload`).
- A GET is two reads. In guarded runs it answers with the body stored when it found the entry, and misses if and only
  if that file was unlinked in between and not put back (`Serving.GetAnswers`): a miss although the key holds
  something before and after.
- `upsert_incr` is said to return whether the blob existed before (`blobs.rs:40-41`). It does not for a row at
  refcount 0: the contract of `Database.Pool.UpsertIncr` has the exact condition.
- `upsert` returns an entry rebuilt from its arguments; on an overwrite it misreports `pinned` and `created_at`. The
  contract of `Database.Pool.Upsert` says when the two agree.
- `path_prefix` is not escaped: it selects exactly the paths with the prefix, up to ASCII case, if and only if the
  prefix has no `%` and no `_` (`Like.FilterIsPrefixIff`).
- Paging by the default `last_accessed DESC` can miss a row that matched at every fetch. It does so if and only if the
  row is moved across the cursor between two fetches (`Paging.MissedIffCrosses`). In ascending order of a value that
  grows nothing is missed, and a row repeats if and only if it is moved ahead of the cursor (`Paging.RepeatedIffJumps`).
- The cache TTL is said to limit revocation lag (`config.rs:163`, `config.rs:183`). It does if and only if no lookup of
  the key is between its key read and its insert when the key is revoked (`AuthRuns.RevocationLagBoundedIff`).
- A failed read of the project row is reported as `Unauthorized` (`auth.rs:293`), not as a database error as
  `auth.rs:265-268` says. A request can be accepted that no single state of the tables would accept
  (`AuthRuns.TornLookupMatchesNoState`, and `AuthRuns.TornLookupAloneIff` for exactly when).
- The push client's "initial backoff" of 200 ms is never waited: the first wait is 400 ms. `MAX_RETRIES` counts
  attempts, so there are at most four retries. The server never looks at `If-None-Match`; skipping relies on the ETag.
  Since HEAD does not look at the file, a dangling entry makes `push` skip a file that GET cannot serve. Since replies
  are marked public and immutable for a year (`yocto.rs:85-90`), something in between may answer HEAD from memory, and
  `push` then skips a file the server no longer has: the contract of `Push.PushOne` has the exact condition.
- Comments call `size_bytes` "non-negative by schema constraint" (`gc.rs:228`); the schema has no such constraint. Here it
  is a consequence of sizes being lengths of contents (`Tables.Sized`).
- `walk_blobs` says it accepts lower-case hexadecimal names only, and accepts upper case too; no such file is ever
  written by the store.

## Model

| member | source | states |
|---|---|---|
| `Database.Pool.Decr` | crates/marmotte-core/src/db/blobs.rs:77-92 | decrements exactly one row and returns its new count, or reports a missing row and changes nothing |
| `Database.Pool.UpsertIncr` | crates/marmotte-core/src/db/blobs.rs:38-66 | a decrement undoes it, and its answer is the documented one exactly when the row was not there at refcount 0 |
| `Database.Pool.Find` | crates/marmotte-core/src/db/entries.rs:209-220 | returns the one row with this key, or none exactly if there is none |
| `Database.Pool.Upsert` | crates/marmotte-core/src/db/entries.rs:136-202 | the tables move as one transaction or not at all, and the returned entry equals the stored row exactly when it was inserted or was unpinned and created now |
| `Database.Pool.Delete` | crates/marmotte-core/src/db/entries.rs:263-281 | removes the row and decrements its blob together, or changes nothing |
| `GcTheory.PinProtects` | crates/marmotte-core/src/db/entries.rs:283-304 | an entry pinned before a sweep survives it, and pinning keeps every invariant and refcount |
| `Tables.UnpinUndoesPin` | crates/marmotte-core/src/db/entries.rs:283-304 | unpinning undoes pinning and nothing else moves |
| `GcTheory.TouchedGoesLast` | crates/marmotte-core/src/db/entries.rs:226-236 | an accessed entry is evicted only if every other unpinned entry is, and the access keeps every invariant and refcount |
| `Database.Pool.ZeroRefcount` | crates/marmotte-core/src/db/blobs.rs:102-109 | any `limit` of the rows at refcount 0, and all of them if fewer come back |
| `Database.Pool.DeleteBlob` | crates/marmotte-core/src/db/blobs.rs:120-126 | removes the row unless an entry references it |
| `Database.Pool.TotalSize` | crates/marmotte-core/src/db/blobs.rs:135-140 | the sum over all blob rows, dead ones included |
| `Database.Pool.ProjectUsage` | crates/marmotte-core/src/db/entries.rs:245-252 | the sum of the sizes of the project's entries, shared or not |
| `Tables.UpsertConserves` | crates/marmotte-core/src/db/entries.rs:157-166 | whichever branch runs, no blob's refcount drifts from its number of references |
| `Tables.UpsertFailsOnlyOnProject` | crates/marmotte-core/src/db/entries.rs:136-202 | an upsert is refused exactly when the project is gone; `decr` never misses its row |
| `Tables.UpsertKeepsInv` | crates/marmotte-core/src/db/entries.rs:136-202 | foreign keys, unique keys, fresh ids, refcount bounds and sizes survive an upsert |
| `Tables.DeleteIsEvict` | crates/marmotte-core/src/db/entries.rs:263-281 | one delete is the eviction of one entry and never fails on its blob |
| `Tables.EvictTwice` | crates/marmotte-core/src/gc.rs:219-232 | evictions compose, so order and grouping of the transactions do not matter |
| `Tables.EvictConserves` | crates/marmotte-core/src/db/entries.rs:263-281 | evicting any set of entries keeps the gap between refcount and references of every blob |
| `Tables.EvictKeepsInv` | crates/marmotte-core/src/gc.rs:219-232 | evicting any set of entries keeps all table invariants |
| `Tables.EvictKeepsTotal` | crates/marmotte-core/src/gc.rs:286-324 | evicting entries does not move the measured total before cleanup |
| `Tables.CascadeLeaks` | crates/marmotte-core/migrations/0001_init.sql:42 | the cascade leaves behind exactly one stale reference per removed entry |
| `Tables.DeleteProjectExactIff` | crates/marmotte-core/src/db/projects.rs:167-178 | exact refcounts survive a project delete if and only if the project has no entries |
| `Tables.DeadIsUnreferenced` | crates/marmotte-core/src/db/blobs.rs:102-126 | a row at refcount 0 is referenced by no entry |
| `Tables.DropDeadKeepsInv` | crates/marmotte-core/src/gc.rs:332-362 | cleanup keeps the foreign key and all other table invariants |
| `Tables.PurgeKeepsInv` | crates/marmotte-core/src/gc.rs:164-176 | the orphan purge keeps the invariants and every surviving refcount's accuracy |
| `Evictions.TtlSelectIsExpired` | crates/marmotte-core/src/gc.rs:208-218 | the split SQL condition selects exactly the unpinned rows of the kind older than the project's TTL or the kind's default |
| `Evictions.ExpiredIff` | crates/marmotte-core/src/gc.rs:188-218 | a row is expired exactly by the documented rule, written out over its columns and the configuration |
| `Evictions.VictimsLru` | crates/marmotte-core/src/gc.rs:252-268 | a spared row was used after every evicted one, ties broken by id |
| `Evictions.VictimsReach` | crates/marmotte-core/src/gc.rs:259-268 | the loop reaches the quota or runs out of unpinned rows |
| `Evictions.VictimsMinimal` | crates/marmotte-core/src/gc.rs:259-268 | no shorter LRU prefix would have reached the quota |
| `Evictions.VictimsEmptyIff` | crates/marmotte-core/src/gc.rs:247-249 | nothing is evicted if and only if usage fits or everything is pinned |
| `Evictions.QuotaPhaseFits` | crates/marmotte-core/src/gc.rs:242-280 | a project's usage ends at most at its quota or its pinned bytes, whichever is larger |
| `Evictions.QuotaPhaseSpares` | crates/marmotte-core/src/gc.rs:245-249 | projects without a quota or within it lose nothing |
| `Storage.LocalFsStore.Open` | crates/marmotte-core/src/storage.rs:58-78 | reopening removes the leftover temporary files it can remove and keeps every blob |
| `Storage.LocalFsStore.WriteStreamed` | crates/marmotte-core/src/storage.rs:94-140 | returns digest and length of the concatenated chunks and has them stored under that digest, exactly if no operation it needed fails; a failure changes no blob and leaves at most its temporary file |
| `Storage.LocalFsStore.ReadBlob` | crates/marmotte-core/src/storage.rs:161-169 | the bytes read under a digest are the bytes with that digest; NotFound exactly if there is no file |
| `Storage.Rechunking` | crates/marmotte-core/src/storage.rs:105-117 | how the body is cut into chunks does not matter |
| `StorageRuns.AlwaysSound` | crates/marmotte-core/src/storage.rs:94-140 | with any number of writers and a crash between any two steps, every blob file is complete, synced and named by its digest |
| `StorageRuns.WriteAlone` | crates/marmotte-core/src/storage.rs:94-140 | alone, the steps of a writer leave the files as the sequential method does |
| `StorageRuns.FaithfulIffSynced` | crates/marmotte-core/src/storage.rs:111-112 | every run from an empty store keeps its blobs faithful if and only if writers sync before they rename; otherwise a crash tears a renamed file |
| `StorageRuns.BlobsPersist` | crates/marmotte-core/src/storage.rs:123-137 | a stored blob keeps its bytes through every step, crashes included, that leaves its name in place |
| `StorageRuns.FinishLeavesBlobIff` | crates/marmotte-core/src/storage.rs:123-137 | from existence check to return: the finished write has left its blob unless the check found it and it was then unlinked and not put back |
| `StorageRuns.RestartKeepsBlobs` | crates/marmotte-core/src/storage.rs:58-78 | after any run, crash and restart leave no temporary file and every named blob with its bytes |
| `WriterRefinement.WriterRefines` | crates/marmotte-core/src/storage.rs:94-140 | every step of a writer is one step of the server's machine or none, from existence check to rename |
| `Gc.GcSvc.TtlPhase` | crates/marmotte-core/src/gc.rs:188-236 | of the unpinned entries exactly those go that were last accessed longer ago than their project's own seconds, or else than the configured days of their kind; the counters are exactly their number and bytes |
| `Gc.GcSvc.EvictDown` | crates/marmotte-core/src/gc.rs:259-277 | the LRU loop evicts and counts exactly the shortest sufficient prefix, and its `usage` ends lower by exactly that prefix's bytes |
| `Gc.GcSvc.QuotaPhase` | crates/marmotte-core/src/gc.rs:242-280 | project by project exactly the quota victims go, each judged as if the others were untouched |
| `Gc.GcSvc.GlobalPhase` | crates/marmotte-core/src/gc.rs:286-324 | exactly the global LRU victims go, and `usage` ends at the total less their sizes |
| `Gc.GcSvc.CleanupBlobs` | crates/marmotte-core/src/gc.rs:332-362 | whatever each batch picks, the loop ends with exactly the dead rows gone and counted and the files of all of them unlinked that the file system lets go; a dry run counts one batch of at most 1 000 |
| `Gc.GcSvc.Run` | crates/marmotte-core/src/gc.rs:105-116 | a sweep never fails when alone, leaves exactly the swept tables, reports exactly its phases' counts, and unlinks the files of exactly the dead blobs that the file system lets go; a dry run ends in the tables and files it began with |
| `SweepRuns.SweepIsRun` | crates/marmotte-core/src/gc.rs:105-116 | by its own steps the collector of the server's machine can go from any idle state to the state an undisturbed sweep ends in |
| `SweepRuns.ScanIsRun` | crates/marmotte-core/src/gc.rs:129-182 | by its own steps the collector can go from any idle state to the state an undisturbed scan ends in |
| `Gc.GcSvc.OrphanScan` | crates/marmotte-core/src/gc.rs:129-182 | purges exactly the rows without a file, unlinks exactly the files without a row that the file system lets go, reports the sizes of both differences, and in a dry run changes nothing |
| `Gc.StopsAtVictims` | crates/marmotte-core/src/gc.rs:259-262 | a loop that stops at the first fitting prefix has walked exactly the victims |
| `GcTheory.GlobalAccounting` | crates/marmotte-core/src/gc.rs:286-324 | total after cleanup = final value of the loop's `usage` (the result of `GcSvc.GlobalPhase`) + victims' bytes kept alive by sharing - bytes dead before the phase |
| `GcTheory.ReleasedAtMostEvicted` | crates/marmotte-core/src/gc.rs:310-322 | an eviction never frees more than it counts |
| `GcTheory.OneSweepSuffices` | crates/marmotte-core/src/gc.rs:105-116 | with exact refcounts and no sharing one sweep meets the quota or leaves nothing unpinned |
| `GcTheory.SweepShrinks` | crates/marmotte-core/src/gc.rs:105-116 | a sweep keeps the invariants and never grows the total or the unpinned set |
| `GcTheory.SweepProgress` | crates/marmotte-core/src/gc.rs:286-324 | a sweep that does not settle the store evicts at least one entry |
| `GcTheory.SweepsConverge` | crates/marmotte-core/src/gc.rs:286-324 | for any sharing and any leaks, as many sweeps as there were unpinned entries settle the store |
| `GcTheory.VictimsAfterDrop` | crates/marmotte-core/src/gc.rs:242-280 | evicting unpinned rows first can only shrink a later phase's victims |
| `GcTheory.DryRunCoversReal` | crates/marmotte-core/src/gc.rs:105-116 | within the global quota a dry run reports at least the entries and bytes of the real run |
| `DryRuns.DryRunCoversIff` | crates/marmotte-core/src/gc.rs:105-116 | for all stores of a total size a dry run reports at least what the real run evicts if and only if the total is within the global quota |
| `DryRuns.OverQuotaNotCovered` | crates/marmotte-core/src/gc.rs:286-324 | for every total above every quota, a store for which the dry run reports 2 and the real run evicts 3 |
| `DryRuns.GlobalVictimsInsideIff` | crates/marmotte-core/src/gc.rs:286-324 | the real run's global victims are among the dry run's exactly if those named beyond the other phases exhaust what is left or fit the quota by themselves |
| `GcTheory.DryRunCanReportLess` | crates/marmotte-core/src/gc.rs:286-324 | beyond the quota a dry run may report 2 where the real run evicts 3 |
| `GcTheory.DryRunCanReportMore` | crates/marmotte-core/src/gc.rs:286-324 | or 4 where the real run evicts 3 |
| `GcTheory.DeadBlobsCauseOverEviction` | crates/marmotte-core/src/gc.rs:286-295 | an instance where nothing had to go and everything unpinned did |
| `GcTheory.SharingCausesUnderEviction` | crates/marmotte-core/src/gc.rs:310-315 | two entries on one 10-byte blob at quota 5: one goes, the total stays 10 |
| `GcTheory.ScanReconciles` | crates/marmotte-core/src/gc.rs:129-182 | after a quiet scan rows and files agree up to stuck files, entries with a file and all refcounts survive, and a second scan finds nothing new |
| `GcExactness.ReleasesAllIff` | crates/marmotte-core/src/gc.rs:310-322 | an eviction frees all the bytes it counts if and only if every victim with bytes has a refcount of 1 |
| `GcExactness.CounterIsTotalIff` | crates/marmotte-core/src/gc.rs:286-324 | with nothing dead before, the loop's `usage` ends at the true total if and only if every victim with bytes has a refcount of 1 |
| `GcExactness.DeadBytesHarmlessIff` | crates/marmotte-core/src/gc.rs:286-295 | counting dead blobs never evicts less, and evicts the same exactly if what is needed exhausts the unpinned rows or fits with the dead bytes counted |
| `GcExactness.SweepSettlesIff` | crates/marmotte-core/src/gc.rs:286-324 | one sweep settles the store if and only if its phases evict every unpinned entry or the bytes withheld by sharing and leaks are made up for |
| `GcExactness.SoleClaimsSettle` | crates/marmotte-core/src/gc.rs:286-324 | one sweep settles the store when the global victims with bytes have a refcount of 1 |
| `Protocol.AlwaysInv` | crates/marmotte-core/src/db/entries.rs:112-119 | over every run, aborted sweeps included: foreign keys hold, no refcount is below its references or negative, sizes are content lengths |
| `Protocol.StepConserves` | crates/marmotte-core/src/db/entries.rs:112-119 | every step keeps each refcount's accuracy, except that a cascade adds exactly what it leaks |
| `Protocol.StepKeepsExactIff` | crates/marmotte-core/src/db/projects.rs:167-178 | exactness survives a step if and only if it does not delete a project that has entries |
| `Protocol.AlwaysExact` | crates/marmotte-core/src/db/entries.rs:136-202 | runs that delete only empty projects keep every refcount equal to its references |
| `Protocol.LeakIsPermanent` | crates/marmotte-core/migrations/0001_init.sql:42 | a leaked reference keeps its row, unless a cleanup batch holds it already, through every later step but the orphan scan's purge of that hash |
| `Protocol.PinnedSurvives` | crates/marmotte-core/src/gc.rs:208-232 | an entry pinned while no sweep is on its way to it survives under any interleaving, overwrites included, until released |
| `Protocol.PinnedKeptIff` | crates/marmotte-core/src/db/entries.rs:283-304 | a pinned entry survives every continuation without a release if and only if it is not listed behind candidates that are all still there and distinct |
| `Protocol.PinTooLate` | crates/marmotte-core/src/db/entries.rs:283-304 | a pin set during a sweep may not protect |
| `Protocol.RowsKeepIdentity` | crates/marmotte-core/migrations/0001_init.sql:40-51 | ids are never reused: over any stretch of a run an id names one row, so a stale candidate cannot delete a newer one |
| `Protocol.RefusedStepsAbort` | crates/marmotte-core/src/gc.rs:219-232 | a candidate that is gone, or a dead row that is referenced again, ends the sweep and changes nothing else |
| `Protocol.AdminStepsDo` | crates/marmotte-core/src/db/projects.rs:127-159 | creating and changing projects, abandoned uploads and crashes change exactly their own rows and in-flight work |
| `Protocol.TouchAndPinDo` | crates/marmotte-core/src/db/entries.rs:226-304 | touching, pinning and unpinning change exactly their own column of their own row |
| `Serving.AlwaysSafe` | crates/marmotte-server/src/routes/yocto.rs:245-259 | under the guard every committed entry, and every upload past its existence check that will not write the file again, has its file in every state of every run |
| `Serving.HeadAgreesWithGet` | crates/marmotte-server/src/routes/yocto.rs:46-113 | HEAD and GET that look at the entry in the same state agree: the ETag is the digest of the bytes GET returns |
| `Serving.GetAnswers` | crates/marmotte-server/src/routes/yocto.rs:61-93 | a GET in a guarded run answers with the body stored when it found the entry, and misses if and only if that file was unlinked in between and not put back |
| `Serving.UnconcernedGetHits` | crates/marmotte-server/src/routes/yocto.rs:61-93 | such a miss takes an overwrite, delete or eviction of the key between the two reads |
| `Serving.StepRefines` | crates/marmotte-server/src/routes/yocto.rs:46-113 | every guarded step does to what is stored at each key exactly what an abstract key-value cache does |
| `Serving.LastCommitWins` | crates/marmotte-server/src/routes/yocto.rs:228-293 | a GET that starts after a commit returns exactly the committed body, unless the key is written, deleted or evicted before it opens the file |
| `Races.UnlinkSafeIff` | crates/marmotte-core/src/gc.rs:343-352 | an unlink is harmless for entries, for whichever upload finishes next and for every GET under way if and only if none of them needs the file |
| `Races.CleanupRace` | crates/marmotte-core/src/gc.rs:332-362 | six steps, the cleanup between an upload's existence check and its return, after which HEAD answers and GET misses |
| `Races.GetRace` | crates/marmotte-server/src/routes/yocto.rs:61-93 | a guarded run with something stored at the key in every state in which a GET misses |
| `Races.ScanRace` | crates/marmotte-core/src/gc.rs:129-182 | six steps in which the scan purges a committed entry whose file exists |
| `Races.PurgeForgetsIff` | crates/marmotte-core/src/gc.rs:164-176 | a purge makes something stored disappear if and only if its hash is referenced and its file is there |
| `Races.WrongPurgeNeedsUpload` | crates/marmotte-core/src/gc.rs:129-182 | that takes an upload that put the file there after the scan's walk |
| `Protocol.DrainIsEvict` | crates/marmotte-core/src/gc.rs:259-268 | undisturbed, working through candidates one transaction at a time is one eviction of the prefix |
| `Like.StartingPathsMatch` | crates/marmotte-core/src/db/entries.rs:344-347 | every path that starts with the prefix is listed, wildcards in it or not |
| `Like.PlainPrefix` | crates/marmotte-core/src/db/entries.rs:344-347 | without wildcards the filter is the prefix test up to ASCII case |
| `Like.FoldIff` | crates/marmotte-core/src/db/entries.rs:344-347 | case folding identifies exactly an ASCII letter with its other case |
| `Like.FilterIsPrefixIff` | crates/marmotte-core/src/db/entries.rs:344-347 | the filter is the prefix test for all paths if and only if the prefix has no wildcard |
| `Ordering.SortedUnique` | crates/marmotte-core/src/db/entries.rs:361-366 | an ordered listing is determined by its rows |
| `Paging.List` | crates/marmotte-core/src/db/entries.rs:316-418 | the page, column by column: only wanted rows after the cursor, each following the one before, at most the limit (100, or what is asked for between 1 and 1 000); a wanted row after the cursor is on it or after it; full with a cursor at its last row exactly if rows are left; and an error exactly for a cursor that does not decode |
| `Ordering.TextLessIff` | crates/marmotte-core/src/db/entries.rs:361-366 | paths are ordered by the first character in which they differ, a prefix before what it starts |
| `Paging.PageMeaning` | crates/marmotte-core/src/db/entries.rs:316-418 | every page has this meaning, whatever the filter, sort, direction, limit and cursor of that sort |
| `Paging.CutIsGoodPage` | crates/marmotte-core/src/db/entries.rs:390-418 | a page is sorted, lies within what remains, ends at its cursor, and everything left out lies after it |
| `Paging.OutputOrdered` | crates/marmotte-core/src/db/entries.rs:316-418 | however the tables change between fetches, the output is strictly ordered by (value, id) |
| `Paging.NoIdTwice` | crates/marmotte-core/src/db/entries.rs:316-418 | with stable sort values no id is emitted twice |
| `Paging.SteadyRowEmitted` | crates/marmotte-core/src/db/entries.rs:348-360 | a row that matched at every fetch with one sort value is emitted or still ahead |
| `Paging.PagingOverRuns` | crates/marmotte-core/src/db/entries.rs:316-418 | paging by path or creation order over any run of the server: ordered, no repeats, and complete for rows that matched throughout |
| `Paging.MissedIffCrosses` | crates/marmotte-core/src/db/entries.rs:226-236 | with the default sort a steady match is missed if and only if an access moves it across the cursor |
| `Paging.EmittedByOneFetch` | crates/marmotte-core/src/db/entries.rs:316-418 | and no row is emitted by two fetches |
| `Paging.DefaultSortMovesUp` | crates/marmotte-core/src/db/entries.rs:226-236 | access times that never go back only move rows up in the default sort |
| `Paging.TouchedRowIsMissed` | crates/marmotte-core/src/db/entries.rs:226-236 | a completed traversal that misses a row because of one GET |
| `Paging.EmittedAtIff` | crates/marmotte-core/src/db/entries.rs:348-360 | for every sort, a matching row is emitted by a fetch exactly if it lies after the cursor and not after the next |
| `Paging.AscendingMovesDown` | crates/marmotte-core/src/db/entries.rs:33-40 | ascending order of access or size moves rows down while the value does not decrease |
| `Paging.MovingDownMissesNothing` | crates/marmotte-core/src/db/entries.rs:316-418 | sort values that only move down lose no row |
| `Paging.RepeatedIffJumps` | crates/marmotte-core/src/db/entries.rs:316-418 | and repeat a row if and only if it is moved ahead of the cursor after it was emitted |
| `Paging.AllPagesIsSortedTable` | crates/marmotte-core/src/db/entries.rs:316-418 | on an unchanging table the pages concatenate to the sorted filtered rows, each once, in max(1, ceil(n / limit)) pages |
| `Paging.FollowingCursorsIsAllPages` | crates/marmotte-core/src/db/entries.rs:316-418 | any completed walk along `next_cursor` over an unchanging table is that list of pages |
| `VerifyCache.AuthSvc.AuthenticateProject` | crates/marmotte-core/src/auth.rs:277-311 | a live slot answers; otherwise the answer is `Ok` for exactly the owner of an unrevoked key with this digest and verifier in the project the name leads to, with that key's role, the two reads possibly seeing different tables or failing; only an `Ok` is stored |
| `VerifyCache.AuthSvc.AuthenticateAdmin` | crates/marmotte-core/src/auth.rs:328-347 | a live slot answers; otherwise the answer is `Ok` for exactly an unrevoked token row with this digest and verifier, with its label; only an `Ok` is stored |
| `VerifyCache.TwoReadsIff` | crates/marmotte-core/src/auth.rs:288-309 | the uncached lookup grants exactly what an unrevoked key row of the named project says |
| `VerifyCache.AdminErrorIff` | crates/marmotte-core/src/auth.rs:328-347 | the answer is Crypto exactly if an active row's verifier does not parse, and Unauthorized exactly if no active row accepts the token |
| `VerifyCache.IdsAreDistinct` | crates/marmotte-core/src/auth.rs:282-285 | distinct (project, key) pairs and distinct tokens never share a slot |
| `VerifyCache.SeenAfterFilled` | crates/marmotte-core/src/auth.rs:172-184 | a failure leaves no trace; an `Ok` answers its own key until the TTL is over and not after; other keys see what they saw or compute anew |
| `AuthRuns.AloneIsAuthenticate` | crates/marmotte-core/src/auth.rs:277-311 | run without interference the interleaved steps of any request reply and fill the cache as the methods do, in every case |
| `AuthRuns.EveryOkWasLookedUp` | crates/marmotte-core/src/auth.rs:172-184 | every `Ok`, to a project or an admin, is what an uncached lookup of the same credentials read earlier, and that very lookup inserted it less than the TTL before the answer |
| `AuthRuns.ErrorsAreNotCached` | crates/marmotte-core/src/auth.rs:163-171 | no step of a request that ends in an error changes the cache, whatever runs in between |
| `AuthRuns.TornLookupIff` | crates/marmotte-core/src/auth.rs:288-299 | two reads agree with one atomic lookup if and only if the name still leads to the same project |
| `AuthRuns.TornLookupAloneIff` | crates/marmotte-core/src/auth.rs:288-299 | a request is let in that neither state lets in exactly if the name was taken away and the key given in between |
| `AuthRuns.TornLookupMatchesNoState` | crates/marmotte-core/src/auth.rs:288-299 | a rename between the reads lets in a request that no single state accepts |
| `AuthRuns.RevocationLagBoundedIff` | crates/marmotte-core/src/config.rs:161-165 | at any point of any run, the TTL bounds revocation lag from there on if and only if no lookup of the credentials is past its last read |
| `AuthRuns.LateInsert` | crates/marmotte-core/src/config.rs:183-187 | otherwise an `Ok` can come after any delay |
| `Push.PushOne` | crates/marmotte-cli/src/commands/push.rs:135-196 | whatever replies and events arrive, a file reported pushed has been committed and maps to its digest exactly unless deleted since, a file reported skipped maps to it exactly if the HEAD was answered truthfully; at most 5 attempts, waits of at most 6000 ms |
| `Push.HeadDecides` | crates/marmotte-cli/src/commands/push.rs:142-168 | by status number: 304, or 200 with the file's ETag, skips, 404 and other 2xx go on, anything else fails |
| `Push.RepliesDecide` | crates/marmotte-cli/src/commands/push.rs:170-195 | by status number: 500, 502, 503 and 504 are tried again after 400, 800, 1600 and 3200 ms, a 2xx means pushed, anything else or a fifth such reply means failed |
| `Push.HappenAllHash` | crates/marmotte-cli/src/commands/push.rs:170-195 | after any commits and deletions, once its file has been committed, a key holds it or nothing, and holds it exactly if it has not been deleted since the last commit |
| `Uploads.StoreAllHash` | crates/marmotte-core/src/db/entries.rs:136-202 | after any number of commits a key holds the file that was uploaded to it, and other keys what they held |
| `Uploads.RetriesOnlyTouch` | crates/marmotte-core/src/db/entries.rs:157-166 | repeated PUTs of one file leave the tables of a single PUT except for the access time |
| `Uploads.CommitsCountOnce` | crates/marmotte-cli/src/commands/push.rs:170-195 | in any number and order, commits of the same files give the same mapping and the same blob rows with the same refcounts |
| `Push.Totals` | crates/marmotte-cli/src/commands/push.rs:78-108 | pushed + skipped + failed = total, and the exit code is 0 exactly when nothing failed |
| `Push.RanEarns` | crates/marmotte-cli/src/commands/push.rs:84-168 | from the contract of `PushOne`: a task that did not fail has its file committed or found |
| `Push.SecondPushSkipsAll` | crates/marmotte-cli/src/commands/push.rs:84-168 | from the contracts of the tasks alone: however they interleave, after a push without failures every file is at its key and a second push skips all |

## Left out

- SHA-256, Argon2, base64 and JSON: a digest is a free constructor over its bytes, so equal digests mean equal bytes; the cursor codec round-trips, and text that does not decode is one value.
- SQL and SQLite internals: a transaction is one atomic step that succeeds or leaves no trace; failures of the database itself occur only where authentication reports them, and as sweeps that stop anywhere (`Protocol.Stop`).
- Integer widths: sizes, times and counters are unbounded.
- Clocks: each operation is given its time; times are monotone in `AuthRuns` only.
- Blob creation times, statistics counters, the audit log, metrics, key and token management, role checks on routes and project name checks.
- The soft trigger after a PUT and the scheduler: when a sweep starts is left open, so every start is covered.
- The `running` mutex appears as a single collector with one position.
- Project names and their uniqueness in `Tables`; `VerifyCache` has them.
- Transaction order within the TTL phase is arbitrary here, which covers the order SQLite returns.
- The sharded directory layout and hexadecimal file names: files are keyed by digest, and the scan sees each once.
- A directory entry lost on power failure after a rename, which the code does not sync: `StorageRuns.Crash` may lose names, and `StorageRuns.BlobsPersist` is about blobs that keep theirs; `Protocol.Crash` loses none.
- Cursors reused under a different sort field or order.
- Collation and UTF-8: text is ordered by code unit, and LIKE folds ASCII letters only.
- Renames and unlinks are one step each. `Protocol` starts an upload at its existence check; `StorageRuns` has the steps before it.
- Moka internals: expiry is by insert time and any slot may vanish at any moment.
- A file that changes while it is being pushed, and directory walking in the client; the downloads route accepts only a single path segment, so nested files pushed there fail at HEAD or PUT.
- Serving.AlwaysSafe: assumes that no upload past its existence check relies on a blob in the current cleanup batch and that none is in flight during an orphan scan; without it the statement is false, see `Races.CleanupRace` and `Races.ScanRace`.
- Push.PushOne: while the push runs others may commit any files, to the same key only the same contents, and delete any entries; deleting the project during the push is not modelled.
- Push.SecondPushSkipsAll: assumes that nothing is deleted during the first push or between the two; with deletions `Push.HappenAllHash` says what each key holds.
- SweepRuns.SweepIsRun: cleanup is taken as one batch in which every unlink succeeds; the batches and failing unlinks are in `Gc.GcSvc.CleanupBlobs`.
- GcTheory.OneSweepSuffices: a condition on the tables before the sweep; the exact condition is `GcExactness.SweepSettlesIff`.
- Paging.RepeatedIffJumps: for sort values that move both ways, such as sizes under overwrites, only `Paging.EmittedAtIff` applies.
