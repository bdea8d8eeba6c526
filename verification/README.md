# Phantom-brain: a verified model of its protocols and canonical forms

Phantom-brain keeps an agent's memory. Postgres is the system of record; a search index is a
projection of it, fed by jobs that commit with each row change. Agents write through a local
queue, run as "brains" with a manifest and a lock on disk, and can have slices of their records
materialised as Markdown directories ("marts"). This project models the parts of that system whose
correctness spans several operations or processes, and proves what holds of every run and every
input. Where the code's own comments promise more than the code does, the model follows the code,
a lemma shows the input or the run that breaks the promise, and another gives the exact condition
under which it is kept.

`dafny verify dfyconfig.toml` checks everything.

| module | what it models |
|---|---|
| `VersionedIndex` | versioned puts and deletes in the search index |
| `Outbox`, `Convergence`, `RecordHistory`, `SystemOfRecord` | row changes and jobs in one transaction, concurrent workers, and when the index converges to the rows |
| `Reconciler` | the periodic diff of record and document hashes and its repairs |
| `ChangeFeed` | the paged record listing and its two keyset orders |
| `MartDisk`, `Mart`, `MartFaults`, `MartMoving`, `MartSync`, `MartTool` | mart directories: ownership, full Build, what a Build leaves, cut short anywhere and while the table moves, incremental Sync |
| `Shutdown`, `ShutdownAccount` | one process: heartbeat, drainer, checkpoints and Shutdown under one mutex, and what an observer can tell of it |
| `Recovery`, `Paths`, `GcBrains`, `BrainRuns` | the crash sweep, garbage collection, and whole lives of brain directories |
| `WriteQueue`, `StagedBlobs`, `Drainer`, `DrainerRuns`, `DrainerRefinement` | the write-ahead queue, its staged attachment bytes, a drain pass, several processes draining at once, and why the last are runs of the first |
| `Text`, `LineText`, `Canonical`, `YamlSort` | canonical text, the basis of content identity, and recursive key sorting |
| `Names`, `Filenames`, `Fusion` | slugs, note and document names, attachment names, and reciprocal rank fusion |
| `Options`, `BrainStatus`, `Sorting` | shared vocabulary: optional values, a brain's status, stable sorting and its uniqueness |

## How it is modelled

- Concurrent protocols are deterministic step functions `Step(state, label)`; a run is a sequence
  of labels, so a theorem about all runs covers every interleaving, crash and redelivery the labels
  can express. Code that changes state in one process is also given as classes and methods with
  loops, each proved equal to the function the theorems speak of.
- The index obeys `external_gte`: a put is rejected exactly when a strictly newer version is
  stored, and a deleted document leaves no version behind. An unversioned put is given the stored
  version plus one.
- `updated_at` is `now()`, the start of the transaction (migrations/0001_records.up.sql:14-19), so
  it need not follow commit order. Results that need an advancing clock say so (`ClockAdvances`,
  `Advance`), and `Convergence.EqualOrBackwardClockDiverges` and `MartSync.LateRowNeverWritten`
  show that they do need it. Jobs are redelivered until done.
- Rows also change outside the outbox: SetExtractedText and BumpSynthFailure update a record, and so
  its `updated_at`, with no job (internal/server/synth_queue.go:603 and :993). They are the `Touch`
  step.
- In the queue every look and every change is a step of its own: opening a blob's file empties it,
  Delete reads its row's path before it deletes the row and unlinks after, and Cleanup lists the blobs
  before it reads the rows and unlinks later still.
- A drain pass is given twice: as one sequential function, for what a pass alone does
  (`Drainer`), and as separate select, dispatch and settle steps that go by the copies read, with
  other processes' steps in between (`DrainerRuns`); `DrainerRuns.AloneIsPass` says that the second
  is the first when nothing comes in between.
- Mart file operations fail after any number of successes. A failing write may leave part of its
  text, a failing RemoveAll any of the entries. Nothing is done after a failure, so a failed run is
  also a run cut short. The table seen by each page query is given separately, so commits between
  two pages of one Sync or Build are covered.
- Rendering, index.md's text, lower-casing of non-ASCII text, YAML parsing and emission, and the
  outcome of network calls are parameters. Each result states the few laws it uses: `ListLaw`
  (ReadDir lists what is there), `LowerLaw`, and `YamlLaw` (re-rendered YAML ends in a newline,
  contains no closing delimiter line and renders to itself).
- SanitizeText and time parsing are taken as given: fields hold what the columns hold.
- A sweep and a gc-brains run read one clock and one set of held locks.

## Findings

- A forgotten record can come back, a re-ingested one can vanish from the index, and an update outside
  the outbox can stay unindexed, extracted text included; these are the only three ways the
  modelled steps can leave a drained index wrong at a key when the clock advances. The reconciler
  compares presence, not versions, so it repairs the first two unless an old document is left under
  the key, and never the third.
- The reconciler takes the document of a record it did not scan for an orphan: of rows beyond the
  100000 it reads (internal/server/reconciler.go:204-228 and :246), and of a record written between
  its two scans.
- Enqueueing an attachment a second time empties and then unlinks the file of the row that is still
  waiting (internal/brain/wqueue/wqueue.go:248 and :265-268). A Cleanup, on a fresh or an old listing, a
  Delete, a second Delete of the same row or a failed Enqueue racing an Enqueue can unlink it too.
- A drainer tests the attempt cap on the copy it read (internal/brain/drainer.go:92), so another
  sender's attempt meanwhile can leave a row alive at the cap. A batch that outlasts the claim, or an
  attempt by another sender, which releases the claim, lets two drainers dispatch a row that had one
  try left.
- gc-brains joins the manifest's id to the root: a copied directory takes the original, and an
  empty id or ".." takes the whole root (cmd/pbrainctl/gc_brains.go:359).
- A brain can be marked dead and deleted in the same sweep, contrary to
  internal/brain/recovery.go:217-220, and a newborn without its marker is marked dead.
- A brain left in shutting_down is never reclaimed unless it is rebound.
- An ephemeral Build cut short after its wipe, and any Build that tears a note, can lose notes that
  no Sync restores; an interrupted wipe that lost the marker first leaves a directory the mart itself
  refuses.
- The heartbeat's manifest rewrite can overwrite a checkpoint's stamp: exactly when it holds a copy
  read before the checkpoint's write and then writes it.
- The file name normaliser drops a colon, which internal/canonicalize/filename.go:69-73 says becomes an
  underscore.
- Canonicalize is not idempotent on every text (internal/canonicalize/canonicalize.go:28-29), and
  the body-only form of an empty body is a newline, not the empty string
  (internal/canonicalize/canonicalize.go:99-100).

## Model

| member | source | states |
|---|---|---|
| `VersionedIndex.HighestVersionWins` | internal/osearch/upsert.go:75-126 | for any versioned deliveries to one document with one document per version, in any order and number, the highest version is what stays |
| `VersionedIndex.DeliveryOrderIrrelevant` | internal/osearch/upsert.go:75-126 | two delivery sequences with the same documents leave the same index, however ordered or repeated |
| `VersionedIndex.StoredVersionNeverDrops` | internal/osearch/upsert.go:84-126 | along any deliveries the stored version never goes down |
| `VersionedIndex.PutAllFrame` | internal/osearch/upsert.go:84-126 | deliveries to one document leave every other alone |
| `VersionedIndex.SearchIndex.PutDocVersioned` | internal/osearch/upsert.go:84-126 | conflict exactly when a newer version is stored, and then nothing changes |
| `VersionedIndex.DeleteForgetsDeliveries` | internal/osearch/upsert.go:75-255 | a delete wipes the version fence: deliveries after it leave the index they would have left had nothing been delivered before, so a stale one is accepted |
| `Outbox.StepKeepsInv` | internal/projection/projection.go:119-154 | every commit with or without a job, load, apply, finish and crash keeps: each commit that enqueued is settled or still has its job, each forget likewise, workers hold rows that were committed, and the index is the replay of the writes it received |
| `Outbox.RunKeepsInv` | internal/projection/river.go:118-174 | that invariant at every state of every run |
| `Outbox.VersionFallsBack` | internal/osproject/projector.go:152-167 | a row without updated_at is put under its created_at, and one with neither is put whatever is stored |
| `Convergence.ExactlyWhenInSync` | internal/osproject/projector.go:104-167 | at every moment a present key is indexed right if and only if its current row was put with no delete after, and an absent key if and only if every put was followed by a delete |
| `Convergence.ConvergesUnlessInterleaved` | internal/projection/projection.go:119-154 | with no job or worker left, a key differs only if a row read before a forget was put after its delete job, or a re-inserted row was put before an earlier forget's delete job, or an update outside the outbox was never read; in the last case it always differs |
| `Convergence.UnreadTouchIsStale` | internal/server/synth_queue.go:991-995 | at every moment a key whose update outside the outbox no put has read since is not in sync |
| `Convergence.DrainedInSyncExactly` | internal/projection/river.go:118-174 | without forgets a drained key is in sync if and only if, after each update outside the outbox, a row read since was put |
| `Convergence.DrainedIndexIsRendering` | internal/projection/river.go:118-174 | without forgets the drained index is exactly the rendering of the rows at their versions if and only if no key has an unread update outside the outbox |
| `Convergence.IndexedOrOutstanding` | internal/server/dual_write.go:180-278 | without forgets, at every moment each row is indexed at its current version, or has an upsert job whose readers all hold that version, or was changed outside the outbox and not read since |
| `Convergence.EveryRunCanDrain` | internal/projection/river.go:118-174 | from every state of every run the workers alone can finish all jobs, leaving the rows as they are |
| `Convergence.ForgottenRecordReturns` | internal/server/handlers_reflect.go:78-123 | for every key and content a run that drains and leaves a forgotten record in the index |
| `Convergence.ReingestedRecordVanishes` | internal/osproject/projector.go:171-177 | for every key and contents a run that drains and leaves a present record out of the index |
| `Convergence.EqualOrBackwardClockDiverges` | internal/osproject/projector.go:152-167 | whenever a later commit's timestamp is not greater, a run without forgets that drains on the older content |
| `Convergence.ExtractedTextUnindexed` | internal/server/synth_queue.go:985-996 | for every key, content and text a forget-free run that drains with an advancing clock and whose index has the old version and no extracted text |
| `RecordHistory.RecordTellsItsHistory` | internal/pgstore/queries/records.sql:4-127 | in every run a record exists exactly if written since its last forget; title and raw text are that first write's, derived fields the last synth's, the vector the first one a write brought until a synth replaced it, extracted text the last update's, the timestamps those of the first write and of the last change with or without a job |
| `RecordHistory.EmbeddingKept` | internal/pgstore/queries/records.sql:8-10 | however often it is ingested again a record keeps its embedding until a synth replaces it |
| `RecordHistory.SearchShowsHistory` | internal/osproject/projector.go:104-167 | without forgets, and unless an update outside the outbox was left unread, the drained index has a document for exactly the keys written, under the row's id, showing the first write's title, the last synth's fields, the record's vector or none, the last extracted text and the last change's time, at that version |
| `SystemOfRecord.UpsertEntities` | internal/server/dual_write.go:233-260 | the entity loop, in any map order, leaves for every non-empty slug a row with its name, or the slug for an empty name, and a link to the record, and every other row and link as it was |
| `SystemOfRecord.Store.WriteRecordAndEnqueue` | internal/projection/river.go:118-174 | row and job commit together or nothing changes, whichever statement fails |
| `SystemOfRecord.Store.WriteSynthResult` | internal/server/dual_write.go:180-278 | row update, entities, links and job land together or not at all |
| `SystemOfRecord.Store.HandleForget` | internal/server/handlers_reflect.go:78-123 | row delete and delete job land together; an absent key is an honest negative |
| `SystemOfRecord.Store.TouchRecord` | internal/pgstore/queries/records.sql:89-127 | an update outside the outbox changes the row and its timestamp and enqueues nothing; a record that is gone is not an error |
| `SystemOfRecord.Store.Work` | internal/projection/projection.go:119-154 | one job run alone is the machine's load and apply; a version conflict is success |
| `Reconciler.ScanRowsStill` | internal/server/reconciler.go:204-228 | on rows that stand still the paged scan sees exactly the oldest ones up to the cap |
| `Reconciler.ScansSeeAll` | internal/server/reconciler.go:204-245 | rows and documents that stand still and are within the cap are all seen |
| `Reconciler.RepairExactly` | internal/server/reconciler.go:248-304 | what the two repair loops, with their shared budget and whatever fails, leave of each key |
| `Reconciler.LiveDocsKeptExactly` | internal/server/reconciler.go:204-304 | a cycle that completes its repairs keeps the documents of all records if and only if every scanned document of a record had its record scanned |
| `Reconciler.SeenRecordsKept` | internal/server/reconciler.go:204-304 | under that condition no cycle deletes a record's document, whatever fails and whatever the budget |
| `Reconciler.StillCycleKeepsExactly` | internal/server/reconciler.go:204-304 | on rows that stand still that is so if and only if no scanned document's row is beyond the cap |
| `Reconciler.WithinCapKept` | internal/server/reconciler.go:69-75 | with at most 100000 rows that stand still no cycle deletes a record's document |
| `Reconciler.LateRecordDeleted` | internal/server/reconciler.go:204-304 | a record committed after the rows were scanned and projected before the documents were has its document deleted |
| `Reconciler.RepairsPresenceOnly` | internal/server/reconciler.go:246-304 | a cycle that sees everything leaves documents for exactly the records, and brings a key into sync if and only if it was in sync, missing or an orphan |
| `Reconciler.ReconciledRun` | internal/server/reconciler.go:246-304 | after every run of the outbox such a cycle leaves a key out of sync exactly if its record's document was there and out of sync; without forgets, once drained, exactly at unread updates made outside the outbox |
| `Reconciler.DriftAfterCycle` | internal/server/reconciler.go:77-81 | a cycle that sees both sides whole and meets no failure lowers the number of missing and orphaned keys by its repair cap, to zero |
| `Reconciler.DriftAfterDaemonCycle` | internal/server/reconciler.go:77-81 | with the daemon's caps that is five thousand |
| `Reconciler.DaemonPages` | internal/server/reconciler.go:69-86 | the daemon lists a thousand rows at a time and a hundred thousand in all |
| `Reconciler.CyclesRepairAll` | internal/server/reconciler.go:170-188 | however large the drift, enough such cycles over rows that stand still end with documents for exactly the records |
| `Reconciler.DriftBalance` | internal/server/reconciler.go:204-304 | the account of any cycle over rows that stand still, however little of either side it sees: drift falls by the missing documents put back and the orphans taken out and rises by the records' documents taken for orphans |
| `Reconciler.Difference` | internal/server/reconciler.go:330-346 | the difference loop lists each key of one scan that is not in the other once |
| `Reconciler.ScanRowPages` | internal/server/reconciler.go:204-228 | the keyset loop with its shrinking last page |
| `Reconciler.ScrollDocs` | internal/server/reconciler.go:229-245 | the scroll stops at the cap |
| `Reconciler.Projection.ReconcileBinding` | internal/server/reconciler.go:197-322 | scan, scroll, diff, re-project and delete in place; a failed row listing or scroll changes nothing |
| `ChangeFeed.SelectedMeaning` | internal/pgstore/queries/records.sql:129-176 | a query's rows are exactly the matching ones strictly after the cursor |
| `ChangeFeed.ListedMeaning` | internal/pgstore/queries/records.sql:129-176 | a listing is those rows, in strictly increasing key order |
| `ChangeFeed.ListedById` | internal/pgstore/queries/records.sql:143-154 | column by column: a request gets rows with the synth flag asked for and, in each column given, a value asked for, with ids above the cursor and rising, at most the limit and five hundred; a row that qualifies is left out only if the page is full of rows before it |
| `ChangeFeed.ListedBySince` | internal/pgstore/queries/records.sql:165-176 | the same for a request with since, by time of update and then id |
| `ChangeFeed.NextCursors` | internal/server/handlers_records.go:86-250 | the next cursors are the last row's, on an id page only if it is full; only a negative cursor or a limit that is not positive is refused |
| `ChangeFeed.NarrowedListing` | internal/pgstore/queries/records.sql:129-176 | in either order and from any cursor, narrowing a filter drops rows from the listing and moves none |
| `ChangeFeed.PageThenRest` | internal/server/handlers_records.go:235-250 | resuming after the last row of a page continues exactly where it stopped |
| `ChangeFeed.FullIdPage` | internal/server/handlers_records.go:246-250 | a full id page's next cursor advances and the rest of the listing is what follows it |
| `ChangeFeed.EnumerateIsListing` | internal/mart/build.go:183-226 | paging an unchanging table by id visits every matching row exactly once, for every page size |
| `MartDisk.OwnershipExactly` | internal/mart/build.go:366-391 | a destination is refused, untouched, if and only if it has something in it and no .pbrain-mart, or is not a directory; otherwise it ends up with one |
| `MartDisk.Prepared` | internal/mart/build.go:396-412 | a Build starts from the directory as it was, or an empty one, plus the marker |
| `MartDisk.InterruptedWipe` | internal/mart/build.go:399-407 | a wipe cut short leaves a directory that will be refused if and only if something survived and the marker did not |
| `MartDisk.SweptFiles` | internal/mart/build.go:261-287 | a sweep removes exactly the listed .md files that were not written, besides index.md |
| `Mart.NameIsNote` | internal/mart/render.go:119-142 | a note's name is a slug of at most sixty characters, a dash, twelve characters of the hash and .md, and neither index.md nor the marker |
| `Mart.NamesAreOk` | internal/mart/render.go:119-142 | rows of one table have pairwise different note names |
| `Mart.BuildPagesAll` | internal/mart/build.go:183-226 | Build's loop writes exactly the id listing, whatever the page size |
| `Mart.BuildMirrorsTable` | internal/mart/build.go:158-254 | a Build that succeeds on a still table leaves exactly the matching rows' notes as top-level .md files besides index.md and keeps every other top-level file of a non-ephemeral mart |
| `Mart.BuildPublishes` | internal/mart/build.go:158-254 | column by column and file by file: a Build that succeeds leaves a note for every row that qualifies, no other .md file besides index.md, the index, and every file that is not .md as it was unless the mart is ephemeral |
| `Mart.MirrorUnique` | internal/mart/build.go:158-254 | there is only one such set of notes |
| `MartMoving.StayingRowsOnDisk` | internal/mart/build.go:158-254 | however the table changes between pages, a Build that succeeds has on disk the rendering of every matching row that was there unchanged on each page |
| `MartMoving.NotesWereSeen` | internal/mart/build.go:158-254 | and every note it leaves bears the name of a matching row that some page saw |
| `MartFaults.WrittenExactly` | internal/mart/build.go:188-221 | what is under a row's name after a page loop: its text if written, the torn text if its write was the one that failed, else what was there |
| `MartMoving.PagesWriteBrought` | internal/mart/build.go:183-226 | Build's loop, cut short or not and whatever each page sees, has written the rows its page requests brought, up to the first failed write |
| `MartMoving.BroughtStill` | internal/mart/build.go:183-226 | on a table that stands still the pages bring its listing, as far as they go |
| `MartMoving.BuildNoteExactly` | internal/mart/build.go:158-254 | for every number of page requests and successful operations, every fault and whatever is committed meanwhile, exactly what a Build leaves under the name of each matching row that is there unchanged on every page |
| `MartSync.PageComplete` | internal/mart/sync.go:54-101 | a change-feed page holds exactly the matching rows after the cursor up to its next cursor; a short page leaves none beyond |
| `MartSync.SyncGood` | internal/mart/sync.go:34-107 | a Sync, failing anywhere or not, keeps what its cursor covers while the table moves on between pages; a successful one covers all its last query saw |
| `MartSync.SyncWritesIndex` | internal/mart/sync.go:34-107 | a Sync that succeeds has written index.md and left alone every file that no row is named after |
| `MartSync.BuildKeepsExactly` | internal/mart/build.go:158-254 | a Build, cut short anywhere and with commits between its pages, keeps what the cursor covers if and only if it could not claim the directory, or its failed wipe spared the covered notes, or nothing was covered, or each covered row it did not reach was not wiped and not torn |
| `MartSync.CompletedBuildSpares` | internal/mart/build.go:158-254 | a Build that succeeds meets that condition, though commits land while it pages |
| `MartSync.CursorInvariant` | internal/mart/sync.go:34-107 | with advancing feed keys, after any sequence of commits, failed or successful Syncs, and Builds that complete or spare what is covered, with commits between the pages of either, every matching row at or below the saved cursor has its current rendering on disk |
| `MartSync.SuccessfulSyncCovers` | internal/mart/sync.go:91-107 | after a successful Sync every matching row of its last page query is at or below the cursor, and on disk if still current |
| `MartSync.LateRowNeverWritten` | internal/mart/sync.go:54-101 | a row that appears at or below the saved cursor keeps whatever its name had on disk, or nothing, through any number of later Syncs |
| `MartSync.FailedRebuildLosesNotes` | internal/mart/build.go:183-407 | every Build that does not meet that condition leaves a covered row without its rendering, and no later Sync brings it back |
| `MartSync.FirstSyncMirrorsTable` | internal/mart/sync.go:34-107 | a first Sync into a directory without notes leaves exactly the matching rows' notes |
| `MartSync.BuildAgreesWithSync` | internal/mart/sync.go:91-101 | Build, and Sync from the zero cursor, leave the same notes |
| `MartSync.ForeignNeverChanged` | internal/mart/build.go:361-412 | over every sequence of Builds and Syncs, cut short anywhere, a non-empty unmarked directory is never changed |
| `MartSync.InterruptedWipeWedges` | internal/mart/build.go:361-412 | after such an interrupted wipe no later call changes the directory |
| `MartTool.Directory.WritePage` | internal/mart/build.go:188-221 | writing a page note by note, stopping at the first failure |
| `MartTool.Directory.SweepOrphans` | internal/mart/build.go:261-287 | the sweep loop |
| `MartTool.Directory.BuildAllPages` | internal/mart/build.go:183-226 | Build's page loop and the list of what it wrote |
| `MartTool.Directory.RunBuild` | internal/mart/build.go:158-254 | Build in place is the function the theorems speak of |
| `MartTool.Directory.SyncAllPages` | internal/mart/sync.go:49-101 | Sync's page loop and cursor advance |
| `MartTool.Directory.RunSync` | internal/mart/sync.go:34-107 | Sync in place; a failed one returns the cursor it was given |
| `Shutdown.StepKeepsInv` | internal/brain/lifecycle.go:246-409 | every step of every goroutine and call keeps mutual exclusion, stop-before-wait order, no stale copies after close, and the write count |
| `Shutdown.RunKeepsInv` | internal/brain/lifecycle.go:246-409 | that invariant in every interleaving |
| `Shutdown.DeathOnceAndLast` | internal/brain/lifecycle.go:349-409 | Death begins at most once, only after the heartbeat, drainer and checkpointer ended and the lock was released |
| `Shutdown.OnlyDeathWrites` | internal/brain/death.go:60-75 | once Death has begun only its call changes the manifest |
| `Shutdown.DeadIsNeverOverwritten` | internal/brain/heartbeat.go:133-200 | once the manifest says dead no continuation changes it |
| `Shutdown.OneSuccessfulShutdown` | internal/brain/lifecycle.go:349-409 | a returned call reports success if and only if it is the one that closed and the manifest says dead |
| `Shutdown.WritesConserved` | internal/brain/lifecycle.go:246-280 | recorded writes are neither lost nor counted twice |
| `ShutdownAccount.CounterTellsCheckpoints` | internal/brain/lifecycle.go:225-280 | in every run the counter is the number of RecordWrite calls less the counts read at those ticks whose checkpoint wrote the manifest before it returned |
| `ShutdownAccount.CheckpointStamps` | internal/brain/checkpoint.go:67-124 | a checkpoint writes the manifest it read, changed in nothing but its stamp, which is the time it read it |
| `ShutdownAccount.DeathChangesOnlyStatus` | internal/brain/death.go:60-82 | Death changes nothing in the manifest but the status |
| `ShutdownAccount.GoroutinesRunUntilTold` | internal/brain/lifecycle.go:349-409 | a goroutine that was started ends only after its context was cancelled, by the parent or by a Shutdown that has closed the process |
| `Shutdown.NoCycleOfWaits` | internal/brain/lifecycle.go:317-409 | after every interleaving every Shutdown call can still be brought to return |
| `Shutdown.StampSurvivesExactly` | internal/brain/heartbeat.go:159-178 | along every run up to the next manifest write by a checkpoint or Death, a completed checkpoint's stamp is on disk if and only if the heartbeat held no copy with another stamp at that write or has not written it |
| `Shutdown.HeartbeatCanLoseCheckpoint` | internal/brain/heartbeat.go:159-178 | from every start a run in which a completed checkpoint's stamp is overwritten |
| `Recovery.LiveBrainUntouched` | internal/brain/recovery.go:140-187 | an alive same-boot brain with its marker and a held lock, live pid or fresh heartbeat is left as it is |
| `Recovery.MarkedExactly` | internal/brain/recovery.go:110-206 | an alive brain is marked dead if and only if it is of another boot, has no marker, or is unlocked with its process gone and its heartbeat stale or unreadable, and its manifest can be written |
| `Recovery.SkippedExactly` | internal/brain/recovery.go:110-206 | the reason a brain was passed over, each as an iff on manifest, lock, pid and heartbeat |
| `Recovery.OnlyAgedDeadDeleted` | internal/brain/gc.go:25-60 | what a sweep deletes is dead, at least retention old, lockable and not the sweeper |
| `Recovery.DeadDeletedExactly` | internal/brain/gc.go:25-60 | a brain found dead is deleted if and only if it is not the sweeper's, collection is on, it has been silent for the retention by heartbeat or else by the manifest's time, and lock and files can be had |
| `Recovery.SurvivorsChangeOnlyToDead` | internal/brain/recovery.go:110-206 | the only other change is alive to dead |
| `Recovery.SweepIsFixpoint` | internal/brain/recovery.go:69-72 | repeating a sweep in the same environment changes nothing |
| `Recovery.DeletedInSameSweepExactly` | internal/brain/recovery.go:217-303 | a brain found alive is deleted in that sweep if and only if it is marked, its heartbeat parses and reached retention, and lock and directory can be had |
| `Recovery.CrashedBrainGoneAtOnce` | internal/brain/recovery.go:217-220 | a concrete brain marked and deleted in one sweep |
| `Recovery.NewbornIsCondemned` | internal/brain/recovery.go:150-163 | a brain without its marker is marked dead whatever its process and heartbeat |
| `Recovery.MarkLoop` | internal/brain/recovery.go:110-206 | the first loop: every inspected directory is marked or skipped, never both, each with the reason |
| `Recovery.GcLoop` | internal/brain/recovery.go:226-303 | the second loop deletes exactly the collectable directories |
| `Recovery.Recover` | internal/brain/recovery.go:73-214 | the whole sweep: inspected is the disjoint union of marked and skipped, deleted is what is gone |
| `GcBrains.DeletesExactlyClassified` | cmd/pbrainctl/gc_brains.go:267-393 | if every manifest's id joins to its own directory, exactly the classified, lockable, removable directories go |
| `GcBrains.GoneExactly` | cmd/pbrainctl/gc_brains.go:283-421 | by manifest, clock and environment: the current brain, an unreadable one and one in shutting_down stay; a dead one goes if and only if collection is on, it has been silent for the retention and lock and files can be had; an alive one only if asked for, silent that long, its process gone, and lock and files can be had |
| `GcBrains.OnlyClassifiedGoExactly` | cmd/pbrainctl/gc_brains.go:355-393 | for any manifests and contents, no unclassified directory is deleted or has something removed from within if and only if no classified manifest's id, joined and cleaned, reaches one: by name, by a path that is there inside it, or from above |
| `GcBrains.RunReachesExactly` | cmd/pbrainctl/gc_brains.go:355-393 | a directory is left whole, and then unchanged, if and only if no classified manifest's id reaches it |
| `GcBrains.CopiedDirTakesOriginal` | cmd/pbrainctl/gc_brains.go:359-382 | a classified directory whose manifest names another takes that one |
| `GcBrains.IdAboveTakesAll` | cmd/pbrainctl/gc_brains.go:359-382 | a classified manifest whose id joins to the root or above it takes every removable brain, unless that path is locked or stuck |
| `GcBrains.EmptyIdTakesAll` | cmd/pbrainctl/gc_brains.go:359-382 | a classified manifest with an empty id or any number of steps up takes every removable brain, if nothing at or above the root is locked or stuck |
| `GcBrains.BittenIsLost` | cmd/pbrainctl/gc_brains.go:359-382 | an id that points inside another brain can take its manifest, after which no sweep reads it, or its marker, after which the next sweep marks it dead |
| `Paths.JoinPlain` | cmd/pbrainctl/gc_brains.go:359 | a name without slashes and dots of its own joins to that entry |
| `Paths.JoinUp` | cmd/pbrainctl/gc_brains.go:359 | ".." joins to the directory above |
| `Paths.JoinSlash` | cmd/pbrainctl/gc_brains.go:359 | a trailing slash changes nothing |
| `Paths.JoinDot` | cmd/pbrainctl/gc_brains.go:359 | a dot, alone or before a name, changes nothing |
| `GcBrains.Classify` | cmd/pbrainctl/gc_brains.go:283-345 | the classify loop |
| `GcBrains.RunGcBrains` | cmd/pbrainctl/gc_brains.go:267-393 | classify, sort by id, then delete unless it is a dry run |
| `BrainRuns.RunKeepsNames` | internal/brain/birth.go:77-202 | over every run of births under any id, rebinds, touches, checkpoints, deaths, crashes, sweeps and gc-brains each manifest's id joins to its directory |
| `BrainRuns.GcOnlyClassified` | cmd/pbrainctl/gc_brains.go:311-393 | hence after any such run gc-brains deletes only directories it classified |
| `BrainRuns.DeadStaysDead` | internal/brain/birth.go:181-184 | dead is final until the directory is deleted |
| `BrainRuns.ShuttingDownForever` | internal/brain/death.go:64-75 | a brain whose process vanished between the two death writes stays in shutting_down until someone rebinds it |
| `BrainRuns.CrashedWhileDying` | internal/brain/death.go:64-75 | so does one whose process crashes there, through every later run without a rebind |
| `BrainRuns.RebindRescues` | internal/brain/birth.go:181-202 | a rebind makes it alive under its id, and the next sweep takes it exactly by the new process, heartbeat and boot |
| `BrainRuns.NewbornSwept` | internal/brain/birth.go:145-170 | a newborn is alive, and the next sweep takes it exactly by what it wrote |
| `BrainRuns.TouchedSwept` | internal/brain/heartbeat.go:159-178 | a heartbeat renews that and the marker |
| `BrainRuns.DiedSwept` | internal/brain/death.go:60-82 | a brain that dies in peace is dead under its last heartbeat, and the next sweep takes it exactly at the retention |
| `BrainRuns.CheckpointBreaksSilence` | internal/brain/checkpoint.go:112-118 | a checkpoint counts as a sign of life only where there is no heartbeat |
| `BrainRuns.BornInTheRoot` | internal/brain/birth.go:116-126 | a birth under an id that joins to the root leaves directories without a manifest as entries |
| `WriteQueue.StepKeepsInv` | internal/brain/wqueue/wqueue.go:231-288 | every queue step keeps unique keys, never-reused ids, acknowledged means arrived, and no accepted write lost |
| `WriteQueue.NoAcceptedWriteLost` | internal/mcp/wqueue_helper.go:44-91 | in every interleaving of attempts, drainers, lost replies and failed deletes an accepted write has arrived or still has a row, live or dead |
| `WriteQueue.RowLeavesOnlyByDelivery` | internal/brain/drainer.go:72-112 | a row leaves the queue only after its write arrived; its attempts never drop and death is final |
| `WriteQueue.ReceiveOnce` | internal/brain/wqueue/wqueue.go:34-36 | a deduplicating receiver applies each arrived key once and only those |
| `WriteQueue.DrainedMeansDelivered` | internal/brain/wqueue/wqueue.go:34-36 | once the queue is empty the receiver holds every accepted write |
| `WriteQueue.Queue.Enqueue` | internal/brain/wqueue/wqueue.go:235-288 | Enqueue returns a queued row of its key and has accepted it, or, if staging, the insert or the lookup failed, changes no row and accepts nothing; the call is a run of the machine |
| `WriteQueue.Queue.EnqueueAndAttempt` | internal/mcp/wqueue_helper.go:44-91 | Posted means arrived and, unless the delete failed, no longer queued; pending means queued with one more attempt if it was recorded; an error means not accepted; the call is a run of the machine |
| `StagedBlobs.InsertSafeExactly` | internal/brain/wqueue/wqueue.go:231-288 | an Enqueue's insert keeps every waiting row's bytes safe if and only if it is not a failed or duplicate one of a path in use, and a new row's bytes are there with no unlink of them pending |
| `StagedBlobs.DeleteSafeExactly` | internal/brain/wqueue/wqueue.go:422-440 | a Delete does if and only if it is not a second one of a row whose path is in use again |
| `StagedBlobs.StepSafeExactly` | internal/brain/wqueue/wqueue.go:231-546 | whatever the step, every waiting row's bytes stay safe if and only if it is calm: such an insert or Delete, the opening of a file no row uses, or any other step |
| `StagedBlobs.CalmRunsExactly` | internal/brain/wqueue/wqueue.go:231-546 | in every interleaving every row has its bytes, with no unlink of them pending, at every moment if and only if every step is calm |
| `StagedBlobs.UnbackedLoses` | internal/brain/wqueue/wqueue.go:231-546 | a row that is not safe has lost its bytes or loses them by one pending unlink |
| `StagedBlobs.CalmRunsKeepBlobs` | internal/brain/wqueue/wqueue.go:231-546 | in every run of calm steps every row keeps its bytes |
| `StagedBlobs.DuplicateEnqueueUnstages` | internal/brain/wqueue/wqueue.go:260-276 | in every state a duplicate Enqueue that is reported accepted ends with the waiting row without bytes |
| `StagedBlobs.CleanupRaceUnstages` | internal/brain/wqueue/wqueue.go:501-546 | a Cleanup looking between staging and insert takes the new row's bytes |
| `StagedBlobs.DeleteRaceUnstages` | internal/brain/wqueue/wqueue.go:422-440 | so does a Delete whose row was enqueued afresh before its unlink |
| `StagedBlobs.FailedInsertRaceUnstages` | internal/brain/wqueue/wqueue.go:260-276 | so does the late unlink of an Enqueue whose insert failed, when the same path was staged and inserted meanwhile |
| `StagedBlobs.FailedStagingTears` | internal/brain/wqueue/wqueue.go:244-251 | an Enqueue that fails while staging leaves a waiting row of its path without its bytes |
| `StagedBlobs.StaleListingUnstages` | internal/brain/wqueue/wqueue.go:501-546 | a Cleanup that listed a blob before a Delete removed it, and read the rows after, unlinks the blob of a row enqueued afresh |
| `StagedBlobs.SecondDeleteUnstages` | internal/brain/wqueue/wqueue.go:422-440 | so does the second of two Deletes of one row |
| `Drainer.EligibleRows` | internal/brain/wqueue/wqueue.go:319-376 | a selection holds distinct live rows, ready at that time, at most the limit |
| `Drainer.ReadyExactly` | internal/brain/wqueue/wqueue.go:386-395 | a live row can be selected if and only if it was never tried or not for min(300, 30 * 2^attempts) seconds, and is not claimed or its claim is older than 300 seconds |
| `Drainer.WaitGrows` | internal/brain/wqueue/wqueue.go:562-576 | the wait is between 30 and 300 seconds and never shrinks as attempts rise |
| `Drainer.SelectedHaveWaited` | internal/brain/wqueue/wqueue.go:319-376 | no selected row is dead, was tried too recently or is claimed |
| `Drainer.WaitedAreSelected` | internal/brain/wqueue/wqueue.go:319-376 | a row of the window that has waited is selected unless the selection is full |
| `Drainer.PassEnds` | internal/brain/drainer.go:62-113 | with nothing in between, every visited row ends gone (exactly if delivered), dead or below the cap, one dispatch cheaper; the others keep attempts and state |
| `Drainer.DeadLetterExactly` | internal/brain/drainer.go:37-105 | with nothing in between, a failing visited row is dead-lettered if and only if it was reached and refused for good or this was its twentieth attempt; else it is one attempt older and unclaimed |
| `Drainer.FiveMinutesIsEnough` | internal/brain/wqueue/wqueue.go:386-395 | five minutes after the last attempt and claim every live row is eligible, whatever its attempts |
| `Drainer.RestedTakesOldest` | internal/brain/wqueue/wqueue.go:319-376 | from a rested queue a pass takes the oldest live rows up to its limit |
| `Drainer.NothingEligibleExactly` | internal/brain/wqueue/wqueue.go:319-376 | a pass selects nothing if and only if the oldest live rows, four times its limit, are all waiting or claimed |
| `Drainer.WaitingRowsBlock` | internal/brain/wqueue/wqueue.go:333-335 | when that window waits, a live row behind it that is ready is not selected |
| `Drainer.PassBudget` | internal/brain/drainer.go:72-112 | no pass raises the queue's budget, and a drainer pass whose results are recorded lowers it by at least the rows it visits |
| `Drainer.VisitsEmptyTheQueue` | cmd/pbrainctl/queue.go:341-363 | for any passes at all, what drainer passes visit is paid from the budget; once as many of them as the budget have visited something no live row is left |
| `Drainer.PassesEmptyTheQueue` | cmd/pbrainctl/queue.go:341-363 | in particular as many rested drainer passes as the budget leave no live row, even with drain-now passes in between |
| `Drainer.DrainNowNeverGivesUp` | cmd/pbrainctl/queue.go:348-361 | a failing row survives any drain-now pass alive |
| `Drainer.Scan` | internal/brain/wqueue/wqueue.go:342-362 | the scan loop picks the first ready rows up to the limit |
| `Drainer.QueueStore.NextEligible` | internal/brain/wqueue/wqueue.go:319-376 | the selection, at most the limit or sixteen, of rows that are alive and have waited, and the claims it leaves |
| `Drainer.CountsAre` | cmd/pbrainctl/queue.go:341-363 | the background drainer counts as sent the rows the daemon took, drain-now those of them it also deleted |
| `DrainerRuns.StepKeepsInv` | internal/brain/drainer.go:62-113 | every select, dispatch, settle, crash, enqueue and other sender's attempt or success keeps the rows ordered and every copy in flight no newer than its row |
| `DrainerRuns.OverCapExactly` | internal/brain/drainer.go:92-105 | a failed dispatch leaves its row alive at or beyond the cap if and only if the failure was transient, the copy read was below the cap and others had raised the row meanwhile |
| `DrainerRuns.RaisedRowOutlivesCap` | internal/brain/drainer.go:92-105 | a run that leaves a row alive with twenty attempts |
| `DrainerRuns.BoundedTogether` | internal/brain/drainer.go:62-113 | along any interleaving, drainers that never carry a row at the same time dispatch one with a attempts at most max(1, 20 - a) times together |
| `DrainerRuns.OneDrainerBounded` | internal/brain/drainer.go:62-113 | one drainer meets that bound whatever the other processes do |
| `DrainerRuns.HeldRowReadyExactly` | internal/brain/wqueue/wqueue.go:314-362 | a row in flight can be selected again if and only if its claim is older than its TTL |
| `DrainerRuns.SeveralDrainersBounded` | internal/brain/wqueue/wqueue.go:314-376 | any number of drainers meet the bound together if no claim outlives its TTL before it is settled and no other sender tries a row in flight |
| `DrainerRuns.ExpiredClaimDispatchesTwice` | internal/brain/wqueue/wqueue.go:314-317 | a run in which a claim expires and two drainers dispatch a row that had one try left |
| `DrainerRuns.ReleasedClaimDispatchesTwice` | internal/mcp/wqueue_helper.go:77-86 | a run in which another sender's attempt releases the claim and they do so within the TTL |
| `DrainerRuns.AloneIsPass` | internal/brain/drainer.go:62-113 | a process left alone during its pass does to the queue what the sequential pass does |
| `DrainerRefinement.StepSimulated` | internal/brain/drainer.go:62-113 | every step of the drainers and the senders beside them is a run of the write-ahead queue |
| `DrainerRefinement.RunSimulated` | internal/brain/drainer.go:62-113 | the images of a run's steps, one after the other, are a run of the write-ahead queue, with the same rows, attempts and dead letters at its end |
| `DrainerRefinement.ArrivedExactly` | internal/brain/drainer.go:62-113 | along those images a write arrives if and only if some step of the drainers' own run is a successful dispatch of its row, by a drainer or another sender |
| `DrainerRefinement.DrainersLoseNothing` | internal/mcp/wqueue_helper.go:44-91 | however many drainers, senders, crashes and expired claims interleave, a row that was enqueued and is no longer queued was delivered: some step of the run is a successful dispatch of it |
| `DrainerRuns.SharedQueue.DrainOnce` | internal/brain/drainer.go:62-113 | the dispatch loop with other processes' steps before each dispatch and settle is a run of the machine; the sent and failed counts go by the copies selected |
| `LineText.JoinOfLines` | internal/canonicalize/canonicalize.go:200-209 | splitting into lines and joining gives the text back |
| `LineText.LinesOfJoin` | internal/canonicalize/canonicalize.go:200-209 | joining lines and splitting gives the lines back |
| `LineText.DropBlankExactly` | internal/canonicalize/canonicalize.go:205-207 | dropping trailing blank lines identifies exactly the texts whose lines agree, blank beyond the end |
| `LineText.StripMeaning` | internal/canonicalize/canonicalize.go:200-204 | stripping takes the spaces and tabs at the end of a line, all of them, and nothing else |
| `Canonical.LineEndingsForgotten` | internal/canonicalize/canonicalize.go:110-114 | a text saved with CRLF or CR line ends normalises to the LF text |
| `Canonical.CanonicalizeBody` | internal/canonicalize/canonicalize.go:200-209 | the line loop computes the canonical body |
| `Canonical.BodyTwice` | internal/canonicalize/canonicalize.go:200-209 | the canonical body is its own canonical body |
| `Canonical.SameBodyExactly` | internal/canonicalize/canonicalize.go:200-209 | two bodies have the same canonical form if and only if their lines agree up to trailing spaces, tabs and blank lines |
| `Canonical.PadsIgnored` | internal/canonicalize/canonicalize.go:200-209 | spaces and tabs at the end of a body change nothing |
| `Canonical.SameBodyFormExactly` | internal/canonicalize/canonicalize.go:101-108 | the same for whole texts after line-ending, frontmatter and leading-newline removal |
| `Canonical.SplitMeaning` | internal/canonicalize/canonicalize.go:116-141 | splitting loses only the fences: the block ends at the first closing line or at one that ends the text; otherwise all is body |
| `Canonical.SplitCanonical` | internal/canonicalize/canonicalize.go:122-141 | a canonical document splits back into its frontmatter and body |
| `Canonical.SplitOfLines` | internal/canonicalize/canonicalize.go:122-141 | a text of whole lines splits at its first closing fence line, and not at all without one |
| `Canonical.SameFormExactly` | internal/canonicalize/canonicalize.go:45-74 | two documents that both have frontmatter, or both have none, get the same form if and only if their frontmatter renders the same and their bodies have the same lines |
| `Canonical.IdempotentExactly` | internal/canonicalize/canonicalize.go:45-74 | for every document: if it has no frontmatter and the stripped lines of its trimmed body open with a fence that a later line closes, canonicalising twice is once if and only if the fenced block renders to itself and what follows is blank or does not open blank; otherwise if and only if the trimmed body does not open with a space-and-tab line |
| `Canonical.BlankTextNotIdempotent` | internal/canonicalize/canonicalize.go:28-29 | any run of spaces and tabs gives a newline and then the empty text |
| `Canonical.NewlyFrontmatter` | internal/canonicalize/canonicalize.go:122-141 | a fenced line behind a newline becomes frontmatter on the second pass and may then be refused |
| `Canonical.FormsAgreeExactly` | internal/canonicalize/canonicalize.go:99-108 | on text without frontmatter the full and body-only forms agree if and only if something is left after the leading newlines |
| `YamlSort.SortThenRecurse` | internal/canonicalize/canonicalize.go:175-196 | sorting pairs and then their values is the same as values first |
| `YamlSort.SortIdempotent` | internal/canonicalize/canonicalize.go:165-198 | sorting is idempotent on every tree |
| `YamlSort.SortKeepsEntries` | internal/canonicalize/canonicalize.go:175-196 | a mapping keeps its pairs, ordered by key text |
| `YamlSort.KeysInOrder` | internal/canonicalize/canonicalize.go:184-186 | in a sorted mapping the scalar and alias keys are in the order of their text, after the keys that have none |
| `Sorting.BeforeMeaning` | internal/canonicalize/canonicalize.go:184-186 | that order is decided at the first place where two texts differ, by the character or by the end of one |
| `YamlSort.CanonicalForm` | internal/canonicalize/canonicalize.go:165-198 | with distinct key texts two trees sort to the same tree if and only if they are equal up to the order of mapping entries at any depth |
| `YamlSort.EqualTextsKeepTheirOrder` | internal/canonicalize/canonicalize.go:184-186 | keys with equal text keep the order they came in, so the form is not canonical for them |
| `Fusion.Fuse` | internal/osearch/recall.go:119-150 | distinct documents in descending score, each the sum of 1/(60 + rank) over the lists containing it, at most topK, none omitted that scores above a returned one |
| `Fusion.BothBeatsSingle` | internal/osearch/recall.go:27-28 | rank 61 or better in both lists strictly outscores every single-list document |
| `Fusion.Rank62OnlyTies` | internal/osearch/recall.go:27-28 | rank 62 in both only ties, so 61 is tight |
| `Names.EntitySlug` | internal/osearch/docs.go:265-289 | the one-pass builder with its prevDash flag computes the slug |
| `Names.SlugCanonical` | internal/osearch/docs.go:265-289 | slugs are exactly the fixed points: [a-z0-9-] with no leading, trailing or doubled dash |
| `Names.SlugKeepsLetters` | internal/osearch/docs.go:265-289 | a slug keeps every letter and digit in order |
| `Names.EntitySlugIdempotent` | internal/osearch/docs.go:265-289 | EntitySlug of its own output changes nothing |
| `Names.EntitySlugKeepsLetters` | internal/osearch/docs.go:265-289 | on ASCII, an entity's slug has the letters and digits of its name, in lower case and in order |
| `Names.SlugJoinsWords` | internal/osearch/docs.go:265-289 | whatever stands between two words, of any length, becomes one dash |
| `Names.NoteSlugIsSlug` | internal/mart/render.go:119-142 | a note's slug is a non-empty slug of at most sixty characters |
| `Names.NoteSlugTells` | internal/mart/render.go:119-142 | on ASCII, a note's slug has the letters and digits of a title that is more than the hash, else of the file's name, all unless it is cut at sixty; untitled stands for none |
| `Names.NoteNamesDistinct` | internal/mart/render.go:119-142 | records with different twelve-character hash prefixes never share a note name, whatever their titles |
| `Names.DocIDInjective` | internal/osearch/docs.go:258-260 | document ids are injective for colon-free profiles and vaults |
| `Names.DocIDCollides` | internal/osearch/docs.go:258-260 | a colon in a vault name makes two tenants share an id |
| `Filenames.FilenameIdempotentExactly` | internal/canonicalize/filename.go:47-83 | on ASCII, normalising twice is once unless, and only unless, the first character the trimmed name's stem keeps is a vertical tab, or it has no extension and the last one is |
| `Filenames.KeptInBase` | internal/canonicalize/filename.go:47-83 | the base holds exactly the kept characters of the stem, lower-cased, in order |
| `Filenames.BaseHasNoneUnwanted` | internal/canonicalize/filename.go:47-83 | a base has no capital, blank, punctuation or character a file system refuses |
| `Filenames.HyphensCloseUp` | internal/canonicalize/filename.go:65-66 | a name is the same however many blanks surround its hyphens |
| `Filenames.SeparatorsBecomeUnderscore` | internal/canonicalize/filename.go:76-82 | between two words any run of blanks and refused characters becomes one underscore |
| `Filenames.PunctuationVanishes` | internal/canonicalize/filename.go:68-74 | punctuation between two words vanishes, the colon with it |
| `Filenames.VerticalTabUnstable` | internal/canonicalize/filename.go:47-83 | a name with a vertical tab that changes on the second pass |
| `Filenames.BaseIsTidy` | internal/canonicalize/filename.go:47-83 | the normalised base holds only tidy characters, without doubled or outer underscores |

## Left out

- HTTP decoding, status codes, tokens, the HTTP client, MinIO, embedding and OCR services: input and output, or libraries that cannot be seen.
- Attachment files under a mart's attachments directory, and the warning or embed appended to their notes: marts are modelled with attachments skipped; the contents of subdirectories are opaque.
- Mart.BuildMirrorsTable: about a table that stands still while Build pages; when it moves, `MartMoving.StayingRowsOnDisk` and `MartMoving.NotesWereSeen` say what is left. Attachments are skipped.
- Mart.NamesAreOk: assumes content hashes in lower-case letters and digits whose twelve leading characters differ between the rows of one table.
- YamlSort.CanonicalForm: models the tree as a value; the source reorders a tree of nodes in place, so aliasing between nodes and update in place are not captured, nor is the parser's choice of tags and styles.
- Canonical.IdempotentExactly: the YAML text round trip is the law `YamlLaw`, not a parser.
- Filenames.FilenameIdempotentExactly: ASCII names only.
- ShutdownAccount.CounterTellsCheckpoints: whether the cadence asks for a checkpoint is a parameter of the step.
- Names.EntitySlugKeepsLetters: ASCII names only, and so is `Names.NoteSlugTells`.
- Fusion.Fuse: exact scores, so floating-point rounding is not modelled; the carried source payload is left out, and so is fusion inside the search engine.
- Names.EntitySlug: lower-casing is a parameter.
- DrainerRuns.BoundedTogether: assumes the queue records each result and that no drainer crashes between a dispatch and its settling; one whose marks fail may dispatch a row again without bound. The same holds of `DrainerRuns.OneDrainerBounded`, `DrainerRuns.SeveralDrainersBounded`, `Drainer.PassBudget` and `Drainer.VisitsEmptyTheQueue`.
- DrainerRuns.SeveralDrainersBounded: the two conditions are sufficient, and a run breaks the bound without either; a run can also break a condition and stay within the bound.
- WriteQueue.NoAcceptedWriteLost: the operator's `queue clear`, which deletes rows and blobs on purpose, is not a step, and two writes with the same kind and hash count as one write.
- StagedBlobs.CalmRunsExactly: a staged path tells its hash, files staged under one path have the same bytes, and a statement that reports an error has changed nothing.
- GcBrains.OnlyClassifiedGoExactly: a path that is locked or cannot be removed is left as it is; a RemoveAll that fails partway through a directory is not modelled.
- Connectivity notices, queue tables and summaries: user interface.
- SHA-256 and time formatting: identity results are about canonical text and integer times.
- Row changes by the backfill, which inserts, marks and then projects directly (internal/backfill/backfill.go:209-253), and by a purge of a whole vault, which deletes rows with no job (internal/pgstore/purge.go:60-78): the results on convergence are about the steps of the running daemon.
- Synth scheduling and River's discarding of exhausted jobs: jobs are taken to be redelivered until done.
- Reconciler.RepairsPresenceOnly: about rows and documents of one binding that stand still during the cycle; the reconciler is not a step of the outbox runs, and a cancelled cycle is one whose remaining repairs fail.
- Reconciler.CyclesRepairAll: a binding beyond the scan cap is not covered, as its cycles can delete live documents (`Reconciler.StillCycleKeepsExactly`); `Reconciler.DriftBalance` says what they do to the drift.
- Config loading, credentials, provisioning, MIME tables and closed-enum checks: they would add only easy members.
