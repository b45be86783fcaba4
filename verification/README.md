# Verification of the staging, publication and sandbox core

A Dafny model of the parts of the agent workspace that must not lose work: the protocol that keeps a host
workspace, a publication baseline and a staging copy of it consistent; the checkpoint store behind every mutation;
and the fast forms of the file tools, each proved to agree with a simple one.

`dafny verify dfyconfig.toml` checks the whole project (Dafny 4.11).

## What is modelled

**The protocol.** Every path has three versions: host H, baseline B, staged S. `Drift` is the three-way rebase,
`Staging` the listing, the pending changes and the batching, `Publication` manifests and receipts, `Broker` the
all-or-nothing host write with its undo, `StateStore` the saved baseline, `Seeding` the first copy, `Service` the
executor object, `Worker` the desktop's publish-then-acknowledge driver, `Convergence` a whole publication of many
batches. Each method is proved against a specification on values. `Protocol` is the state machine they form: the host
is edited freely, the agent mutates staging freely, receipts are delayed, lost or repeated, installs, restores and
saves fail, and the executor stops at any point and restarts. `Driver` runs the real objects and shows every call to be
a step of that machine. `Runs`, `Excuses` and `Recovery` state what holds of every run and exactly where a guarantee stops;
`LateReceipt`, `LostSave` and `LostWork` are concrete runs, built on `OneFile`, that show where.

**The checkpoint store.** `Checkpoints` is the content-addressed store with pruning by count and by bytes;
`ApplyPatch` is the multi-file patch that relies on it.

**Fast forms.** `HashCache` (stat signatures instead of hashing), `ListingRefresh` (refresh instead of a walk),
`StreamEdit`, `Replacing`, `EditMeaning`, `LineEndings` (streamed replacement of bytes instead of replacement in
text), `Paging`, `Utf8` and `Utf8Encoding` (pages instead of the file), `CapturedOutput` (head and tail instead of the
stream), `GitTree`, `GitBase`, `GitIndex` (native git writers, against a reader of the format), `Context` (compacted
conversation), `MessageTree` (imported conversation tree).

Conventions. SHA-256 and SHA-1 are taken as injective: a digest carries the bytes it was computed from. Snapshot ids
are fresh numbers, and the names of checkpoints numbers in the order of the names. A path is identified with its
case-folded name, since seeding and manifests refuse two paths that fold together; names starting `.local-chat-` are
assumed absent, since the walks that seed staging do not hide them while the walk of staging does. These failures are
parameters: host writes, recovery copies and restores; installs into staging; saves of the executor's state; storing,
writing back and removing in the checkpoint store; the receipt, its answer and the request for the next batch; the
ledger; and a stop of the executor between two events, inside a rebase, inside a discard, or inside a start. Other
failures are not part of this model, "Left out" names them.

## Where the code falls short of its promise

Each of these is proved, with a concrete input or an exact condition.

- A receipt moves the recorded digests but keeps the host signatures from before the publication, so a published
  file that the user puts back with its old size and time is not seen by later rebases
  (`PublishedPathIsMissedIff`, `RestoredFileIsOverlooked`). In the same way a published file that carries the size and
  time recorded before the publication is taken for the old one by a rebase that comes before the receipt: the
  publication is not recovered at exactly these paths (`RebaseActsAsReceiptIff`, `LostReceiptIsRecovered`), stays
  pending, and would be refused if it were sent again (`PublicationIsOverlooked`).
- Removing a checkpoint ignores errors, so the pruning loop chooses a directory that does not go away again and again.
  It never ends exactly when eviction, oldest first, reaches such a checkpoint before the budget is met
  (`PruneByBytes`, `StuckMeansCannotFit`, `FitsMeansCanFit`, `SpinningLasts`, `OneStuckCheckpointSuffices`), and then
  the creation of a checkpoint, and the patch that asked for it, do not come back (`Create`, `ApplyPatch`).
- The worker reports, and the ledger records, that the baseline did not advance although it did, exactly when the
  receipt fitted and either the save failed or the answer was lost (`RunPublication`, `RunWorker`). If the save
  succeeded the receipt will not be accepted again (`NoReceiptTwice`), so the entry stays.
- A batch that stops restores the files it has touched without looking at them: an edit made after the operation on a
  file had had its turn is overwritten, and only such an edit (`RestoreDestroysIff`, `EditIsRestoredAway`).
- `mark_published` and `rebase` move the baseline in memory before they save it. When the state volume cannot be
  written the caller gets an error, memory has moved, and the disk lags behind. A restart can then return to a snapshot
  id that had been left (`RetiredIdReturnsIff`), accept a receipt a second time (`ReceiptFitsAgainIff`,
  `SecondAcceptanceNeedsAReturn`, and the run `SameReceiptTwice`), and replace work staged on the newer baseline
  (`RestartReplacesStagedWorkIff`, and the run `StagedWorkIsReplaced`). A discard whose new baseline was not saved is
  repeated by the next restart, which drops everything staged since (`UnsavedDiscardIsRepeated`, and the run
  `DiscardIsRepeated`).
- A `take_host` choice interrupted by a crash is lost, and the conflict closed with the staged file left publishable,
  exactly when the host is back at the baseline's version and the file had not been installed (`InterruptedChoiceIff`,
  `TakenChoiceIsLost`); an interrupted `keep_staged` is overridden exactly when staging held the baseline's version and
  the host's file, another one, can be installed (`InterruptedKeepIff`, `KeptChoiceIsOverridden`).
- The index vouches for a staged file of the recorded size whatever its content, so git takes an edit that keeps the
  size for no edit (`VouchesFalselyIff`, `EqualSizeGoesUnnoticed`); the code's own description promises stat data only
  for files that still match.
- The ledger reads "completed" with batches remaining when the last batch was published while an earlier one was not
  (`CompletedTooSoonIff`, `CompletedWithOneBatchMissing`).
- A receipt that arrives after the user reverted the file and a rebase found nothing to do is still accepted, and
  leaves B different from H with nothing flagged (`AcceptedTooLate`, `AcceptedReceiptSyncsIffHostUnmoved`).
- A crash inside `discard`, between emptying staging and forgetting the baseline, makes the restart show every
  baseline file that is still on the host as a staged deletion (`InterruptedDiscardIsCleanIff`).
- `checkpointed` restores with the module's default limits whatever limits the checkpoint was created with, so under
  the "large-workspace" profile a failing patch can be left half applied (`ApplyPatch`, `LargeStagingIsLeftHalfDone`);
  so can one whose rollback cannot write a file.
- A publication of more than 2000 batches cannot be offered at all, although the batching is fine
  (`NextManifest`, `PublishEverything`: success exactly within the cap).
- The hash cache is exact if and only if file time stamps are no coarser than the racy window
  (`ExactIffWindowCoversGrain`).
- Paging with a limit below four bytes stops at the first character that does not fit (`PagesCoverTheFile`).
- A write or edit that spells its path with `.` or empty segments leaves a wrong refreshed listing
  (`RefreshOfOneWrittenFileIff`).
- An edit translated to a CR LF file can leave a bare line feed, exactly when the replaced string ends in a carriage
  return and the new one does not (`DosFileStaysDosIff`).
- `keep_recent` does not protect a recent tool result whose call is older: call and results go together
  (`BlockGoesTogether`, `RecentMessagesStay`).

## Model

| member | source | states |
|---|---|---|
| `Staging.WorkspaceChanges` | executor/staging.py:382-416 | the walk over both listings yields the specified pending list |
| `Staging.PendingIsExact` | executor/staging.py:382-416 | the pending list is in path order and names a path once if its staged digest or mode is not the baseline's, never otherwise, with both sides |
| `Paths.PrecedesIff` | executor/staging.py:390 | the order of paths: a proper prefix first, otherwise the smaller character where two first differ |
| `Paths.SortedInCodePointOrder` | executor/staging.py:390 | every sorted listing is in that order, position by position |
| `PendingChanges.PendingInCodePointOrder` | executor/staging.py:390-416 | of two pending changes the earlier has the path that comes first in that order |
| `PendingChanges.OfferedPathsIff` | executor/app.py:401-420 | a path is offered if and only if its staged version is not the baseline's, it is not withheld, and it is selected if there is a selection |
| `PendingChanges.SelectionIsKnownIff` | executor/app.py:408-419 | a first selection is accepted exactly when each of its paths is offered |
| `Staging.PublicationBatches` | executor/staging.py:419-448 | the in-place batching loop returns the greedy batches, and fails exactly on a change too large for any batch |
| `Staging.FitIsMaximal` | executor/staging.py:431-446 | a batch respects the operation and the byte limit and cannot take the next change |
| `Staging.GreedyIsPartition` | executor/staging.py:419-448 | the batches are non-empty, within both limits, and concatenate to the pending list in order |
| `Staging.GreedyIsOptimal` | executor/staging.py:419-448 | no cutting of the list into batches within the limits uses fewer batches |
| `Staging.RemainderKeepsBatches` | executor/app.py:381-436 | batching what is left after the first batch gives exactly the other batches, so the announced count holds |
| `Drift.HostFiles` | executor/drift.py:68-108 | the host listing; for a host of regular files it fails exactly over the file or byte limit (links, hard links and special files, refused at lines 77 and 86-88, are left out) |
| `Drift.SeenAt` | executor/drift.py:89-106 | what the listing reports of a file: size, mode and time as they are; as digest the recorded one exactly when size and time are the recorded ones |
| `Drift.ListingExactUnlessStale` | executor/drift.py:68-108 | the listing that trusts unchanged signatures equals a full re-hash if and only if no file is stale |
| `Drift.MergePath` | executor/drift.py:162-183 | the three-way comparison of one path does what the per-path specification says, to tables, conflicts and staging |
| `Drift.RebasePath` | executor/drift.py:147-183 | one round of the loop, with the user's choices; it stops exactly at a `take_host` that cannot be installed |
| `Drift.RebaseAll` | executor/drift.py:137-195 | the loop visits every path of host, baseline and conflicts and leaves every row as specified, or a partly installed staging and an untouched baseline |
| `Drift.Rebase` | executor/drift.py:111-195 | each error's exact cause, and the whole outcome of a rebase; the report lists its paths in path order, each once |
| `DriftTheorems.RebaseSettlesEveryPath` | executor/drift.py:146-195 | afterwards every path has B = H, or is an open conflict in which B and S did not move; and which paths those are |
| `DriftTheorems.RebaseRecords` | executor/drift.py:137-208 | field by field: a conflict holds the path and the baseline's, the host's and the staged digest, each absent where the path is; a settled path holds the host's digest, mode, size and time |
| `DriftTheorems.RebaseKeepsStagedWork` | executor/drift.py:150-185 | staging changes only where it held the baseline's version or the user chose the host's, and then to the host's file; a kept file stays and its baseline moves |
| `DriftTheorems.SameIdSameFiles` | executor/drift.py:184-195 | a rebase that keeps the snapshot id keeps every recorded version, every conflict and every staged file |
| `DriftTheorems.SecondListingIsTheSame` | executor/drift.py:68-108 | listing the host again through the updated signatures sees the same files |
| `DriftTheorems.SecondRebaseIsQuiet` | executor/drift.py:111-195 | with no install failure a second rebase of the same host changes nothing at all, the snapshot id included |
| `DriftTheorems.InterruptedRebaseIsCompleted` | executor/drift.py:111-195 | after a crash between installs, the restart's rebase gives every path the row the first one would have |
| `DriftTheorems.KeepsIdIffUndisturbed` | executor/drift.py:184-195 | a rebase without choices keeps the snapshot id if and only if it finds every path undisturbed |
| `DriftTheorems.InterruptedChoiceIff` | executor/drift.py:153-166 | an interrupted `take_host` is lost, still open, or done, each exactly when, from what host, baseline and staging held and whether the file was installed |
| `DriftTheorems.InterruptedKeepIff` | executor/drift.py:158-180 | an interrupted `keep_staged` is done, still open, or overridden, each exactly when |
| `LostWork.TakenChoiceIsLost` | executor/drift.py:153-166 | the concrete case: the host is back at the baseline's file, the restart closes the conflict and the file given up is pending |
| `LostWork.KeptChoiceIsOverridden` | executor/drift.py:158-180 | the concrete case: staging is back at the baseline's file, the restart installs the host's over the kept one |
| `Publication.AdvancePublishedStaging` | executor/staging.py:250-295 | the baseline takes the staged version of exactly the acknowledged paths, or nothing happens because staging moved on |
| `Publication.ReceiptCoversManifest` | shared/tools.py:380-395 | a receipt speaks of exactly the manifest's paths |
| `Broker.PublishOne` | src/workspace_broker.py:118-153 | one operation: base check, recovery copy, write, post-write check, and what each failure point leaves |
| `Broker.RestoreTouched` | src/workspace_broker.py:194-221 | undoing newest first restores every touched path whose restore does not itself fail |
| `Broker.CarryOut` | src/workspace_broker.py:117-192 | with nobody else at the host: all operations landed, or the host is as before except at reported paths; in every case only files that matched their reviewed base were replaced or removed |
| `Broker.CarryOutAmidEdits` | src/workspace_broker.py:117-192 | with the user editing before every operation and before the record: success leaves each operation in place, or the user's later edit of its file; a stop leaves each file as the user had left it when its operation had its turn; only files reviewed in their turn differ from what the user left; without faults it stops exactly at a file that is not the reviewed one |
| `Broker.RestoreDestroysIff` | src/workspace_broker.py:194-221 | at a restored path the user's file is overwritten if and only if it changed after the operation on it had had its turn |
| `Broker.EditIsRestoredAway` | src/workspace_broker.py:194-221 | the concrete case: an edit of a file already published, then a batch that stops |
| `Broker.WorkspaceBroker.Publish` | src/workspace_broker.py:86-192 | all or nothing wherever the failure strikes; what is refused; that a sound batch goes through, and lists its paths in order; no file replaced or removed that did not match its reviewed base, also when a restore fails |
| `Broker.NoFailedRestoreNoTrace` | src/workspace_broker.py:194-221 | when the restores succeed, the contents and modes of the host are those before the batch |
| `Broker.PublishedTreeIsOverlay` | src/workspace_broker.py:117-192 | a published host is exactly the original overlaid with the manifest; only a mode that an operation leaves open is not determined by it |
| `StateStore.Encode` | executor/state.py:123-146 | what is written for a baseline |
| `StateStore.LoadUndoesSave` | executor/state.py:82-146 | load after save gives back versions, sizes, signatures, conflicts and id |
| `StateStore.LoadsNothingIff` | executor/state.py:82-121 | a file counts as no baseline exactly if it is missing, cannot be read, is of another schema, or has no snapshot id |
| `StateStore.LoadMeaning` | executor/state.py:82-121 | from any other record the id, versions and signatures come as listed, and of several conflicts for one path the last |
| `StateStore.StateVolume.Claim` | executor/state.py:62-80 | a volume is claimed, recognised, or refused: another workspace's, an unreadable identity, or one that cannot be written |
| `StateStore.StateVolume.Save` | executor/state.py:123-153 | the saved state loads as the given baseline, or the write failed and the old one stands |
| `Seeding.SeedStaging` | executor/staging.py:165-230 | for a host of regular files whose copies succeed: staging becomes the host tree and the snapshot its listing, and it refuses exactly over the limits |
| `Seeding.SeedRecords` | executor/staging.py:205-228 | the first snapshot records of each host file its digest, size and mode, and its size and time as signature |
| `Seeding.SeedHasNoChanges` | executor/staging.py:165-230 | fresh staging has nothing pending |
| `Service.ExecutorService.Seed` | executor/app.py:147-160 | seed and save, and what stands when either fails |
| `Service.ExecutorService.RebaseNow` | executor/app.py:169-193 | refused, stopped part way, or gone through; memory moves first, and the disk follows unless there is nothing to save or the save fails |
| `Service.ExecutorService.Start` | executor/app.py:119-157 | a restart resumes from the saved baseline with a rebase, starts over when there is none, and refuses another workspace's volume; for a host of regular files whose seed copies succeed, it comes up whenever the limits hold and the volume can be written |
| `Service.ExecutorService.OfferedChanges` | executor/app.py:381-415 | the changes offered: pending, not in conflict, not withheld, selected; exactly when a selection is refused |
| `Service.ExecutorService.NextManifest` | executor/app.py:381-436 | exactly when a batch can be offered, and that it is the first greedy batch with the right count |
| `Service.ExecutorService.MarkPublished` | executor/app.py:550-564 | a receipt fits exactly when it names this workspace and the baseline in memory and staging still holds what it says; then memory advances, and the disk unless the save fails |
| `Service.ExecutorService.Discard` | executor/app.py:541-548 | a finished discard is a fresh seed; what a crash at either point leaves |
| `PendingChanges.PendingMeaning` | executor/app.py:381-415 | the offered list holds each in-scope differing path once, in order, and nothing else |
| `PendingChanges.AcknowledgedChangesLeave` | executor/staging.py:250-295 | acknowledging the first changes removes exactly them; the rest stays in order and unaltered |
| `Worker.OperationMeaning` | executor/app.py:438-460 | the operation built for a pending change has the kind of the change, the reviewed base, and the content, digest and mode of the staged file |
| `Worker.BatchIsSound` | executor/app.py:381-460 | a batch is one the broker accepts, can carry out on a host that agrees with the baseline, and whose receipt the executor accepts |
| `Worker.BatchInCodePointOrder` | executor/app.py:381-436 | a manifest's operations stand in path order, and no change left for later comes before one of them |
| `Worker.CompletedTooSoonIff` | src/workspace_broker.py:338-346 | the remaining count is zero exactly when every batch is published; the state reads completed with batches remaining exactly when the last was published while an earlier one was not |
| `Worker.CompletedWithOneBatchMissing` | src/workspace_broker.py:338-346 | the concrete case: the first of two batches failed, the second was published |
| `Worker.RecordBatch` | src/workers.py:417-427 | only publications of several batches are recorded, and a ledger that cannot be written is passed over |
| `Worker.RunPublication` | src/workers.py:334-388 | required checks, then the host, the receipt, the answer, the ledger, the next batch: the whole result in terms of what the host, the executor, its state volume, the connection and the ledger did; the worker says the baseline advanced exactly when the executor took the receipt, saved it, and the answer arrived |
| `Convergence.RunWithoutFaults` | src/workers.py:334-388 | a sound batch lands, is acknowledged, and yields another batch exactly while changes remain |
| `Convergence.NextBatchGoesThrough` | src/workers.py:334-388 | with host and staging quiescent every next batch is sound |
| `Convergence.LedgerStep` | src/workspace_broker.py:311-353 | batches published in order keep the ledger in step; after the last nothing remains and it reads completed |
| `Convergence.PublishNext` | src/workers.py:334-388 | one approved batch moves the run on by exactly that batch |
| `Convergence.PublishBatches` | src/workers.py:334-388 | from a first manifest on, every batch in turn, with one announced count and a ledger that ends complete |
| `Convergence.PublishEverything` | src/workers.py:334-388 | repeating batches terminates with nothing pending, H = S = B on exactly the published paths, everything else untouched, one announced count, and a completed ledger |
| `Convergence.EachChangeOnce` | executor/app.py:381-436 | the batches carry each pending in-scope path exactly once |
| `Protocol.NextInv` | executor/app.py:111-564 | every event of the protocol, failed saves, stopped rebases, crashes and restarts included, keeps the invariant |
| `Protocol.ReceiptInv` | executor/app.py:550-564 | accepting a receipt keeps it |
| `Protocol.RebasesInv` | executor/app.py:169-193 | a rebase keeps it |
| `Protocol.PublishInv` | src/workspace_broker.py:86-192 | a published batch keeps it |
| `Runs.RunKeepsInvariant` | executor/app.py:119-193 | the invariant holds in every state of every run |
| `Runs.BaselineTracksHost` | executor/app.py:119-193 | over every run, whatever fails, B = H at each path not in conflict, not edited on the host since the last sync, not awaiting a receipt, not hidden by an unchanged signature, and not acknowledged after its published file was changed |
| `Excuses.EveryDifferenceHasItsReason` | executor/app.py:119-193 | over every run, where baseline and host differ, the events give the reason: an open conflict; a write to the host, or a batch not acknowledged, since the last sync; a change that sync could not see; or a receipt accepted after someone else had written the published file |
| `Excuses.EditedIff` | src/workspace_broker.py:117-192 | a path counts as edited if and only if someone other than a publication wrote it since the last sync |
| `Excuses.AwaitingIff` | executor/app.py:550-564 | a path awaits a receipt if and only if it was published, and neither acknowledged nor synced since |
| `Excuses.HiddenIff` | executor/drift.py:89-104 | a path counts as hidden if and only if the last rebase found another content of the recorded size and time |
| `Excuses.OvertakenIff` | executor/app.py:550-564 | a path counts as overtaken if and only if its batch was acknowledged after something else was written there |
| `Runs.SnapshotIdNamesOneBaseline` | executor/drift.py:184-195 | two states of a run with the same snapshot id have the same digests, sizes and modes |
| `Runs.AcceptedReceiptFitsItsManifest` | executor/app.py:550-564 | an accepted receipt refers to the baseline its manifest was built from |
| `Runs.RetiredIdReturnsIff` | executor/app.py:119-141 | a snapshot id the baseline has left returns if and only if the executor restarts from a disk that still names it and every path is undisturbed |
| `Runs.NoReceiptTwice` | executor/app.py:550-564 | a receipt whose acceptance was saved is never accepted again |
| `Runs.SecondAcceptanceNeedsAReturn` | executor/app.py:550-564 | a receipt accepted twice was not saved the first time, and a restart in between returned to the old baseline |
| `Runs.ReceiptFitsAgainIff` | executor/app.py:550-564 | after such a restart a receipt fits again exactly when no published path is seen as published and every other path is undisturbed |
| `Runs.RetiredIdStaysRetired` | executor/app.py:119-193 | an id that the baseline has left in memory and on disk never returns |
| `Runs.HostEditsAreNeverOverwritten` | src/workspace_broker.py:117-192 | publication, also one that fails half way, replaces a host file only while it is the very version the reviewed baseline recorded; a batch is one step here, edits within one are those of `CarryOutAmidEdits` |
| `Runs.StagedWorkIsNeverOverwritten` | executor/drift.py:146-195 | a rebase, finished or stopped part way, changes staging only where it held the version of the baseline it started from or the user took the host's; nothing else but discards and reseeding touches it |
| `Runs.RestartReplacesStagedWorkIff` | executor/app.py:119-141 | work staged on the baseline in memory is replaced by a restart if and only if the disk lags and records what staging holds while the host has moved |
| `LostWork.StagedWorkIsReplaced` | executor/app.py:119-141 | a run: a receipt accepted but not saved, work staged on top of it, a restart that replaces it |
| `Runs.AcceptedReceiptSyncsIffHostUnmoved` | executor/app.py:550-564 | an accepted receipt leaves B = H at a published path if and only if the host still holds what was published |
| `Recovery.RebaseActsAsReceiptIff` | executor/drift.py:162-170 | at a published path the next rebase records what the receipt would have if and only if the host file does not hide behind the size and time recorded before |
| `Recovery.LostReceiptIsRecovered` | executor/drift.py:162-170 | after a lost receipt the next rebase gives the baseline the receipt would have given, if and only if no published file hides behind an old size and time and at every other path the host is seen unmoved or staging cannot follow it |
| `Recovery.PublicationIsOverlooked` | executor/drift.py:89-104 | the concrete case: a published file with the old size and time is taken for the old one, and publishing it again would be refused |
| `Recovery.RebaseMovesOnlyWhatItAdopts` | executor/drift.py:146-185 | a recorded entry stays exactly when the host did not change or staging cannot follow |
| `Recovery.PublishedPathIsMissedIff` | executor/staging.py:288-295 | when a published file hides behind a stale signature |
| `Recovery.RestoredFileIsOverlooked` | executor/drift.py:89-104 | the concrete case: the old file put back over a publication is not seen |
| `Recovery.InterruptedDiscardShowsDeletes` | executor/app.py:541-548 | the deletions shown after a crash in discard are exactly the baseline files on the host |
| `Recovery.InterruptedDiscardIsCleanIff` | executor/app.py:541-548 | nothing is pending after such a crash if and only if the baseline was already forgotten or no baseline file is on the host |
| `Runs.UnsavedDiscardIsRepeated` | executor/app.py:119-145 | after a discard that was not saved the next start can only begin again from the host, dropping what was staged since |
| `LostWork.DiscardIsRepeated` | executor/app.py:119-145 | a run: a discard that was not saved, staged work, a restart that drops it |
| `LateReceipt.AcceptedTooLate` | executor/app.py:550-564 | a run ending with B different from H, nothing edited since the last sync and nothing flagged |
| `LostSave.SameReceiptTwice` | executor/app.py:550-564 | a run in which one receipt is accepted twice after a failed save and a restart |
| `Driver.Workstation.Offer` | executor/app.py:381-436 | an offered manifest is the protocol's offer |
| `Driver.Workstation.RunWorker` | src/workers.py:334-388 | a run of the worker is one publication or a failed one, then at most one receipt, then at most one offer; it denies an advance of the baseline that did take place exactly when the save or the answer failed |
| `Driver.Workstation.Acknowledge` | executor/app.py:550-564 | a receipt, saved or not or refused, is a step of the protocol |
| `Driver.Workstation.Rebase` | executor/app.py:169-193 | a rebase, gone through or stopped, is a step of the protocol |
| `Driver.Workstation.Discard` | executor/app.py:541-548 | a discard, done or stopped, is a step of the protocol |
| `Driver.Workstation.Restart` | executor/app.py:119-157 | a start, resumed, reseeded or failed, is a step of the protocol |
| `Checkpoints.DedupNeverGrows` | executor/checkpoints.py:72-100 | deduplicated bytes never exceed the listing's total, so the size check before creation suffices |
| `Checkpoints.PickOldest` | executor/checkpoints.py:396-419 | the victim is the candidate with the earliest creation time, of equal ones that with the first name |
| `Checkpoints.SortByAge` | executor/checkpoints.py:411-419 | the complete list in the order of creation times, equal ones by name |
| `Checkpoints.CheckpointStore.StoreObjects` | executor/checkpoints.py:98-107 | every object of the listing is in the store afterwards and none changes, or a file that needed storing could not be stored |
| `Checkpoints.CheckpointStore.Create` | executor/checkpoints.py:61-133 | exactly when the limits, links counted, refuse it; a file that cannot be stored leaves the checkpoints alone; otherwise the new checkpoint is recorded and pruning has the outcome stated for it: within budget, with no unreferenced object but those that cannot be deleted, only the oldest removable others evicted and none in vain, or it does not come back, and exactly when |
| `Checkpoints.CheckpointStore.Restore` | executor/checkpoints.py:197-269 | each error's exact cause, nothing written before every object is verified; on success contents and modes are the recorded ones and matching files untouched; a write that fails leaves each path as it was or as recorded |
| `Checkpoints.CheckpointStore.Prune` | executor/checkpoints.py:357-402 | both prunings, the current checkpoint never touched, oldest removable ones first, soundness kept; it does not come back exactly when what the count leaves cannot be evicted down to the budget; it fails only if the current one alone is left and over budget |
| `Checkpoints.CheckpointStore.PruneByBytes` | executor/checkpoints.py:371-402 | evictions stop as soon as the referenced bytes fit; the loop comes to a state that no round changes exactly when eviction, oldest first, reaches a checkpoint that cannot be removed before the budget is met |
| `Checkpoints.CheckpointStore.PruneByCount` | executor/checkpoints.py:358-369 | exactly the newest ones, the current one, and those that cannot be removed stay, the latter perhaps emptied |
| `Checkpoints.PruneKeepsTheNewer` | executor/checkpoints.py:357-419 | no pruning keeps a removable checkpoint created before one it loses |
| `Checkpoints.DroppedByCountIff` | executor/checkpoints.py:358-369 | the count drops a removable checkpoint exactly when at least that many others were created after it, equal times by name |
| `Checkpoints.StuckMeansCannotFit` | executor/checkpoints.py:372-406 | where the byte pruning is stuck, eviction from the start cannot meet the budget |
| `Checkpoints.FitsMeansCanFit` | executor/checkpoints.py:372-402 | where it leaves, eviction from the start can |
| `Checkpoints.SpinningLasts` | executor/checkpoints.py:372-406 | a loop whose next round changes nothing never leaves, however many rounds it runs |
| `Checkpoints.OneStuckCheckpointSuffices` | executor/checkpoints.py:405-406 | the concrete case: one older checkpoint that cannot be removed, and a new one that fits alone but not beside it |
| `Checkpoints.Prepare` | executor/checkpoints.py:238-249 | restore reads and verifies every object first |
| `Checkpoints.WriteBack` | executor/checkpoints.py:250-264 | exactly the changed paths are written or removed, up to the first that cannot be |
| `ApplyPatch.SoundIsRestorable` | executor/checkpoints.py:238-249 | every retained checkpoint of a sound store can be written back over any later state |
| `ApplyPatch.RestoredIsOriginal` | executor/checkpoints.py:231-264 | a restored tree is the original tree |
| `ApplyPatch.ApplyOne` | executor/tools/apply_patch.py:188-247 | one write, edit or delete, exactly when it is accepted and what it leaves |
| `ApplyPatch.WriteMeaning` | executor/tools/write.py:95-138 | exactly when a write lands (text, limits, expected hash, no unconfirmed shrink), its content, and the mode kept or given |
| `ApplyPatch.EditMeaning` | executor/tools/edit.py:87-175 | an edit lands only on a text file of the expected hash, replaces every match of the settled string and keeps the mode; exactly when it is refused |
| `ApplyPatch.DeleteMeaning` | executor/tools/apply_patch.py:219-229 | a delete lands exactly on an existing file of the expected hash |
| `ApplyPatch.LandedPatchMetExpectations` | executor/mutations.py:19-37 | every operation of a patch that lands and names an expected hash found a file of that hash |
| `ApplyPatch.PayloadOfOneMore` | executor/tools/apply_patch.py:29-37 | what counts against the payload limit: contents, and both strings of an edit |
| `ApplyPatch.RollBack` | executor/checkpoints.py:192-194 | the rollback succeeds exactly within the default limits and when every changed file can be written, and then restores the original |
| `ApplyPatch.ApplyPatch` | executor/tools/apply_patch.py:40-125 | the exact outcome of all operations or exactly the files found, for every interruption, unless the rollback of a failed patch cannot be carried out, and exactly when that is; and exactly when the checkpoint it asks for is never finished |
| `ApplyPatch.LargeStagingIsLeftHalfDone` | executor/config.py:237-255 | the large profile allows staging whose failing patch is not taken back |
| `ApplyPatch.FilesFollowTheirOwnOperations` | executor/tools/apply_patch.py:95-102 | each file ends as the composition of the operations that name it, in order |
| `ApplyPatch.PatchLandsIffEveryFileAccepts` | executor/tools/apply_patch.py:95-102 | an uninterrupted patch lands if and only if every file accepts its own operations |
| `HashCache.Walker.VisibleFiles` | executor/staging.py:298-343 | the walk that trusts its cache: its listing and the cache it leaves |
| `HashCache.ReusedIff` | executor/staging.py:151-155 | a digest is reused exactly when device, inode, size and both times are those cached and both times lay a quarter of a second behind the cached clock reading |
| `HashCache.LastTickIsAStamp` | executor/staging.py:88-95 | the clock assumed: the last tick is a possible stamp, and with ticks of a nanosecond the only one |
| `HashCache.StepKeepsCacheSound` | executor/staging.py:88-107 | every write, rename, wait and walk keeps settled entries true |
| `HashCache.SoundCacheListsExactly` | executor/staging.py:151-155 | with a sound cache the cached listing is the full re-hash |
| `HashCache.TooCoarseAClockGoesUnnoticed` | executor/staging.py:151-155 | a run with a coarser clock whose cached listing is stale |
| `HashCache.ExactIffWindowCoversGrain` | executor/staging.py:88-95 | over all runs the cached listing is exact if and only if time stamps are no coarser than the window |
| `ListingRefresh.VisibleFiles` | executor/staging.py:298-343 | the work-list walk finds exactly the visible regular files and links |
| `ListingRefresh.ScanDirectory` | executor/staging.py:311-340 | one directory's files, links and subdirectories |
| `ListingRefresh.NormalizeMeaning` | executor/paths.py:144-168 | normalizing drops exactly the segments that name nothing and keeps the others in order |
| `ListingRefresh.RefreshVisibleFiles` | executor/staging.py:346-379 | the refresh loop does the specified updates |
| `ListingRefresh.RefreshIsAFullWalk` | executor/staging.py:346-379 | refreshing the changed normalized paths gives the files and links of a full walk |
| `ListingRefresh.RefreshOfOneWrittenFileIff` | executor/app.py:334-351 | after one write the refreshed listing is right if and only if the path was given in normal form |
| `Replacing.FindIsFirst` | executor/tools/edit.py:347-350 | find returns the leftmost match |
| `Replacing.FirstPlaceIsReplaced` | executor/tools/edit.py:347-360 | the first place that holds the old string gets the new one, and replacing goes on behind it |
| `Replacing.NoPlaceNoChange` | executor/tools/edit.py:347-360 | where no place holds it, nothing changes |
| `Replacing.FirstMatchIsFinal` | executor/tools/edit.py:347-350 | a match found in the bytes held back is a match of the whole, whatever follows |
| `Replacing.FrontIsFinal` | executor/tools/edit.py:351-353 | all but the last old-length bytes without a match may be written out |
| `Replacing.ReplaceSize` | executor/mutations.py:63-68 | the predicted size is the size of the result |
| `StreamEdit.Drain` | executor/tools/edit.py:347-353 | the inner loop keeps what is written, held back and to come equal to the whole replacement |
| `StreamEdit.StreamReplace` | executor/tools/edit.py:316-360 | for every chunking the output and count are those of whole-file replacement; the limit error only when the result is too large, the text error only for invalid files (one that is both may meet the limit first) |
| `StreamEdit.ApplyEdit` | executor/tools/edit.py:87-175 | exactly when an edit is applied, with which pair of strings, and its result |
| `StreamEdit.SettledMeaning` | executor/tools/edit.py:124-175 | which pair of strings an edit settles on: the given one if it matches or spans no line end, else its translation if that matches |
| `StreamEdit.WarnsIff` | executor/mutations.py:40-100 | an edit is reported as a large shrink exactly when a file of 200 bytes and 20 lines loses more than half of both |
| `EditMeaning.CodePointNamesItsBytes` | executor/utf8.py:13-29 | a character has one encoding |
| `EditMeaning.PrefixInBytesIsPrefixInText` | executor/tools/edit.py:326-351 | a byte match is a text match |
| `EditMeaning.BytesReplaceIsTextReplace` | executor/tools/edit.py:316-360 | replacing bytes in a UTF-8 file gives UTF-8, and its characters are the file's with the old text replaced, count included |
| `LineEndings.DosFileStaysDosIff` | executor/tools/edit.py:208-217 | an edit translated to CR LF keeps the file's convention, and exactly when not |
| `LineEndings.UnixFileStaysUnixIff` | executor/tools/edit.py:208-217 | an edit translated to LF adds no carriage return, and exactly when it does |
| `LineEndings.ToUnixMeaning` | executor/tools/edit.py:208-217 | translating to LF drops the carriage return of each CR LF pair and nothing else |
| `LineEndings.CountLines` | executor/mutations.py:111-120 | the chunked line count |
| `LineEndings.LinesMeaning` | executor/mutations.py:111-120 | a file has as many lines as line feeds, and one more if it does not end with one |
| `LineEndings.PredictionIsRight` | executor/mutations.py:40-68 | the shrink guard's byte count is exact, its line count exact up to an unfinished last line |
| `Utf8.BrokenStays` | executor/utf8.py:20-26 | text once invalid stays invalid |
| `Utf8.CleanFront` | executor/utf8.py:20-26 | complete characters are read once, the rest on its own |
| `Utf8.CutMeaning` | executor/utf8.py:20-26 | where a scan is cut, at most three bytes of one character are left |
| `Utf8.Utf8Validator.Feed` | executor/utf8.py:13-29 | the incremental verdict is the verdict on everything fed so far |
| `Utf8Encoding.EncodedIsText` | executor/utf8.py:13-29 | every sequence of characters, encoded as RFC 3629 section 3 says, is accepted and read back |
| `Utf8Encoding.TextIsEncoded` | executor/utf8.py:13-29 | whatever is accepted is the encoding of the characters read from it, no surrogates among them |
| `Utf8Encoding.BrokenIffHopeless` | executor/utf8.py:20-26 | bytes are given up as invalid exactly when nothing that may follow makes them text |
| `Paging.DecodeBounded` | executor/tools/read.py:189-199 | exactly the leading whole characters, or an error exactly for invalid bytes |
| `Paging.WholeCharsIsLongest` | executor/tools/read.py:189-199 | no longer prefix is valid text |
| `Paging.BoundaryIsNoTailByte` | executor/tools/read.py:108-115 | the byte test refuses exactly the offsets that are not character boundaries |
| `Paging.Read` | executor/tools/read.py:100-120 | exactly which requests fail, and the page of the others |
| `Paging.PageMeaning` | executor/tools/read.py:116-121 | a page is the text between its offsets, ends on a boundary, and stands still exactly when the first character does not fit |
| `Paging.PageIsLongest` | executor/tools/read.py:116-119 | no character boundary lies behind the end of a page and within the limit; a page is whole when the file ends within the limit |
| `Paging.CharsFitIff` | executor/tools/read.py:183-199 | a text fits a limit exactly when the encoding of each of its characters does |
| `Paging.PagesCoverTheFile` | executor/tools/read.py:100-140 | following next_offset yields the whole text if and only if every character fits; four bytes suffice |
| `CapturedOutput.OutputBuffer.constructor` | runner/process.py:29-37 | an empty buffer with the clamped limit |
| `CapturedOutput.OutputBuffer.Append` | runner/process.py:39-62 | the state depends on the stream only; head and tail are its first and last preview bytes |
| `CapturedOutput.OutputBuffer.TrimTail` | runner/process.py:54-62 | the trimming loop ends with exactly the last preview bytes |
| `CapturedOutput.OutputBuffer.Output` | runner/process.py:64-67 | the whole stream up to the limit, else head, marker and tail |
| `CapturedOutput.LimitMeaning` | runner/process.py:29-32 | the limit is the requested one between 1 and 512000, the preview half of it but at least 1 |
| `CapturedOutput.ShownMeaning` | runner/process.py:64-67 | what is shown, byte by byte: the whole stream, or its first bytes, the marker, its last bytes |
| `CapturedOutput.HeadAndTailDoNotOverlap` | runner/process.py:39-67 | nothing is shown twice, and what is missing is accounted for |
| `GitTree.InsertOne` | executor/sandbox_git.py:243-249 | a file goes in without disturbing any other |
| `GitTree.BuildTree` | executor/sandbox_git.py:243-249 | the nested dictionaries hold exactly the given entries |
| `GitTree.WritableIff` | executor/sandbox_git.py:243-249 | the files a tree can be written for: names not empty, without NUL or slash, no file inside another |
| `GitTree.GitModeMeaning` | executor/sandbox_git.py:238-240 | a file is executable to git exactly if the owner, the group or others may execute it |
| `GitTree.ReadBackItems` | executor/sandbox_git.py:259-262 | a tree body parses back to its items |
| `GitTree.ReadingIsStable` | executor/sandbox_git.py:268-282 | later objects change nothing already readable |
| `GitTree.Repository.WriteObject` | executor/sandbox_git.py:268-282 | the object is stored under its name, others untouched |
| `GitTree.Repository.WriteTree` | executor/sandbox_git.py:251-263 | reading the tree back gives the dictionary, every level in git's order |
| `GitTree.TreeInGitOrder` | executor/sandbox_git.py:251-263 | the entries of any tree that can be read stand in byte order of their names, a directory's with a slash |
| `GitTree.ReadTreesAreStored` | executor/sandbox_git.py:268-282 | a tree that can be read is in the object store |
| `GitTree.SubtreesAreRead` | executor/sandbox_git.py:251-263 | so do those of every tree inside it |
| `GitTree.Repository.WriteBaseTree` | executor/sandbox_git.py:207-265 | reading back recovers exactly the paths, modes and blobs |
| `GitBase.SandboxGit.NameBlobs` | executor/sandbox_git.py:147-157 | every baseline file's blob is that of its content, recorded or written; exactly when one cannot be named |
| `GitBase.SandboxGit.UpdateBase` | executor/sandbox_git.py:140-162 | the base tree becomes exactly the baseline, or the old base stands |
| `GitIndex.ReadBackRecord` | executor/sandbox_git.py:311-314 | an entry parses back, padded with one to eight NULs to a multiple of eight |
| `GitIndex.ReadBackIndex` | executor/sandbox_git.py:315-317 | the index file parses back to its records |
| `GitIndex.WriteIndex` | executor/sandbox_git.py:285-327 | a reader gets exactly the entries, once each, in byte order, with the stat data of exactly the staged files that are regular and of the recorded size |
| `GitIndex.IndexInByteOrder` | executor/sandbox_git.py:291 | of two records the earlier has the path that is a proper prefix of the other or has the smaller byte where they first differ |
| `GitIndex.HeldFields` | executor/sandbox_git.py:295-311 | each record word by word: change time, modification time, device, inode, mode, user, group and size for a file that counts as matching, else the mode alone |
| `GitIndex.VouchesFalselyIff` | executor/sandbox_git.py:285-327 | the index vouches for a file without the baseline's content if and only if it is regular, of the recorded size and mode, and of another digest |
| `GitIndex.EqualSizeGoesUnnoticed` | executor/sandbox_git.py:320-327 | an edit of equal size is taken for clean |
| `Context.SelectedIsPaired` | server/agent/context.py:77-113 | removing whole exchanges keeps the tool protocol |
| `Context.PairedIff` | server/agent/context.py:77-104 | what the tool protocol asks: each result answers a call of an assistant message before it with only results in between |
| `Context.NoteKeepsPaired` | server/agent/context.py:116-118 | so does inserting the note |
| `Context.BoundResults` | server/agent/context.py:54-75 | long tool results are summarised oldest first until the budget is met, and no further |
| `Context.SummarisedMeaning` | server/agent/context.py:54-75 | of the results up to the cut those over the limit have their summary as content, nothing else changed |
| `Context.BoundCallsMeaning` | server/agent/context.py:34-53 | arguments of more than 4000 characters are rendered anew, everything else about a call stays |
| `Context.RemoveExchanges` | server/agent/context.py:77-113 | whole exchanges go, the oldest first, system messages never, until it fits or only recent ones are left, and no further |
| `Context.RemarkMeaning` | server/agent/context.py:87-113 | the line noted for a removed exchange: the summary of its calls, or who spoke and up to 240 characters |
| `Context.ExcerptLongest` | server/agent/context.py:119-134 | the longest is cut first, of equals the last, until it fits or nothing is over 800 characters, and no further |
| `Context.ExcerptMeaning` | server/agent/context.py:119-134 | an excerpt is the prefix and the content, or its first and its last 300 characters around the marker |
| `Context.NoteMeaning` | server/agent/context.py:115-118 | the note is its heading and the last twenty lines, cut to 8000 characters |
| `Context.NotePlaceMeaning` | server/agent/context.py:116-118 | the note stands behind a leading system message, otherwise first |
| `Context.CompactAgentContext` | server/agent/context.py:13-134 | the tool protocol is kept, no system message removed, every retained message derived from its original, the note one line for everything shortened or removed, and the exit condition; nothing is shortened, removed or cut once the conversation fits |
| `Context.DerivedMeaning` | server/agent/context.py:34-75 | a message of the output keeps role, answered call and call names; its content is the original, its summary, or an excerpt of one of them |
| `Context.BlockGoesTogether` | server/agent/context.py:88-104 | a call and its results are lost together or not at all |
| `Context.RecentMessagesStay` | server/agent/context.py:80-113 | the last messages stay unless they begin with a tool result |
| `MessageTree.ClimbFrom` | src/import_export.py:277-288 | the climb ends at a placed ancestor, or proves a missing parent or a cycle |
| `MessageTree.ParentsFirst` | src/import_export.py:259-292 | success exactly when every parent exists and there is no cycle; the result is a permutation with parents first |
| `MessageTree.ParentsFirstMeansNoCycle` | src/import_export.py:259-292 | a parents-first listing leaves no room for a cycle |
| `MessageTree.Storage.ImportMessages` | src/import_export.py:83-98 | the stored tree is isomorphic to the exported one, roles and contents included, and the rest of the store untouched |
| `MessageTree.CopyMeaning` | src/import_export.py:83-98 | each message stands under its own new id with its role and content, below the new id of its parent, and the rest of the store is unchanged |
| `MessageTree.Storage.ImportJson` | src/import_export.py:49-98 | exactly the exports within the limits whose messages form a forest are imported, as an isomorphic copy; any other stores nothing |

## Left out

- Windows: equivalence of modes up to the read-only bit, attributes, and path aliases.
- Real file systems: directories of the workspace, temporary files, fsync, descriptors and links; a tree is a map from paths to contents and modes, changed atomically, and failures are parameters. `ListingRefresh` and `HashCache` model directories, links and inodes where they matter.
- Checkpoints.CheckpointStore.Restore: removing and recreating symbolic links, and the manifest's JSON; creation times recorded in manifests are taken as given.
- Drift.Rebase: the three tables of digests, sizes and modes are one table of entries, and the stored byte total is derived.
- Service.ExecutorService.OfferedChanges: `never_publish` is a set of paths, not globs; secret and path policy are left out.
- Broker.CarryOutAmidEdits: the user's edits fall between operations; one that falls between the check of a file and its write, or during the restores, is not modelled. In `Protocol` a batch is one step.
- Drift.HostFiles: links, hard links and special files on the host, which the code refuses, are not modelled.
- Seeding.SeedStaging: a copy that fails, and links, hard links and special files on the host, which the code refuses, are not modelled.
- Service.ExecutorService.Start: a seed copy that fails and a host with links, hard links or special files, which keep the executor from coming up, are not modelled.
- StreamEdit.ApplyEdit: the diff, the diagnostics of a failed match, and the early text decoding of small files, which fails for the same files, are left out.
- ApplyPatch.ApplyPatch: path policy and missing parent directories are failures from outside (an operation cut short before it writes); diffs and result records are left out.
- Utf8.Utf8Validator.Feed: of a failed feed only the verdict is stated; the caller never feeds again.
- Paging.Read: line ranges, line counts and metadata are left out.
- HashCache.Walker.VisibleFiles: a walk is atomic; writes fall between walks.
- ListingRefresh.VisibleFiles: the stack is a set, so the order of directories is not modelled; the file tools refuse paths that lead through a link.
- GitIndex.VouchesFalselyIff: git's own second look at entries as new as the index file is not modelled.
- GitTree.Repository.WriteTree: an object name stands in a tree body as one symbol instead of twenty bytes; compression is left out.
- GitBase.SandboxGit.UpdateBase: the commit object, its time stamp and the reference are left out; cloning and the objects git itself wrote are assumed.
- Context.CompactAgentContext: the token estimate, the JSON rendering of long arguments and of tool results are parameters; messages that are not well-typed dictionaries are left out.
- MessageTree.Storage.ImportJson: the JSON itself, the conversation record, compactions, runs and presets of an export.
- Worker.RunPublication: the required checks are a yes or no from outside; the text of progress and error messages is left out.
- Docker, the user interface, HTTP routes, the gateway client, the agent runtime and its journal, search tools, the runner's process control, secret scanning and reduction: plumbing, or behaviour of libraries.
- Budgets, permissions, plan state, cursors and policy validation: they refuse a request before it reaches the objects modelled here, so every theorem holds with or without them.
