# Quiver, verified

A Dafny model of Quiver, a vector database written in Rust, and proofs of what its storage
engine, cluster map, serving path and encodings promise.

**Storage engine.** A collection is an active buffer over immutable segments with tombstone
bitmaps; a write-ahead log, a manifest named by the file `CURRENT`, checkpoints and compaction
surround it. `Disks` gives the durable state as a value and `Recover` what opening rebuilds
from it; `Stores.Store` is the object whose methods take one durable step after another.
Each step is recorded in `trace`, with the number of log records not yet synced, and every
contract says what each new entry of the trace recovers to, whichever of those are lost. The
specification is one map per collection (`Ledger`) and the next collection id, for what is
acknowledged and for what a crash leaves (`Commands.Worlds`): the two can differ, because a batch
refused part-way leaves records in the log that memory never applies. The main theorem,
`Runs.RunAndGet`, is over all scripts of commands and crashes; `Persistence` says the same without
the specification, as calls and their results: what is written, deleted or dropped stays so through
everything that may follow. `Residues.ReopenedIs` and `ReopensExactlyIff` say over all scripts what
a reopening shows and when that is exactly what was acknowledged.

**Bytes under the engine.** Log framing under every truncation (`Wal`), checksummed pages,
block files independent of how writes are split, paged blobs, both segment writers, and the
external-id column. `TornLogs` puts the log under the engine: a crash may cut the newest log
file at any byte past its synced part; `FileReads` puts the segment files under its point reads.

**Queries.** The per-segment index agrees with direct evaluation, down to the bit-level order
embedding of doubles, and direct evaluation with what a filter means (`Filters.MatchesMeans`).

**Cluster.** Rendezvous ownership without ties, the membership state machine, routing and
copying during joins and drains (`Migration.GetsReturnLastWrite`, `CopyPasses.CopyPassIff`), and
the exact scatter-gather merge, on the numbers that score patterns denote (`Floats`).

**Serving snapshots.** The overlay refines the map; search over base and overlay returns rows of
the collection, and the nearest ones (`Nearest.SearchRows`) under conditions stated as
if-and-only-if.

**Descriptors and DCPE.** The six-layout decoder over the Postcard wire format, and the
distance-comparison-preserving encryption over the reals.

Where code and comments disagree, the model follows the code:

- `snapshot.rs:99-105` promises the k nearest live points up to the index's own approximation.
  Widening by the live fraction does not give that: `Widening.WideningIsExactIff` is the exact
  condition and `Widening.WideningCanMiss` an instance outside it.
- `store.rs:745-761` says that a batch that is not acknowledged leaves at most a prefix, after a
  crash. A batch with a record over the log's size limit returns an error and leaves its first
  records in the log, where the next accepted write makes them durable: they are not there until
  the store is reopened, and then they are (`Residues.RefusedRowReturns`).
  `Residues.ReopensExactlyIff` is the exact condition over all scripts, `OneCommandIff` the one to
  check before a call, and `WholeRuns` covers the scripts without such batches.
- `store.rs:6-8` derives from the sync before each acknowledgement that acknowledged writes survive
  `kill -9`. They need not survive a power failure: an opening does not sync the log file it
  replays, so a record that outlived a crash unsynced can be lost after writes that build on it
  were acknowledged. `LaterLosses.RunAndLose` has the exact condition for those to survive,
  `LostCreation` a run in which a whole collection does not.
- `coordinator.rs:483-491` says a migration loses no acknowledged write. The copy pass sends what
  each source shard holds, so a leftover copy can win over the current one or bring a deleted
  point back: `CopyPasses.CopyPassIff` is the exact condition on the start of the pass,
  `CancelledDrain` and `DrainRevives` are runs outside it, and `TidyStep` says which steps leave
  such copies behind.
- `coordinator.rs:307-310` calls the window between the copy's check and its store harmless.
  `CopyPasses.CopyRace` says exactly when the two copies still agree, `CopyRaceLoses` gives an
  input. The pass pages by offset and the map flips when the paging ends: `PagingIff` says what is
  visited and `PagedJoinLoses` is a run in which a get loses a point.
- Two drains at once and the removal of a settled shard: `ShardMaps.TwoDrains` with
  `TwoDrainsMiss`, and `ShardMaps.RemovalAnchoredIff` with `RemovalCanUnanchor`.
- `recovery_tail` is described as what changed since the checkpoint. It is through any run of
  writes and crashes (`TailRuns.TailAfter`), but compactions and interrupted checkpoints take
  deletions out of it: `TailRuns.TailOver` over all runs, with the instances
  `RecoveryTails.CompactionForgetsDeletion` and `HalfAdvanceForgetsDeletion`.
- `Descriptor::decode` is meant to read every older layout. Two shapes of one-field schemas are
  misread: `DescriptorCodec.DecodeRecovers`.
- `search` widens with a clamp whose floor may exceed its ceiling: `Mvcc.Search` says when and
  `Mvcc.DeletedPointPanics` gives an input.

Modules follow the sources: `Collections`, `CollectionLayout`, `CollectionStates` (one
collection); `Replay`, `WindowReplay` (the log); `Disks`, `DiskSteps`, `Publishing`,
`Checkpoints`, `Compactions`, `Housekeeping`, `Opening` (durable steps); `Commands`, `Shadows`,
`Cuts`, `Survivors`, `Points`, `Effects`, `Stores`, `Runs`, `Persistence`, `Residues`, `LaterLosses`
(the store); `Reads`,
`RecoveryTails`, `TailLoss`, `Marks`, `TailRuns`, `Streams`, `Replication`; then the byte layers
with `WalFormats`, `TornLogs` and `FileReads`, `SecondaryIndex`, `Filters` and `Doubles`, the cluster
modules with `Weights`, `Floats`, `Migration`, `CopyPasses` and `Completions`, `Mvcc`, `Nearest`, `Widening`,
`DescriptorCodec`, and `Dcpe` with `Shuffles` and `Ciphertexts`.
`dafny verify dfyconfig.toml` checks everything.

## Model

| member | source | states |
|---|---|---|
| Runs.RunAndGet | crates/quiver-core/src/store.rs:443-540 | For every script of creates, drops, upserts, batches, deletes, checkpoints and compactions, whichever records are too large for the log, with crashes after any durable step that lose any of the records not synced, and further crashes during the reopenings, a get returns exactly what the acknowledged operations promise until a crash, and after one exactly what the surviving log says: `Residues` says when the two are the same |
| Persistence.UpsertLasts | crates/quiver-core/src/store.rs:699-738 | After any script, an upsert that returns its sequence number is read back through every further script of commands, crashes and interrupted reopenings in which no event writes or deletes that point or drops its collection |
| Persistence.BatchLasts | crates/quiver-core/src/store.rs:762-825 | The same for every record of an accepted batch that is the last for its id |
| Persistence.DeleteLasts | crates/quiver-core/src/store.rs:828-855 | After any script, a delete that returns true is followed by a get that finds nothing, through every further script in which no event upserts that point |
| Persistence.DropLasts | crates/quiver-core/src/store.rs:654-669 | After any script, a drop that returns true makes every read of that collection fail, whatever follows, a new collection of the same name included |
| Persistence.ExpectedKeeps | crates/quiver-core/src/store.rs:443-540 | Whatever every operation a command may log keeps, that command keeps, completed, refused or cut by a crash, in memory and in every state a crash may leave |
| Runs.Run | crates/quiver-core/src/store.rs:443-540 | After any such script the store is well formed; its state (names, descriptors, rows, next collection id) and what every crash would leave are those computed on plain maps from the sequence numbers the events started at and which of them moved the replay floor; only a checkpoint past its first step may have, and a completed command has used up exactly its own numbers |
| Runs.Step | crates/quiver-core/src/store.rs:443-540 | One command, complete, refused or cut short and recovered, moves the acknowledged state and what a crash may leave as expected; it reports its first sequence number and whether it moved the replay floor |
| Runs.Execute | crates/quiver-core/src/store.rs:611-855 | Each command changes the state by exactly the operations it asks the log to take, if the log takes them all, and publishes exactly those; a refused batch leaves its first records in the log and uses up all its sequence numbers; each durable step on the way recovers to the records up to there, whichever are lost past the last sync |
| Runs.CutRecovers | crates/quiver-core/src/store.rs:443-540 | The disk left by a crash after any number of a command's durable steps, less any records not synced, recovers to the synced state plus the surviving records; once a checkpoint has moved the floor, to the acknowledged state |
| Runs.Reopen | crates/quiver-core/src/store.rs:443-540 | Reopening reaches the recovered state even when earlier attempts to reopen were themselves cut short |
| Residues.ReopenedIs | crates/quiver-core/src/store.rs:762-825 | After any script, and whatever is lost past the last sync, a reopening shows the acknowledged state with rows of refused batches over it: exactly those whose record no later accepted write of the same id, drop, checkpoint or reopening has overridden |
| Residues.ReopensExactlyIff | crates/quiver-core/src/store.rs:762-825 | After any script, every crash there and then reopens to exactly the acknowledged state if and only if each such row, and each record not synced, is what the acknowledged state holds already or belongs to a collection that is gone |
| Residues.OneCommandIff | crates/quiver-core/src/store.rs:762-825 | After one command on a clean store that holds if and only if the log takes the whole command or each record before the refused one writes what is there already: a condition on the sizes and the state before the call |
| Residues.WholeRuns | crates/quiver-core/src/store.rs:762-825 | Over every script in which no batch is refused after its first record, every crash between commands reopens to exactly the acknowledged state |
| Residues.WholeCrash | crates/quiver-core/src/store.rs:745-757 | Then a crash inside a command leaves the acknowledged state and an exactly given prefix of that one command |
| Residues.RefusedRowReturns | crates/quiver-core/src/store.rs:801-805 | A concrete run: create, upsert a batch whose second record is too large, which is refused, upsert another point, delete the first point of the batch, which is not there; every reopening shows that point |
| Residues.RefusedRowRecovered | crates/quiver-core/src/store.rs:801-805 | The same run with the crash: the store that reopens holds the row of the refused batch |
| LaterLosses.RunAndLose | crates/quiver-core/src/store.rs:474-527 | Run any script, crash anywhere in one more command, reopen, run any writes, and then lose records that had survived the crash without a sync, with any new unsynced ones: recovery yields what the new records make of the smaller state, and that is the ledger otherwise recovered if and only if the new records reset or rewrite all that the lost ones had changed |
| LaterLosses.OverwrittenIff | crates/quiver-core/src/store.rs:1716-1766 | From a state and from one without its last operations the same legal operations lead to the same ledger, names included, if and only if every collection the two disagree on is created or dropped by them or differs only in rows they write |
| LaterLosses.LostDurable | crates/quiver-core/src/store.rs:474-527 | With the end of the old log file gone from under it, the new log file replays onto what the shorter file stood for |
| LaterLosses.LostCreation | crates/quiver-core/src/store.rs:611-650 | A concrete run: the record of a creation survives a crash unsynced, a point is acknowledged in the collection, the record is lost after all; the collection is gone and the point with it |
| Survivors.FollowsRefused | crates/quiver-core/src/store.rs:801-804 | A record appended by a batch that is later refused: memory does not move, and what the disk recovers to gains that one row |
| Survivors.FollowsAccepted | crates/quiver-core/src/store.rs:699-738 | An accepted record acts alike on memory and on what the disk recovers to, though refused records may set the two apart |
| Survivors.FollowsAdvanced | crates/quiver-core/src/store.rs:1334-1343 | Tombstones of memory's window written early leave the recovered ledger alone, though the log holds records memory never applied |
| Survivors.CompactionFollows | crates/quiver-core/src/store.rs:1557-1691 | A manifest over memory's merged rows leaves the recovered ledger alone under a log with refused records, and the two still correspond |
| Shadows.MergedUnderReplay | crates/quiver-core/src/store.rs:1557-1691 | Replaying the log, refused records included, onto the segment memory merged gives the rows replaying it onto the old segments gives |
| Points.StepFrame | crates/quiver-core/src/wal.rs:202-228 | After each frame of a batch, whichever of the frames past the last sync are lost, the disk recovers to the synced state plus the frames that survive |
| Points.StepAccepted | crates/quiver-core/src/wal.rs:242-245 | Appending and syncing one record makes every record before it durable too, refused or not |
| Stores.Store.constructor | crates/quiver-core/src/store.rs:443-540 | Opening any disk a crash may leave yields memory equal to what the disk means; every step of opening is itself crash-safe, no unreferenced file survives, and of the log exactly the files with a record past the floor, before a new empty one |
| Stores.Store.LoadSegments | crates/quiver-core/src/store.rs:453-472 | Loading builds one collection per manifest entry, with its segments and bitmaps, and the name index |
| Stores.Store.ReplayLog | crates/quiver-core/src/store.rs:474-506 | Replaying the log past the floor ends exactly at the recovered state with its allocators, and a file is reported live exactly if it holds a record past the floor |
| Stores.Store.ReplayFile | crates/quiver-core/src/store.rs:485-505 | One log file is replayed record by record; records at or below the floor change nothing |
| Stores.Store.CleanUp | crates/quiver-core/src/store.rs:508-525 | After loading, deletes every unreferenced file, starts a log file and deletes the dead ones, recovering to the same state after each step |
| Stores.Store.RemoveDeadLogs | crates/quiver-core/src/store.rs:514-524 | Exactly the log files with a record past the floor remain, before the new one, and every deletion keeps what recovery yields |
| Stores.Store.ApplyEntry | crates/quiver-core/src/store.rs:1716-1766 | Applying a logged operation to the objects is the specification's step on the catalog, and keeps it well formed |
| Stores.Store.LogAndApply | crates/quiver-core/src/store.rs:699-738 | A record too large for the log is refused and nothing changes; otherwise it is appended and synced, with every record before it, and applied to memory and published |
| Stores.Store.AppendSync | crates/quiver-core/src/wal.rs:242-245 | The record and every one before it are durable, and memory after the operation is in step with the disk |
| Stores.Store.CreateCollection | crates/quiver-core/src/store.rs:611-650 | Creates an empty table and its name under a never-used id, and changes nothing else, exactly when the name is legal and free, the dimension is not zero and the record fits the log; every refusal changes nothing |
| Stores.Store.DropCollection | crates/quiver-core/src/store.rs:654-669 | Returns true exactly when the name existed and the record fits the log, and then the name and its table are gone and nothing else changes; any other result changes nothing |
| Stores.Store.UpsertPoint | crates/quiver-core/src/store.rs:699-738 | The rows of the collection are the old ones with the id bound to the row, and nothing else changes; a missing collection, a vector of another length than the dimension or a record too large for the log changes nothing |
| Stores.Store.AppendFrame | crates/quiver-core/src/wal.rs:202-228 | One frame is added and not synced: what recovery yields gains the record, if it survives, and memory does not move |
| Stores.Store.Sync | crates/quiver-core/src/wal.rs:231-239 | All that was appended is durable |
| Stores.Store.AppendBatch | crates/quiver-core/src/store.rs:786-805 | Appends the records up to the first one too large for the log: if that is all of them one sync makes them durable, otherwise they stay in the log, not synced, and memory is as it was; after any number of frames a crash recovers to those that survive |
| Stores.Store.UpsertBatch | crates/quiver-core/src/store.rs:762-825 | Accepted exactly when every vector has the dimension and every record fits the log under its number; then every id of the batch holds its last record and every other id is as before. A refusal leaves the acknowledged maps alone; when a record is too large the sequence numbers of the whole batch are spent and the records before that one stay in the log for recovery |
| Stores.Store.DeletePoint | crates/quiver-core/src/store.rs:828-855 | Returns true exactly when the id was there and the record fits the log, and then the collection's rows are the old ones without that id and nothing else changes; any other result leaves memory, the synced state and the unsynced records as they were |
| Effects.BatchEffect | crates/quiver-core/src/store.rs:762-825 | Replaying the records of a batch binds each id to its last record and leaves every other id, table and name alone |
| Effects.AllTaken | crates/quiver-core/src/store.rs:801-805 | The log takes a whole batch exactly when no record is too large under the number it would get |
| Effects.NameBoundaries | crates/quiver-core/src/store.rs:71-100 | Which one-byte names are legal, and the two length limits |
| Stores.Store.KeptDirectory | crates/quiver-core/src/store.rs:699-738 | What is synced always has the names, the schemas and the next id of what is acknowledged |
| Stores.Store.Get | crates/quiver-core/src/store.rs:932-941 | Returns the row the acknowledged map holds, or none |
| FileReads.GetFromFiles | crates/quiver-core/src/store.rs:1070-1094 | A read that takes ids, vector and payload from the bytes of the segment files, newest segment first, returns what the acknowledged map holds |
| FileReads.ProbeFiles | crates/quiver-core/src/store.rs:305-315 | The newest file that physically holds the id decides, and its row is read back whole |
| FileReads.ReadRecord | crates/quiver-core/src/store.rs:1082-1092 | Vector by stride and payload by directory entry are those of the sealed row |
| FileReads.VectorRoundTrip | crates/quiver-core/src/store.rs:1907-1921 | Elements written as four little-endian bytes each read back |
| FileReads.WriteAndGet | crates/quiver-core/src/store.rs:932-941 | Writing a collection's segments as files and reading a point through them returns what the acknowledged map holds |
| Stores.Store.Scan | crates/quiver-core/src/store.rs:945-956 | Lists every live row once, in id order |
| Stores.Store.Len | crates/quiver-core/src/store.rs:1202-1208 | Returns the number of rows of the acknowledged map |
| Stores.Store.MatchingIds | crates/quiver-core/src/store.rs:1232-1285 | Returns the ascending, duplicate-free list of exactly the live ids whose payload holds, at the field's path, a value the filter admits (the same string or number, one of several, or inside a range of byte order or of numbers with either bound open), or refuses a field that is not indexed |
| Stores.Store.RecoveryTail | crates/quiver-core/src/store.rs:1172-1199 | Returns the buffered upserts in id order and exactly the ids with a pending tombstone; `TailRuns` says what they lead to |
| TornLogs.TornIsCut | crates/quiver-core/src/wal.rs:303-411 | Cutting the newest log file at any byte past its synced part leaves exactly the records whose frames lie wholly before the cut, which is the disk of a crash between two of the command's durable steps or one that loses earlier records not synced |
| TornLogs.StepTorn | crates/quiver-core/src/store.rs:443-540 | Run any writing command, accepted or refused part-way, crash with the log cut at any byte past its synced part, reopen with any further crashes: the store holds what the crash must leave that keeps exactly the whole frames before the cut |
| Stores.Store.ReplicationSnapshot | crates/quiver-core/src/store.rs:561-579 | Returns operations that rebuild the acknowledged state from an empty store |
| Stores.Store.ApplyReplicated | crates/quiver-core/src/store.rs:586-608 | A replicated operation acts on the follower as it did on the leader, under a local sequence number; a record too large for the follower's log is refused and changes nothing, except that a refused creation has raised the next collection id above its own; checkpoint marks log nothing |
| Stores.Store.AdvanceTombstones | crates/quiver-core/src/store.rs:1334-1343 | Each rewritten tombstone bitmap leaves a disk that still recovers as before, refused records included |
| Stores.Store.SealActive | crates/quiver-core/src/store.rs:1345-1398 | The sealed segment holds exactly the live buffered rows, in id order, and is not referenced yet |
| Stores.SealRows | crates/quiver-core/src/store.rs:1345-1372 | The segment file of the buffer's live rows, sorted and indexed |
| Stores.Store.PrepareAll | crates/quiver-core/src/store.rs:1318-1398 | After phase A every collection's files are ready to publish and every step recovers as before |
| Stores.Store.InstallManifest | crates/quiver-core/src/manifest.rs:142-178 | Writing the manifest file exposes nothing; making `CURRENT` name it exposes what the manifest lists |
| Stores.Store.PublishSeals | crates/quiver-core/src/store.rs:1431-1459 | The new manifest covers the whole log, refused records included, and recovery from it is the sealed memory with the acknowledged meaning |
| Stores.Store.CommitSealed | crates/quiver-core/src/store.rs:1457-1482 | Folding tombstones and installing segments brings memory exactly to the published manifest |
| Stores.Store.Seal | crates/quiver-core/src/store.rs:1318-1482 | Phases A to C together keep the state, step by step, and move the floor over the whole log |
| Stores.Store.RotateWal | crates/quiver-core/src/store.rs:1695-1710 | One log file remains and every deletion keeps the state |
| Stores.Store.CollectGarbage | crates/quiver-core/src/store.rs:1770-1827 | No unreferenced file remains, the log is untouched, and every deletion keeps the state |
| Stores.Store.Checkpoint | crates/quiver-core/src/store.rs:1305-1488 | Until its manifest is published every durable step recovers as before, from then on to the acknowledged state; it moves the floor over the whole log, so nothing refused is left, and leaves one log file and no unreferenced file; with nothing new since the last checkpoint it takes no step |
| Stores.Store.MergeCollection | crates/quiver-core/src/store.rs:1566-1637 | The merged file holds exactly the live sealed rows |
| Stores.Store.PublishCompaction | crates/quiver-core/src/store.rs:1610-1682 | The manifest of a compaction keeps the replay floor and the state, whatever the current window holds |
| Stores.Store.CompactCollection | crates/quiver-core/src/store.rs:1557-1691 | Leaves one segment without dead rows in that collection, the others and the log untouched, and the state the same at every durable step |
| Stores.Store.Compact | crates/quiver-core/src/store.rs:1495-1502 | Every collection is left with at most one segment and no dead row in it, one that had nothing to reclaim keeps its segments; the acknowledged state, and what every crash would leave, are unchanged at every durable step |
| Stores.Store.FindOver | crates/quiver-core/src/store.rs:1513-1522 | The first collection by id that is over the threshold, and none only when there is none |
| Stores.TotalsAdd | crates/quiver-core/src/store.rs:1543-1553 | The totals of rows and dead rows add up over any split of the segment list |
| Stores.Store.NeedsCompaction | crates/quiver-core/src/store.rs:1543-1553 | True exactly at eight segments or when at least half of the sealed rows are dead |
| Stores.Store.AutoCompact | crates/quiver-core/src/store.rs:1513-1522 | The first collection over the threshold, by id, is left with one segment without dead rows, every other one keeps its segments; one manifest is published exactly when there is such a collection |
| Collections.OneLiveRow | crates/quiver-core/src/store.rs:290-315 | Each id has at most one live row, and lookup finds a physical row exactly when it is the live one |
| Collections.UpsertedContents | crates/quiver-core/src/store.rs:367-375 | An upsert over buffer, segments and tombstones is a map update |
| Collections.DeletedContents | crates/quiver-core/src/store.rs:380-391 | A delete is a map removal |
| CollectionLayout.LiveLenIsSize | crates/quiver-core/src/store.rs:321-331 | The count computed without reading an id is the size of the map |
| CollectionLayout.SegmentCount | crates/quiver-core/src/segment.rs:224-226 | The per-segment subtraction counts the live rows and never underflows |
| CollectionLayout.SealedUpContents | crates/quiver-core/src/store.rs:1457-1482 | Folding tombstones and sealing the buffer leave the map unchanged |
| CollectionLayout.CompactedContents | crates/quiver-core/src/store.rs:1557-1691 | Merging the live rows leaves the map unchanged, whatever upserts and tombstones are pending |
| CollectionLayout.TailCatchesUp | crates/quiver-core/src/store.rs:1172-1199 | The map without the window, less the tail's deletions, plus its upserts, is the current map |
| CollectionStates.LocateIsContents | crates/quiver-core/src/store.rs:305-315 | A place is found exactly for the ids of the map, and the record there is the map's |
| CollectionStates.ProbeNewestFirst | crates/quiver-core/src/store.rs:305-315 | The newest-first probe finds the newest segment that physically holds the id |
| CollectionStates.CollectionState.LocateId | crates/quiver-core/src/store.rs:305-315 | Active buffer first, then the first physical hit, which counts only if it is not dead |
| CollectionStates.CollectionState.ApplyUpsert | crates/quiver-core/src/store.rs:367-375 | Updates the map at the id and keeps the invariant that shadowed rows are tombstoned |
| CollectionStates.CollectionState.ApplyDelete | crates/quiver-core/src/store.rs:380-391 | Removes the id from the map and reports whether it was live |
| CollectionStates.CollectionState.LiveRowCount | crates/quiver-core/src/store.rs:321-331 | Returns the size of the map |
| CollectionStates.CollectionState.LiveLocsSorted | crates/quiver-core/src/store.rs:340-362 | Lists every live id once with its place, in id order |
| CollectionStates.CollectionState.FoldWindow | crates/quiver-core/src/store.rs:1464-1471 | The loop over the segments moves every pending tombstone into its segment's bitmap |
| CollectionStates.CollectionState.Seal | crates/quiver-core/src/store.rs:1460-1482 | Phase C leaves the sealed-up collection and, with the segment of the buffered rows installed, the same map |
| CollectionStates.CollectionState.Replace | crates/quiver-core/src/store.rs:1678-1687 | Installing the merged segment leaves the compacted collection and the same map |
| Replay.ApplyRefines | crates/quiver-core/src/store.rs:1716-1766 | One logged operation acts on buffers, segments and tombstones as it acts on plain maps, and keeps every invariant |
| Replay.ReplayByCollection | crates/quiver-core/src/store.rs:474-506 | Replay treats each collection by itself |
| Replay.ReplayAhead | crates/quiver-core/src/store.rs:1334-1343 | Tombstones that reached disk early stay ahead through any replay and change nothing else |
| Replay.AheadOfDead | crates/quiver-core/src/store.rs:1334-1343 | Early tombstones of rows that are dead anyway do not change the map |
| DiskSteps.HalfAdvancedOk | crates/quiver-core/src/store.rs:1334-1343 | Whichever of the window's tombstones are already in the bitmaps, recovery yields the same state |
| DiskSteps.AppendInStep | crates/quiver-core/src/store.rs:699-738 | A durable append is the operation: recovery of the longer log is the operation applied to memory |
| DiskSteps.SameReadingOk | crates/quiver-core/src/store.rs:1770-1827 | Files and records that recovery does not read do not matter |
| WindowReplay.CompactionReplay | crates/quiver-core/src/store.rs:1557-1691 | The unchanged log replays onto the merged segment to the same buffer and index with no pending tombstone |
| WindowReplay.DirectoryReplays | crates/quiver-core/src/store.rs:1716-1766 | Names and ids after replay depend only on the creations and drops |
| WindowReplay.LogOkAppend | crates/quiver-core/src/store.rs:611-669 | Replaying the log onto a catalog that already contains part of it stays harmless after every new record, so a mid-window manifest is safe |
| WindowReplay.NextIsNew | crates/quiver-core/src/store.rs:443-540 | The next collection id was never used, even for collections created and dropped since the last checkpoint |
| Publishing.UnpointedManifest | crates/quiver-core/src/manifest.rs:142-178 | A manifest file that `CURRENT` does not name is invisible |
| Publishing.CheckpointInStep | crates/quiver-core/src/store.rs:1431-1459 | A manifest whose floor covers the log makes its own catalog the recovered one |
| Publishing.CompactionReplays | crates/quiver-core/src/store.rs:1557-1691 | The whole log tail replays onto the compacted catalog to the compacted memory |
| Publishing.CompactionInStep | crates/quiver-core/src/store.rs:1649-1687 | A manifest that keeps the floor keeps memory and disk in step |
| Checkpoints.DelStep | crates/quiver-core/src/store.rs:1334-1343 | Rewriting one bitmap keeps the disk half advanced and puts that segment's merged bitmap on it |
| Checkpoints.SegStep | crates/quiver-core/src/store.rs:1345-1382 | Writing a new segment is invisible until a manifest lists it |
| Checkpoints.PlanPublishable | crates/quiver-core/src/store.rs:1431-1455 | Once every collection is ready, the manifest describes a loadable store |
| Checkpoints.CheckpointPublishes | crates/quiver-core/src/store.rs:1431-1459 | Publishing a prepared checkpoint keeps the state of memory and covers the log, whatever the log replays to |
| Compactions.MergeRows | crates/quiver-core/src/store.rs:1566-1637 | The merge holds the live sealed rows in id order and nothing else |
| Compactions.CompactionPublishes | crates/quiver-core/src/store.rs:1557-1691 | Both durable steps of a compaction, the segment and the manifest, keep the state |
| Housekeeping.GcStep | crates/quiver-core/src/store.rs:1770-1827 | Deleting an unreferenced file does not change what recovery reads |
| Housekeeping.StartLogStep | crates/quiver-core/src/store.rs:1695-1710 | A new empty log file does not change what recovery reads |
| Housekeeping.RemoveLogStep | crates/quiver-core/src/store.rs:1695-1710 | Deleting a log file with no record past the floor does not change what recovery reads |
| Housekeeping.LogSettled | crates/quiver-core/src/store.rs:1695-1710 | Once the floor covers the log, no file holds a live record |
| Opening.ReplayedRecord | crates/quiver-core/src/store.rs:488-501 | Each record is skipped at or below the floor and applied otherwise, with the largest sequence number and the id allocator tracked |
| Opening.OpenedInStep | crates/quiver-core/src/store.rs:443-540 | A finished replay is exactly the recovered memory with correct allocators |
| Opening.EmptyDiskOk | crates/quiver-core/src/store.rs:443-472 | An empty directory is a well-formed empty store |
| Reads.Scan | crates/quiver-core/src/store.rs:945-956 | The rows read back through the sorted places are the map, once each, in id order |
| Reads.SegmentMatches | crates/quiver-core/src/store.rs:1232-1285 | The index of one segment contributes exactly its live matching rows |
| Reads.MatchIsContents | crates/quiver-core/src/store.rs:1232-1285 | A point matches where it is stored exactly when its current payload matches |
| Reads.MatchingIds | crates/quiver-core/src/store.rs:1232-1285 | Index candidates plus buffered rows are exactly the live ids whose values the filter admits, whatever mix of sealed, dead, shadowed and buffered rows |
| Reads.TailRows | crates/quiver-core/src/store.rs:1172-1199 | The buffered upserts in id order |
| Reads.TailIds | crates/quiver-core/src/store.rs:1172-1199 | Exactly the ids of the rows with a pending tombstone |
| RecoveryTails.CaughtUpIff | crates/quiver-core/src/store.rs:1172-1199 | Deleting, then upserting, the tail catches a snapshot up if and only if every snapshot row the segments no longer hold exists again |
| TailRuns.TailAfter | crates/quiver-core/src/store.rs:1172-1199 | Checkpoint after any script, then run any writes, completed, refused or crashed, with any reopenings: deleting and then upserting the tail turns the checkpointed rows of every collection into its current ones |
| TailRuns.TailStartsEmpty | crates/quiver-core/src/store.rs:1172-1199 | After any script and a checkpoint, the tail of every collection is empty |
| RecoveryTails.TailGrowsByOne | crates/quiver-core/src/store.rs:1172-1199 | One write puts only its own id into the tail |
| TailRuns.TailOver | crates/quiver-core/src/store.rs:1172-1199 | Checkpoint, then run any events at all, compactions and checkpoints included, completed, refused or crashed anywhere: from the rows at the last published checkpoint, after which no event moved the floor, the tail leads to the current rows if and only if every id whose deletion a later compaction or crashed checkpoint took out of the tail exists again |
| TailLoss.CompactionLoses | crates/quiver-core/src/store.rs:1678-1687 | A compaction keeps the map, empties the tail's deletions, and takes exactly those rows out of what the segments hold |
| TailLoss.HalfAdvancedLoses | crates/quiver-core/src/store.rs:1334-1343 | Whatever bitmaps a crash left rewritten, each collection's tail has lost exactly the deletions its segments now hold |
| TailLoss.HalfAdvancedLosesTo | crates/quiver-core/src/store.rs:1334-1343 | The same between memory and the reopened store when the log also holds refused records |
| RecoveryTails.WindowCatchesUp | crates/quiver-core/src/store.rs:1172-1199 | For one collection and the records of a window, the tail turns the checkpointed map into the current one |
| RecoveryTails.CompactionCatchesUp | crates/quiver-core/src/store.rs:1678-1687 | For one collection with a compaction in the window, the tail works if and only if every point whose tombstone it dropped exists again |
| RecoveryTails.HalfAdvancedCatchesUp | crates/quiver-core/src/store.rs:1334-1343 | For one collection after a crash between a bitmap rewrite and the swap, the tail works if and only if every point tombstoned early exists again |
| RecoveryTails.HalfAdvanceForgetsDeletion | crates/quiver-core/src/store.rs:1334-1343 | A concrete deletion whose tombstone reached the bitmap before a crash, after which the tail resurrects the point |
| RecoveryTails.CompactionForgetsDeletion | crates/quiver-core/src/store.rs:1678-1687 | A concrete deletion, then a compaction, after which the tail resurrects the point |
| Replication.Replicate | crates/quiver-core/src/store.rs:561-608 | A fresh follower, whatever its log refuses, given a leader's snapshot and everything it then publishes ends with the leader's names, ids and rows, or stops at the first refused record with the state up to there; it allocates above every id it has |
| Replication.Follow | crates/quiver-core/src/store.rs:586-608 | A fresh follower takes any legal stream up to the first record its log refuses, creations included, is in the state the stream describes up to there, and never reuses a streamed id |
| Streams.CollectionStream | crates/quiver-core/src/store.rs:561-579 | A creation followed by a scan's rows adds exactly that collection to the stream's state |
| Streams.CommandStream | crates/quiver-core/src/store.rs:550-554 | What a leader logs for any command extends its snapshot to a legal stream |
| Streams.PublishedStream | crates/quiver-core/src/store.rs:550-554 | So does what it publishes, nothing when the log refuses a record |
| Doubles.OrderEmbedding | crates/quiver-core/src/sec.rs:84-96 | Keys compare less exactly when the doubles do and are equal exactly when the doubles are, both zeros included, in the sense of section 5.11 of IEEE 754-2019 |
| KeyOrder.PartitionExact | crates/quiver-core/src/sec.rs:167-208 | On ascending keys the partition point separates the keys exactly |
| KeyOrder.Bisect | crates/quiver-core/src/sec.rs:186-200 | Bisection finds the partition point |
| KeyOrder.BinarySearch | crates/quiver-core/src/sec.rs:161-164 | Bisection finds a key's position, or none exactly when it is absent |
| SecondaryIndex.Build | crates/quiver-core/src/sec.rs:220-254 | The index lists for every field each key once, ascending, with exactly the rows that hold it |
| SecondaryIndex.Equals | crates/quiver-core/src/sec.rs:157-165 | Exactly the rows whose key equals the value |
| SecondaryIndex.RangeRows | crates/quiver-core/src/sec.rs:167-208 | Exactly the rows whose key lies between the bounds, each inclusive or not, or absent |
| SecondaryIndex.Query | crates/quiver-core/src/sec.rs:268-290 | Exactly the rows direct evaluation accepts, and none only for a field that is not indexed |
| SecondaryIndex.NumericRangeMeaning | crates/quiver-core/src/sec.rs:296-341 | Direct evaluation of a numeric range is the range of the numbers denoted |
| Filters.MatchesMeans | crates/quiver-core/src/sec.rs:296-341 | Direct evaluation accepts a payload exactly when it holds, at the field's path, a string (or a number that is one) equal to the value, equal to one of the values, or inside the range, each bound optional and inclusive or not; a value or bound of the wrong type, or not a number, admits nothing |
| SecondaryIndex.FieldFound | crates/quiver-core/src/sec.rs:268-272 | The type used is the one the first field with that path declares |
| ByteStrings.LessMeans | crates/quiver-core/src/sec.rs:194-201 | Byte order: the first byte where two strings differ decides, and a proper prefix comes first |
| Doubles.KnownDoubles | crates/quiver-core/src/sec.rs:84-96 | What the patterns of one, minus one, both zeros, the smallest number and the infinities denote |
| Segments.SortedRowsById | crates/quiver-core/src/segment.rs:242-246 | The forward index is a permutation of the rows in ascending id order |
| Segments.FindRow | crates/quiver-core/src/segment.rs:160-182 | Range rejection and binary search find the row carrying the id, or none exactly when there is none |
| SegmentFiles.WriteSegment | crates/quiver-core/src/segment.rs:255-328 | Every column file is the block file of its rows' bytes, with a directory that locates each row |
| SegmentFiles.WriteSegmentStreaming | crates/quiver-core/src/segment.rs:343-431 | The streamed columns are the same bytes, and the running offsets the same directory |
| SegmentFiles.WritersAgree | crates/quiver-core/src/segment.rs:343-431 | Both writers produce identical files |
| SegmentFiles.OpenDir | crates/quiver-core/src/segment.rs:480-535 | Opening gives back every row's offsets and the forward index |
| SegmentFiles.ReadId | crates/quiver-core/src/segment.rs:136-153 | Reads back a row's id; a row outside the segment is an error |
| SegmentFiles.ReadPayload | crates/quiver-core/src/segment.rs:201-211 | Reads back a row's payload; a row outside the segment is an error |
| SegmentFiles.ReadVector | crates/quiver-core/src/segment.rs:191-198 | Reads back a row's vector by its stride; a row outside the segment is an error |
| SegmentFiles.Lookup | crates/quiver-core/src/segment.rs:160-182 | Range rejection and a binary search that reads each candidate id from the file find the row carrying the id, or none exactly when there is none |
| Wal.CutLogReads | crates/quiver-core/src/wal.rs:303-411 | For every entry list and every byte at which the log is cut, header included, reading returns exactly the entries whose frames lie wholly before the cut, and reports a torn tail exactly when the cut is not on a frame boundary |
| WalFormats.ReadIsAuthentic | crates/quiver-core/src/wal.rs:303-411 | Whatever bytes a file holds, reading returns only frames whose stored length and checksum are right and which open, at their own offset in format 2 and at none in format 1; it stops at the first place that holds no such frame and reports it torn unless it is the end |
| WalFormats.CutLegacyReads | crates/quiver-core/src/wal.rs:338-344 | A version-1 file, whose records are sealed to no offset, cut at any byte past its header reads back exactly the records wholly before the cut |
| WalFormats.HeaderBytes | crates/quiver-core/src/wal.rs:136-158 | The sixteen bytes of the header |
| WalFormats.FrameBytes | crates/quiver-core/src/wal.rs:202-228 | A frame is the sealed record's length and checksum, least significant byte first, and the record |
| Wal.SyncedSurvive | crates/quiver-core/src/wal.rs:231-239 | Whatever a crash keeps beyond the synced bytes, no synced record is lost |
| Wal.ScanWhole | crates/quiver-core/src/wal.rs:303-411 | From any frame boundary the scan finds the rest of the whole frames, reproducing the offset bound into each record |
| Wal.ReadAll | crates/quiver-core/src/wal.rs:303-411 | The reader's loop computes the parse the theorems are about, including foreign, legacy and short files |
| Wal.WalWriter.constructor | crates/quiver-core/src/wal.rs:136-156 | A new log is its header |
| Wal.WalWriter.Append | crates/quiver-core/src/wal.rs:202-228 | The file stays the encoding of the entries appended so far; an oversized record changes nothing |
| Wal.WalWriter.Sync | crates/quiver-core/src/wal.rs:231-239 | Everything appended is durable |
| Words.LeRoundTrip | crates/quiver-core/src/page.rs:77-98 | A little-endian word of sufficient width reads back |
| Pages.BuildPage | crates/quiver-core/src/page.rs:108-133 | Succeeds exactly when the body fits, and then fills a page |
| Pages.PageRoundTrip | crates/quiver-core/src/page.rs:151-201 | A built page passes every check and parses back to its header and body |
| Pages.PageAcceptedIff | crates/quiver-core/src/page.rs:151-201 | Any 16 KiB are accepted as a page exactly when magic, version, tag and length are right and the checksum covers the header and the live body |
| Pages.PageBytes | crates/quiver-core/src/page.rs:114-149 | Where each field of a page lies, byte by byte, and the zero padding |
| Blocks.BlockWriter.Write | crates/quiver-core/src/blockfile.rs:72-82 | The file written depends on the bytes so far, not on how they were split |
| Blocks.BlockWriter.FlushPage | crates/quiver-core/src/blockfile.rs:84-93 | Seals the current page under the next page number |
| Blocks.BlockWriter.Finish | crates/quiver-core/src/blockfile.rs:97-107 | The finished file is the block file of all bytes written |
| Blocks.WriteBlocks | crates/quiver-core/src/blockfile.rs:117-127 | The one-shot writer produces the same file |
| Blocks.WrittenPage | crates/quiver-core/src/blockfile.rs:217-235 | Every page of a written file reads back as its chunk, and no other page exists |
| Blocks.ReadRange | crates/quiver-core/src/blockfile.rs:189-214 | Returns exactly the requested slice across page boundaries or an error, never a short read |
| PagedBlobs.Paginate | crates/quiver-core/src/paged.rs:38-63 | The pages are those of the length-prefixed bytes packed tightly |
| PagedBlobs.WritePaged | crates/quiver-core/src/paged.rs:70-91 | The file is the block file of the length-prefixed bytes |
| PagedBlobs.ReadPaged | crates/quiver-core/src/paged.rs:97-151 | A written blob reads back |
| ExtIdColumns.SortedById | crates/quiver-core/src/extidcol.rs:156-160 | Every position once, by ascending id; for distinct ids the forward index |
| ExtIdColumns.Write | crates/quiver-core/src/extidcol.rs:56-76 | The column file holds count, offsets, sorted positions and ids, for any list of ids |
| ExtIdColumns.KnownColumn | crates/quiver-core/src/extidcol.rs:56-76 | The bytes of a two-id column |
| ExtIdColumns.Open | crates/quiver-core/src/extidcol.rs:81-107 | Opening recovers offsets and forward index |
| ExtIdColumns.Read | crates/quiver-core/src/extidcol.rs:122-134 | Returns the id of an internal id; one past the end is an error |
| ExtIdColumns.Lookup | crates/quiver-core/src/extidcol.rs:138-151 | The binary search over ids read from disk returns the position of the id, or none exactly when it is absent |
| Rendezvous.Fnv1a | crates/quiver-cluster/src/lib.rs:518-527 | The loop computes FNV-1a modulo 2^64; `Weights` says what that depends on |
| Weights.EveryByteCounts | crates/quiver-cluster/src/lib.rs:518-527 | Ids that differ in exactly one byte, anywhere, hash differently |
| Weights.BeginningCounts | crates/quiver-cluster/src/lib.rs:518-527 | Two ids that end alike hash alike exactly when what precedes the common end does |
| Weights.WeightTellsApart | crates/quiver-cluster/src/lib.rs:534-541 | Under any one shard, two ids have one weight exactly when their hashes are equal |
| KnownWeights.KnownHashes | crates/quiver-cluster/src/lib.rs:518-527 | The hashes of the empty id and of two one-letter ids |
| KnownWeights.TwoShardsSplit | crates/quiver-cluster/src/lib.rs:529-541 | Shards 0 and 1 split the ids `a` and `c`, whatever their addresses: the four weights, computed in full, decide |
| Rendezvous.FinalizeInjective | crates/quiver-cluster/src/lib.rs:534-541 | The finalizer's xor-shifts and odd multiplications can be undone |
| Rendezvous.ScoreInjective | crates/quiver-cluster/src/lib.rs:534-541 | Two shards never tie for a point |
| ShardMaps.WinnerIs | crates/quiver-cluster/src/lib.rs:456-461 | The owner is the one eligible shard that outweighs every other |
| ShardMaps.OrderIrrelevant | crates/quiver-cluster/src/lib.rs:456-461 | Ownership depends on which shards are eligible, not on their order |
| ShardMaps.RemovalMovesOwn | crates/quiver-cluster/src/lib.rs:374-387 | Removing a shard moves only its own points |
| ShardMaps.DrainMovesOwn | crates/quiver-cluster/src/lib.rs:281-301 | Draining a shard moves only its own points, to where its removal will |
| ShardMaps.JoinMovesToNewcomer | crates/quiver-cluster/src/lib.rs:207-227 | A new shard takes points but moves none between the others |
| ShardMaps.JoinKeepsTarget | crates/quiver-cluster/src/lib.rs:337-350 | Starting a join leaves every get where it was |
| ShardMaps.AbortKeepsTarget | crates/quiver-cluster/src/lib.rs:337-350 | Aborting a join leaves every get where it was |
| ShardMaps.PromoteMovesSlice | crates/quiver-cluster/src/lib.rs:255-262 | A promotion moves exactly the joining shard's slice |
| ShardMaps.DrainKeepsTarget | crates/quiver-cluster/src/lib.rs:337-350 | Starting a drain leaves every get where it was |
| ShardMaps.CancelKeepsTarget | crates/quiver-cluster/src/lib.rs:309-316 | Cancelling a drain leaves every get where it was |
| ShardMaps.DrainMovesSlice | crates/quiver-cluster/src/lib.rs:374-387 | Completing a drain moves exactly the leaving shard's slice, to the owners that received its writes |
| ShardMaps.TwoDrains | crates/quiver-cluster/src/lib.rs:337-350 | With two drains in flight, completing one is safe for a point of its slice if and only if the next shard in rank is not leaving too |
| ShardMaps.TwoDrainsMiss | crates/quiver-cluster/src/lib.rs:337-350 | For any point and any three shards, the best two leaving: its writes went to the third and completing the first drain sends its gets to the second |
| ShardMaps.RankThree | crates/quiver-cluster/src/lib.rs:456-461 | Any three shards can be ranked for a point, since no two tie |
| ShardMaps.RemovalAnchoredIff | crates/quiver-cluster/src/lib.rs:374-387 | A settled shard remains after a removal if and only if there was another one |
| ShardMaps.RemovalCanUnanchor | crates/quiver-cluster/src/lib.rs:374-387 | A concrete removal that leaves only leaving shards |
| ClusterMap.FromShards | crates/quiver-cluster/src/lib.rs:174-191 | Accepts exactly lists with distinct ids and addresses; otherwise reports emptiness, else the first blank address, else the first repeated id |
| ClusterMap.ShardMap.AddShard | crates/quiver-cluster/src/lib.rs:207-227 | Adds the shard at the end under an unused id and raises the version by one, or refuses without a change |
| ClusterMap.ShardMap.AddJoiningShard | crates/quiver-cluster/src/lib.rs:235-246 | Adds a shard that owns but does not serve and raises the version by one, keeping the map well formed |
| ClusterMap.ShardMap.Promote | crates/quiver-cluster/src/lib.rs:255-262 | Ends a join: only the joining list loses the id, the version goes up by one; or refuses a shard that is not joining |
| ClusterMap.ShardMap.MarkLeaving | crates/quiver-cluster/src/lib.rs:281-301 | Starts a drain exactly when the shard is settled and another settled shard exists |
| ClusterMap.ShardMap.CancelLeave | crates/quiver-cluster/src/lib.rs:309-316 | Ends a drain in place, or refuses a shard that is not leaving |
| ClusterMap.ShardMap.RemoveShard | crates/quiver-cluster/src/lib.rs:374-387 | Removes exactly that shard from every list and raises the version by one, unless it is unknown or the last |
| ClusterMap.Partition | crates/quiver-cluster/src/lib.rs:469-512 | The grouping pass emits each shard's items in input order, empty groups left out |
| ClusterMap.PartitionConserves | crates/quiver-cluster/src/lib.rs:469-485 | A batch is split without loss or duplication |
| ClusterMap.DonorsConserve | crates/quiver-cluster/src/lib.rs:493-512 | The dual writes are exactly the items whose point is migrating, once each |
| Migration.GetsReturnLastWrite | crates/quiver-server/src/cluster.rs:523-535 | Through any sequence of joins, drains, aborts and flips, one at a time and each started on a clean slice, with client writes, copies from every source and presence-checked drops between them in any order, every get returns the last write; a flip waits only for the pass to have visited everything |
| Migration.StepServes | crates/quiver-server/src/cluster.rs:434-458 | One step changes what a get returns only by writing that point |
| Migration.DropRemoves | crates/quiver-server/src/coordinator.rs:369-412 | A drop deletes the one copy exactly when the owner holds the point, and touches nothing else |
| Migration.SequentialStep | crates/quiver-server/src/coordinator.rs:417-546 | Every allowed step keeps at most one shard migrating and a settled one to serve |
| Migration.FineStep | crates/quiver-server/src/coordinator.rs:311-546 | Every allowed step keeps: no stale copy where the pass would pick one up, and each point either agrees on owner and get target or its copy is still owed |
| Migration.PassDone | crates/quiver-server/src/coordinator.rs:417-546 | When the pass owes nothing, owner and get target agree on every point, so the flip loses nothing |
| CopyPasses.CopyPassIff | crates/quiver-server/src/coordinator.rs:311-359 | A pass ends with the copies agreeing and every get returning the last client write, whatever clients write meanwhile, if and only if it starts on a clean slice: no source but the one gets read holds a point it would send, and the destination holds nothing but what gets return |
| Completions.JoinCompletes | crates/quiver-server/src/coordinator.rs:417-481 | From any tidy cluster at rest, some run lets an empty newcomer join: it ends among the shards with nothing migrating, and every get returns what it returned before |
| Completions.DrainCompletes | crates/quiver-server/src/coordinator.rs:492-546 | And some run drains any shard that leaves a settled one behind: exactly that shard is gone, and every get returns what it returned before |
| CopyPasses.CopyPoints | crates/quiver-server/src/coordinator.rs:311-359 | Copying one source point by point leaves at each destination what was there or else what that source holds, and changes nothing else |
| CopyPasses.RunPass | crates/quiver-server/src/coordinator.rs:417-454 | The pass over all sources in map order leaves at each destination what was there or else what the first source to hold the point holds |
| CopyPasses.QuietPassIff | crates/quiver-server/src/coordinator.rs:417-530 | With no write in between, the pass ends well if and only if what each destination would receive is current |
| CopyPasses.TidyIsClean | crates/quiver-server/src/coordinator.rs:583-606 | A cluster whose copies all lie on owners starts any migration on a clean slice |
| CopyPasses.TidyStep | crates/quiver-server/src/coordinator.rs:552-606 | Only a promotion, until its drops are done, and a cancelled drain leave copies elsewhere |
| CopyPasses.CancelledDrain | crates/quiver-server/src/coordinator.rs:567-574 | A concrete run: drain, copy a point, cancel, write another value, grow; the pass copies the leftover, skips the current value as present, and after the flip a get returns the old value |
| CopyPasses.DrainRevives | crates/quiver-server/src/coordinator.rs:492-530 | A concrete drain that brings a deleted point back from a leftover on the leaving shard |
| CopyPasses.CopyRace | crates/quiver-server/src/coordinator.rs:300-359 | If client writes land between the copy's read and its store, the copies agree if and only if the last of them wrote the value read |
| CopyPasses.CopyRaceLoses | crates/quiver-server/src/coordinator.rs:307-310 | A concrete clean join in which one write between read and store is lost on the new owner |
| CopyPasses.PagingIff | crates/quiver-server/src/coordinator.rs:311-359 | The remaining pages visit a point if and only if it does not lie below the offset already passed |
| CopyPasses.PagingSkips | crates/quiver-server/src/coordinator.rs:311-359 | One deletion after the first page and the next point is never visited |
| CopyPasses.RestOfPages | crates/quiver-server/src/coordinator.rs:311-359 | The loop after the first page visits a point if and only if some later page of the list as it is by then holds it |
| CopyPasses.PagedJoinLoses | crates/quiver-server/src/coordinator.rs:417-461 | The cluster run: a join copies the first page of a shard, its first point is deleted, the loop copies the other pages, none of which holds the point that followed the first page, and the map flips; a get then finds nothing of that point, which nobody deleted, for any rows and page size |
| Gather.MergeIsGlobal | crates/quiver-cluster/src/lib.rs:550-570 | Merging each shard's best k gives a best k of all points, ties included, for both orderings: sorted, of the right length, nothing omitted strictly better |
| Floats.TotalOrder | crates/quiver-cluster/src/lib.rs:560-567 | Scores rank exactly as the numbers their binary32 patterns denote, and minus zero below plus zero |
| Floats.NaNOrder | crates/quiver-cluster/src/lib.rs:560-567 | A pattern that is no number ranks beyond the infinity of its sign |
| Floats.KnownFloats | crates/quiver-cluster/src/lib.rs:560-567 | What the patterns of one, minus one, two, both zeros, the smallest number and the infinities denote |
| Floats.MergeBestNumbers | crates/quiver-cluster/src/lib.rs:543-570 | The merge returns min(k, all) of the hits on all shards, in order of their numbers, and no hit left out has a larger number than one returned when larger is better, nor a smaller one otherwise |
| Gather.MergeCovers | crates/quiver-cluster/src/lib.rs:550-570 | The same from weaker lists, as long as whatever a list omits is no better than k of its members |
| IdMaps.IdMap.FromBase | crates/quiver-embed/src/idmap.rs:47-54 | A fresh map over a column without duplicates resolves exactly its ids |
| IdMaps.IdMap.Restore | crates/quiver-embed/src/idmap.rs:58-71 | Restoring from a column and a tail rebuilds an overlay that names the newest copy of every id |
| IdMaps.IdMap.Ext | crates/quiver-embed/src/idmap.rs:100-112 | The external id of an internal one, across column and tail |
| IdMaps.IdMap.Internal | crates/quiver-embed/src/idmap.rs:116-124 | The newest internal id of an external one |
| IdMaps.IdMap.Push | crates/quiver-embed/src/idmap.rs:127-132 | Appends a newest copy under the next internal id |
| Mvcc.UpsertRepresents | crates/quiver-embed/src/mvcc.rs:89-120 | Tombstoning the old copy and appending the new one is a map update: live internal ids stay one to one with the ids |
| Mvcc.DeleteRepresents | crates/quiver-embed/src/mvcc.rs:124-134 | A tombstone is a map removal although the id map keeps its entry |
| Mvcc.RebuiltRepresents | crates/quiver-embed/src/mvcc.rs:48-60 | A rebuilt base with an empty overlay is the map it was built from |
| Mvcc.UpsertAllSplits | crates/quiver-embed/src/mvcc.rs:89-120 | A batch equals its points one by one, and any split of it |
| Mvcc.Handle.PublishBase | crates/quiver-embed/src/mvcc.rs:48-60 | The published base covers every current internal id |
| Mvcc.Handle.UpsertBatch | crates/quiver-embed/src/mvcc.rs:89-120 | Id map and overlay advance in lockstep, one snapshot is published, and it represents the updated map |
| Mvcc.RebuildThresholdIs | crates/quiver-embed/src/mvcc.rs:62-67 | The rebuild threshold is a fifth of the base and never below 1024 |
| Mvcc.Handle.Delete | crates/quiver-embed/src/mvcc.rs:124-134 | The published snapshot represents the map without the id; an unknown id publishes nothing |
| Mvcc.ExtId | crates/quiver-embed/src/snapshot.rs:76-94 | Column, tail and overlay together resolve every internal id |
| Mvcc.Search | crates/quiver-embed/src/snapshot.rs:108-169 | Panics exactly when base points are tombstoned and k or ef exceeds the base length; otherwise returns the resolved merge of surviving base hits and overlay |
| Mvcc.SearchIsSound | crates/quiver-embed/src/snapshot.rs:108-169 | Whatever live base points the index returns, the result is sorted, holds only ids of the map, and names none twice |
| Nearest.NearestRows | crates/quiver-embed/src/snapshot.rs:108-169 | If the index answers exactly and k of its hits survive, or it returned all it holds, the result is a best k of the collection's rows: each with its own distance, sorted, of the right length, no omitted row strictly nearer |
| Nearest.SearchRows | crates/quiver-embed/src/snapshot.rs:108-169 | The same of what the search method returns, which panics exactly when the clamp fails |
| Nearest.SoundRows | crates/quiver-embed/src/snapshot.rs:108-169 | Whatever live base points the index returns at their distances, every result is a row at its own distance, none twice, nearest first |
| Nearest.LiveIsRows | crates/quiver-embed/src/snapshot.rs:138-154 | The surviving base points and the live overlay entries are, under their names, exactly the rows of the collection |
| Mvcc.SearchIsExact | crates/quiver-embed/src/snapshot.rs:108-169 | Over internal ids: with an exact index and enough survivors the merge is a best k of the live points |
| Mvcc.DeletedPointPanics | crates/quiver-embed/src/snapshot.rs:129-134 | A concrete snapshot, one point deleted since the rebuild, on which a search for ten panics |
| Mvcc.ResultsAreLive | crates/quiver-embed/src/snapshot.rs:155-168 | Every candidate resolves to its own id, in order |
| Widening.AlwaysExactIff | crates/quiver-embed/src/snapshot.rs:112-137 | With an exact index, the search is exact for all distances if and only if the index is asked for k more than the overlay hides, for everything, or nothing in the base is live |
| Widening.WideningIsExactIff | crates/quiver-embed/src/snapshot.rs:124-137 | On a freshly rebuilt base of n points with t hidden, asking for the live fraction is always enough if and only if t = 0 or k*t > (t-1)*(n-t) |
| Widening.WideningCanMiss | crates/quiver-embed/src/snapshot.rs:124-137 | A concrete snapshot on which an exact index and the widened search miss the nearest live point |
| Postcard.IntRoundTrip | crates/quiver-core/src/descriptor.rs:249-256 | A variable-length integer reads back and leaves the rest |
| Postcard.StringRoundTrip | crates/quiver-core/src/descriptor.rs:249-256 | A length-prefixed string reads back and leaves the rest |
| DescriptorCodec.FieldsRoundTrip | crates/quiver-core/src/descriptor.rs:249-256 | The filterable fields read back and leave the rest |
| DescriptorCodec.OwnTail | crates/quiver-core/src/descriptor.rs:249-256 | Every layout's reader recovers what that layout writes |
| DescriptorCodec.RunsOut | crates/quiver-core/src/descriptor.rs:284-391 | A reader that wants more fields than an older layout has runs out of bytes |
| DescriptorCodec.CurrentOnOlder | crates/quiver-core/src/descriptor.rs:249-256 | The current reader accepts an older encoding if and only if its one filterable path is empty, or a single zero byte where two bytes follow |
| DescriptorCodec.DecodeRecovers | crates/quiver-core/src/descriptor.rs:249-256 | For all six layouts, decoding recovers the descriptor if and only if the encoding is not one of those shapes |
| DescriptorCodec.LayoutDefaults | crates/quiver-core/src/descriptor.rs:249-418 | What each older layout brings back, field by field: what it stored, and the default of every field it did not know |
| DescriptorCodec.KnownBytes | crates/quiver-core/src/descriptor.rs:249-418 | The bytes of one descriptor in all six layouts |
| Euclid.CauchySchwarz | crates/quiver-crypto/src/dcpe.rs:409-514 | The inequality the distance bounds rest on, in every dimension |
| Dcpe.PermutationIs | crates/quiver-crypto/src/dcpe.rs:479-496 | The keyed Fisher-Yates shuffle yields a permutation for every key and dimension |
| Dcpe.Permutation | crates/quiver-crypto/src/dcpe.rs:479-496 | The in-place loop computes the keyed permutation; `Shuffles` says how the key decides it |
| Shuffles.LastIsFirstDraw | crates/quiver-crypto/src/dcpe.rs:479-496 | The last position of the permutation holds the first keystream word modulo the dimension |
| Shuffles.SamePermutationIff | crates/quiver-crypto/src/dcpe.rs:479-496 | Two keys permute d components alike if and only if their k-th words agree modulo d - k, for every k below d - 1 |
| Shuffles.EveryPermutationArises | crates/quiver-crypto/src/dcpe.rs:479-496 | Every permutation comes out of some keystream |
| Dcpe.Unshuffle | crates/quiver-crypto/src/dcpe.rs:445-452 | Puts every component back where it came from |
| Dcpe.Decrypt | crates/quiver-crypto/src/dcpe.rs:385-405 | A sealed vector decrypts to the vector it was made from; an empty one or a wrong tag is refused |
| Dcpe.PerturbationBound | crates/quiver-crypto/src/dcpe.rs:502-514 | A perturbation is no longer than a quarter of the scale times the approximation factor |
| Dcpe.ShuffleKeepsDistance | crates/quiver-crypto/src/dcpe.rs:418-422 | The shuffle preserves every distance |
| Dcpe.CipherDistance | crates/quiver-crypto/src/dcpe.rs:409-415 | A ciphertext distance lies within half the scale times the factor of the scaled plaintext distance |
| Dcpe.ComparisonPreserved | crates/quiver-crypto/src/dcpe.rs:342-356 | Whenever one neighbour is closer than another by more than the approximation factor, the ciphertexts keep that strict order, whatever initialisation vectors were drawn |
| Ciphertexts.ComponentIs | crates/quiver-crypto/src/dcpe.rs:409-440 | Each ciphertext component is the secret scale times the component the permutation puts there, shifted and rescaled if a normalisation was fitted, plus its share of the noise |
| Ciphertexts.NoiseIs | crates/quiver-crypto/src/dcpe.rs:502-516 | The noise lies along the drawn direction and its length is exactly the drawn fraction of a quarter of the scale times the factor |
| Ciphertexts.SameCiphertextIff | crates/quiver-crypto/src/dcpe.rs:342-356 | Encrypting one vector twice gives one ciphertext exactly when the noise agrees |
| Ciphertexts.EncryptRefusesIff | crates/quiver-crypto/src/dcpe.rs:342-356 | Encryption fails exactly on the empty vector and on a dimension other than the fitted one |

## Left out

- Encryption keys: the page and record codec is an abstract seal/open pair that undoes itself at the same position. The crash theorem is for one codec; per-collection keys, `shred_collection` and nonces are not modelled.
- Checksums: CRC32C is an uninterpreted function, so undetected collisions are not excluded and detection of a given corruption is not stated.
- File-system errors, `fsync` of directories, temporary files and partial writes inside one step: a step completes or the crash comes before it. Torn log frames are covered by `Wal`, at the byte level.
- Stores.Store.UpsertBatch: the store's log is a sequence of whole records, and which of them are too large is a predicate of the record; `TornLogs` ties both to the bytes of the newest log file and the sealed size. Segment files at the byte level are in `SegmentFiles` and, under point reads, in `FileReads`; scans, filters and merges read the segments as values.
- Stores.Store.AdvanceTombstones: bitmaps are rewritten in segment order, where the source follows a hash map; `DiskSteps.HalfAdvancedOk` covers every subset and so every order.
- Stores.Store.ApplyReplicated: requires an operation its log may take (an id not used before under a free name, or a live collection to drop), which `Replication.Follow` establishes for every legal stream. Commands on a store whose allocator a refused creation has raised are not modelled.
- Replication.Follow: a follower stops before a refused creation is handed over, so that its allocator has not passed the refused id; the source's has, which the promised bound allows.
- Stores.Store.constructor: a record that survived a crash without having been synced counts as durable once the store is open. `LaterLosses.RunAndLose` says what its later loss does after one crash and a window of completed writes; a compaction in that window, and an opening of the resulting disk when two collections claim one name on it, are not modelled.
- Persistence.UpsertLasts: crashes as in `Runs`, so what survived one counts as durable once the store is open; `LaterLosses` has what a power failure may still take. The same holds for the other theorems of `Persistence`.
- Persistence.DeleteLasts: is about deletes that found the point. One that found none logs nothing, and a record of a refused batch for that id, if there is one, is replayed as `Residues.ReopenedIs` says.
- Stores.Store.RecoveryTail: the order of the deleted ids is not stated, since the source takes it from a hash map.
- TornLogs.StepTorn: the log files before the newest one, and the manifest and segment files, are whole; only the newest log file is cut. The size of a sealed record does not depend on its position.
- Index snapshot files, their references in the manifest and their garbage collection; sequence-number ranges and row counts in segment references.
- Log file names: the position in the list stands for the number in the name.
- The upgrade of version-1 manifests, which fills in an absent index snapshot, and the rejection of manifests from later versions.
- `prepare_create_collection`, `prepare_upsert` and `prepare_delete`, which build a log record without appending it; `capture_vector_source` and `scan_payloads`, which read one column of what `Scan` reads; `add_replica`, `read_url` and `read_order`, which choose among a shard's replicas; the trimming of addresses.
- JSON: a payload carries its raw bytes and its field lookup. Vectors in the engine are opaque 4-byte patterns.
- UTF-8: ids are byte strings; the descriptor theorems hold for every text predicate.
- Pages.BuildPage: the page buffer, written in place by the source, is modelled as a value.
- SegmentFiles.WriteSegment: the vector, payload, id and directory files; the secondary-index file is a paged blob (`PagedBlobs`) of what `SecondaryIndex.Build` computes and is not part of `Files`.
- SegmentFiles.WriteSegmentStreaming: the same four files.
- FileReads.GetFromFiles: the vectors of a segment have the collection's dimension, which the write path checks and `apply_replicated` does not, and the columns are below 2^64 bytes. Tombstone bitmaps are read from memory, as in the source.
- SegmentFiles.OpenDir: the directory's serialisation is an abstract pair, its format version is not tested, the bitmap and index files are not opened, and files are below 2^64 bytes.
- Roaring bitmaps are finite sets of row numbers.
- Migration.GetsReturnLastWrite: at most one shard migrates at a time, its drops included, only a migrating shard is removed, a migration starts on a clean slice and its pass visits every point the sources held at the start. `ShardMaps.TwoDrains`, `ShardMaps.RemovalAnchoredIff`, `CopyPasses.CopyPassIff` and `CopyPasses.PagingIff` say exactly what depends on these. Network failures and retries of the router and coordinator are not modelled.
- CopyPasses.CopyPassIff: the copy of one point is one step; `CopyPasses.CopyRace` treats the copy that is not.
- Widening.WideningIsExactIff: the product of k and the base length fits in 64 bits, so that the saturating multiplication does not saturate. Distances are arbitrary, so it is a statement about all queries, not about one geometry.
- Graph and quantised indexes: a base search is a function of the caller's choosing.
- Dcpe.Decrypt: over the reals, so rounding to 32-bit floats is not modelled; key derivation, the key stream and the normal sampling are functions of the key and the initialisation vector, with the radius fraction between 0 and 1.
- Threads: snapshots are values and publication is one assignment; memory ordering is not modelled.
- The command line, servers, importers, SDKs and benchmarks.
