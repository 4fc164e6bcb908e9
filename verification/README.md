# PartForge in Dafny

A model of PartForge, the distributed rewriter of ClickHouse parts, and proofs about its core: the part-state protocol in
Postgres, the chunked insert, the resolution of incremental backups, the tar reader, the reset planner, the pause before a
freeze and the table renaming. `dafny verify dfyconfig.toml` checks the whole project.

## What is modelled

**The part-state protocol** (`PartState`, `Protocol`, `Store`, `Lifecycle`, `Finalization`, `Claims`, `Lineage`,
`Coverage`, `History`, `Drain`, `Sums`, `Ordering`). `Protocol` is a transition system: a table maps (job, part id) to a
part, each committed transaction is one event, and a run is any interleaving of the events of any number of workers,
importers and operators. Rows that other transactions hold locked are an arbitrary set `hidden` of a claim, release or
finalization. A worker may present any batch it was ever granted, however late and however often, under any worker id.
`Store` is the same protocol as the Go code carries it out: a class whose rows hold the JSON part and the scheduling
columns, with methods that lock rows in turn, patch columns or recompute them, and roll back; every method is proved to
do exactly what its event says (`Did`), on every argument the event covers, and to leave every column equal to the value
the part determines (`Valid`). `Lifecycle`, `Finalization` and `Claims` say on the rows' own fields, without the derived
columns, what each transaction changes and exactly which rows it takes. `Lineage`, `Coverage`, `History` and `Drain`
state what every run keeps.

**Reset planning** (`ResetLineage`): the depth-first lineage check as a class with its two maps, proved to accept exactly the
lineages that are sound as the code reads ids, compared with the ids as meant, and linked to the protocol.

**Chunked insert** (`InsertSettings`, `InsertChunks`, `ChunkedInsert`): a table is its active parts, a part is a multiset of
rows of one partition, the SELECT is any row-local function, a filter reads row offsets that start over in every source part.
Every statement may fail; a failed insert leaves any parts.

**Backup chains** (`BackupIndex`, `BackupChain`): index entries after XML decoding, the streaming group-by, the forward and
backward passes, against the recursive meaning "base content, then own object", and that against the files' bytes.

**Tar** (`TarNumbers`, `PaxRecords`, `TarReader`, `TarWriter`, `TarMerge`): the reader over arbitrary bytes with int64
offsets, and a writer modelled on the "ustar Interchange Format" and "pax Extended Header" sections of the pax utility in
IEEE Std 1003.1-2017.

**Merges** (`MergeScan`, `Snapshot`): the scan for parts that can still merge, and the compactor from the start of the
memory-recovery observer to the freeze. Background merges, each command of the observer and a shutdown are steps that happen
at any moment; joining the observer is a step that ends only when the observer has.

**DDL** (`Ddl`): the cursor parser and the identifier printer.

## Assumptions

Rows of one job share bucket, destination and build. Byte sums do not overflow uint64. Part ids are trimmed; input ids and
superseding ids may be padded in `ResetLineage`. The finalization transaction is one step, and so is each row of a heartbeat.
Times are integers; a stamp the code stores as "" is `None`. Row-local SELECT, as README.md:13 of the repository requires.

## Findings

- `validateResetLineage` trims input ids in its first check, and neither in the comparison with superseding parts nor in its
  search. A cycle through padded ids is accepted (`ResetLineage.PaddedCycleIsMissed`) and a sound lineage whose superseded part
  is listed in padded form is rejected (`ResetLineage.PaddedInputIsRejected`). `ResetLineage.AcceptedExactly`,
  `WronglyRejectedExactly` and `WronglyAcceptedExactly` say exactly which lineages are misjudged.
- `ForTable` followed by `TableName` gives back other names exactly when the text after the replaced name starts with a
  backtick (`Ddl.RenameRoundTrips`), which needs a name without a database (`Ddl.QualifiedNamesRoundTrip`) and does happen
  (`Ddl.BacktickAfterName`).
- The tar planner's header check adds 512 without a guard. The sum wraps only within the last 512 bytes of int64, where the
  following read fails (`TarReader.WrapIsHarmless`).
- Joining the observer and draining running merges are both necessary before a freeze
  (`Snapshot.StableExactlyWhenNobodyRestarts`, `Snapshot.RunningMergeCanFinish`).
- The check for a single source part is not what makes a chunked insert exactly-once: source merges are stopped
  (internal/rewrite/processor.go:575), and over any number of unchanging parts the offset ranges select every row once
  (`ChunkedInsert.ChunksInsertEveryRow`). It is what makes a chunk hold the rows it is reported to hold
  (`ChunkedInsert.OffsetsOfOnePart`, `ChunkedInsert.LateRangeIsEmpty`).

## Model

| member | source | states |
|---|---|---|
| Store.PartWriteValues | internal/state/postgres.go:457-503 | the pass over the partition counts computes exactly the scheduling columns the part determines |
| Store.StateStore.UpdatePart | internal/state/postgres.go:543-570 | one locked row is changed if it exists and meets the condition; all columns are rewritten; otherwise nothing changes |
| Store.StateStore.CreatePart | internal/state/postgres.go:631-660 | a complete part is inserted exactly if its id is new and a reused source part is an original with the same bucket and key; for a fresh original this is the protocol's creation |
| Store.StateStore.MarkCompactReady | internal/state/postgres.go:662-704 | the owner's finished rewrite opens the artifact, or finishes it when the output is empty; any failed check changes nothing |
| Store.StateStore.UpdateRewriteProgress | internal/state/postgres.go:1320-1387 | the incremental patch leaves the row and all its columns as a full write would |
| Store.RewriteProgressColumns | internal/state/postgres.go:1364-1377 | patching five columns and the update stamp equals recomputing every column of the patched part |
| Store.StateStore.UpdateCompactProgress | internal/state/postgres.go:989-1005 | one conditional statement keeps or reclaims a row, patches its progress and reports a pending finalization request |
| Store.HeartbeatColumns | internal/state/postgres.go:991-1005 | the heartbeat's column patch equals recomputing every column, and never touches a finalization request |
| Store.StateStore.HeartbeatCompactBatch | internal/state/postgres.go:974-987 | each row is beaten in its own transaction on whatever table other transactions left in between, the first refusal ends the beat, and a request is reported exactly if some beaten row carries one |
| Store.UndisturbedBeats | internal/state/postgres.go:974-987 | with nothing in between, the rows up to the first refusal are beaten in order and the rest untouched |
| Store.StateStore.ClaimNextReady | internal/state/postgres.go:706-740 | claims the largest, oldest ready row nobody has locked, if there is one |
| Store.StateStore.ClaimNormalizedSiblings | internal/state/postgres.go:793-818 | picks an anchor and accumulates its smallest siblings until the byte cap, giving exactly the sibling selection |
| Store.StateStore.ClaimNextCompactBatch | internal/state/postgres.go:742-791 | claims one fragmented artifact, else a sibling group, and returns the batch it saved, or changes nothing |
| Store.CompactBatchFromParts | internal/state/postgres.go:1164-1184 | the loop yields the summed statistics and one more than the largest input generation |
| Claims.ReadyClaimExactly | internal/state/postgres.go:706-708 | a rewrite claim takes the unlocked ready row that comes first by largest source, age and key |
| Claims.FragmentedClaimExactly | internal/state/postgres.go:840-879 | with an unlocked fragmented row in an open window, a claim takes the one that comes first by part count, age and key |
| Claims.SiblingClaimExactly | internal/state/postgres.go:793-818 | otherwise the smallest row with a partner decides the partition, and its free rows are taken from the smallest up to both caps, or nothing if fewer than two fit |
| Claims.NothingToClaim | internal/state/postgres.go:758-768 | with neither kind of row on offer a claim takes nothing |
| Claims.ClaimTakesSelection | internal/state/postgres.go:742-791 | a claim is refused exactly for an unnamed worker, a cap above 99 or rows of several destinations, and else takes exactly the selected rows |
| Lifecycle.RowsChange | internal/state/postgres.go:583-629 | every transaction changes exactly its rows, each in exactly the fields its step names, and nothing else of the table |
| Lifecycle.CreationExactly | internal/state/postgres.go:631-660 | a creation goes through exactly for a new, fully named part nobody has worked on, reusing at most another original's source with the same bucket and key |
| Lifecycle.OneRowGuards | internal/state/postgres.go:2129-2165 | a transaction on one row goes through exactly on a row in the right status, an owner's only for the owner |
| Lifecycle.ReleaseGuards | internal/state/postgres.go:891-906 | a batch is released exactly while every row is the worker's, or open and nobody's |
| Lifecycle.FailureGuards | internal/state/postgres.go:928-958 | a batch fails exactly while it lies in one destination and every row is compacting for the worker |
| Lifecycle.CompletionGuards | internal/state/postgres.go:1096-1122 | a completion goes through exactly for a named worker, a new output id, at most 99 parts of one destination, and rows still the worker's, or open and nobody's |
| Lifecycle.CompletionInserts | internal/state/postgres.go:1119-1153 | a completion adds exactly its output: the batch's ids as inputs, ready since its latest input, finished exactly if some input row had a request pending |
| Lifecycle.LatestReady | cmd/partforge/main.go:2760-2775 | an output waits since the latest of its inputs, each by its ready stamp, else its progress, else its update |
| Store.StateStore.ReleaseCompactBatch | internal/state/postgres.go:891-926 | all rows are released together or none; each becomes FINISHED exactly if the caller asked for it or it had a request pending, else COMPACT_READY, with its claim gone and its artifact and ready stamp kept |
| Store.StateStore.MarkCompactBatchFailed | internal/state/postgres.go:928-972 | all owned rows fail together or none, dropping any pending request |
| Store.StateStore.RequestCompactFinalization | internal/state/postgres.go:1007-1038 | succeeds exactly if every named row is open and none that finishes at once is named twice; then it is the protocol's request for the set of rows, otherwise nothing changes |
| Store.StateStore.ReleaseStaleCompactingParts | internal/state/maintenance.go:44-78 | exactly the unlocked rows whose stale column has passed are released and counted; each becomes FINISHED exactly if it had a request pending, else COMPACT_READY |
| Store.StateStore.CompleteCompaction | internal/state/postgres.go:1096-1153 | inputs are superseded one by one and the output inserted, finished if any input had a request; any failed check rolls all back |
| Store.SupersedeInputs | internal/state/postgres.go:1123-1145 | the loop supersedes exactly the batch and marks the output finished exactly if some input carried a request |
| Store.StateStore.FinalizeCompactReady | internal/state/maintenance.go:114-182 | the per-job statements together finish exactly the open rows that the rule on the rows lets finish, patching three columns, or report a missing deadline and change nothing |
| Store.SameJobSameKeys | internal/state/maintenance.go:153-175 | what one job's statement selects does not depend on any other job's rows |
| Finalization.FinalizableExactly | internal/state/maintenance.go:148-175 | an open row that is not one physical part may finish exactly in a job at rest whose deadline passed or, without a window, has no fragmented open row; a single-part row also once the deadline passed, with batching off, or when nothing is being rewritten, no other compacting or fragmented row names its partition and no open partner fits the cap |
| Finalization.PassSucceedsExactly | internal/state/maintenance.go:98-152 | the pass is refused exactly for an empty job name or a job in scope at rest whose originals carry no stamp |
| Finalization.FinishesExactly | internal/state/maintenance.go:139-175 | a pass finishes exactly the unlocked open rows in scope that may finish, and leaves every other row as it is |
| Store.PatchedIsSaved | internal/state/maintenance.go:164-175 | the bulk patch of three columns equals recomputing every column of the finished part |
| Store.StateStore.RetryFailedPart | internal/state/postgres.go:1863-1898 | a row that is failed returns to the status the caller's snapshot calls for, which is what is reported; where the snapshot agrees on status and target this is the protocol's retry |
| PartState.ColumnReadsPartition | internal/state/migrations.go:66-68 | where no partition name is spaces alone, what the generated column may read is exactly the one partition the Go code counts |
| History.RunsKeepCleanNames | internal/state/postgres.go:200-215 | in every row of every run no partition name is spaces alone, so the column and the Go code agree |
| Protocol.First | internal/state/postgres.go:706-708 | ORDER BY and LIMIT 1 return the one row that precedes all other candidates |
| Protocol.LastOriginalReady | internal/state/maintenance.go:80-93 | the deadline's base is the latest compact-ready stamp of the job's originals |
| Lineage.RunsKeepInv | internal/state/postgres.go:1096-1153 | in every state of every run lineage is a forest, inputs and superseding parts name each other, generations are one above the largest input, generated rows are never ready or in progress, and every granted batch still describes its rows |
| Lineage.CompleteKeepsForest | internal/state/postgres.go:1123-1151 | superseding a batch and inserting its output keeps the lineage forest |
| Coverage.LeafMultiplicity | internal/state/postgres.go:1133-1135 | expanding a row's inputs meets an original once if the row is on the original's chain of superseding parts, and never otherwise |
| Coverage.EveryOriginalCoveredOnce | internal/state/postgres.go:1096-1153 | in every state of every run each original of a job is held, once, by exactly one row that is not superseded |
| Coverage.NothingImportedTwice | internal/state/postgres.go:1833-1839 | two live rows of a job never hold the same original, so no import repeats one |
| History.LineageIsWriteOnce | internal/state/postgres.go:1096-1153 | along every run rows persist, inputs and generations never change, and a superseded row never changes again |
| History.FinalizationIsHonoured | internal/state/postgres.go:891-926 | along every run in which no failure report for it is accepted, however many are refused, a requested row keeps the request, is finished, or was absorbed by an artifact that is finished |
| History.RetryUndoesFailure | internal/state/postgres.go:1890-1898 | failing and retrying returns a rewrite to the start, a compaction to open and an import to finished, with the artifact unchanged |
| History.LeaseNeverExtends | internal/state/postgres.go:989-1005 | along every run in which a row stays compacting its claim time never moves and its stale stamp never passes it |
| Claims.ClaimOrders | internal/state/postgres.go:706-708 | the three rankings put the largest source, the most parts and the fewest bytes first, the oldest on a tie |
| Claims.OutputReadySinceLatest | cmd/partforge/main.go:2760-2775 | an output's ready stamp is the latest of its inputs' |
| Claims.TakeFittingIsLongest | internal/state/postgres.go:806-817 | the accumulation takes a prefix exactly if its bytes fit the cap |
| Claims.SiblingsAreMaximal | internal/state/postgres.go:793-818 | the selection respects both caps and is as large as any sibling set within them |
| Claims.NormalizedBatch | internal/state/postgres.go:742-818 | a normalized batch is one job and one partition, within both caps, of largest cardinality |
| Claims.AnchorGetsBatch | internal/state/postgres.go:840-886 | with nothing locked by others, any anchor yields at least two rows |
| Drain.OpenUntilExpired | internal/state/postgres.go:840-879 | the claim filter and the deadline test are exact complements while the job has open rows |
| Drain.NoStuckArtifact | internal/state/maintenance.go:114-182 | in every state of every run, each open row of a quiet job has a row of its own job that claims look for and any worker's claim then takes rows, or is itself finished by the next finalization, or waits for its job's deadline, which exists and has not passed |
| Drain.NormalizedMoves | internal/state/maintenance.go:153-163 | in a quiet job with nothing fragmented, a normalized row within the window anchors a claim or is finalizable |
| Drain.DeadlineFinishesAll | internal/state/maintenance.go:139-163 | at the deadline the finalizer takes every open row that nobody has locked |
| Drain.DeadlineStays | internal/state/maintenance.go:80-93 | along every run in which no rewrite of the job is created or finished, its deadline stays the same |
| Drain.CompleteMeasure | cmd/partforge/main.go:2563-2587 | a completion that reduced the physical parts lowers the measure of outstanding work |
| Drain.DrainBound | cmd/partforge/main.go:2532-2587 | in any run of claims, reduced completions, no-reduction finishes and finalizations, the number of moves is at most the measure at the start |
| ResetLineage.Search.Visit | cmd/partforge/main.go:6166-6189 | visiting ends on every graph; it reports a cycle only if there is one and otherwise extends a topological order |
| ResetLineage.FinishedMeansAcyclic | cmd/partforge/main.go:6166-6195 | a topological order that holds every generated part excludes cycles |
| ResetLineage.CheckInputs | cmd/partforge/main.go:6126-6149 | accepts exactly if trimmed inputs exist, are distinct, are not the part itself and are superseded by nothing else |
| ResetLineage.ValidateResetLineage | cmd/partforge/main.go:6125-6195 | accepts exactly the lineages with sound links, agreeing supersession and no cycle |
| ResetLineage.BuildResetPlan | cmd/partforge/main.go:6056-6119 | a plan exists exactly for a resettable snapshot, and lists all its originals and generated parts sorted by id |
| ResetLineage.ResettableExactly | cmd/partforge/main.go:6063-6105 | a snapshot is resettable exactly if ids are distinct, nothing is importing or imported, some row is not compacted, the lineage is sound and, for compaction, every such row's rewrite is complete |
| ResetLineage.AcceptedExactly | cmd/partforge/main.go:6125-6195 | with ids read without padding, accepts exactly: sound links, no padded superseding id on an input, agreeing supersession where the superseding id is not padded, no superseded part listed only in padded form, and every cycle through a padded id |
| ResetLineage.WronglyRejectedExactly | cmd/partforge/main.go:6151-6163 | a lineage that is sound without padding is rejected exactly if a superseded part is listed only in padded form or an input's superseding id is padded |
| ResetLineage.WronglyAcceptedExactly | cmd/partforge/main.go:6166-6195 | an accepted lineage is unsound without padding exactly if it has a cycle or a padded superseding id that names a part |
| ResetLineage.TrimmedCyclesAreFound | cmd/partforge/main.go:6166-6195 | without padded input ids the search rejects exactly the cyclic lineages |
| ResetLineage.PaddedCycleIsMissed | cmd/partforge/main.go:6129-6129 | two parts that list each other with a leading space pass the check |
| ResetLineage.PaddedInputIsRejected | cmd/partforge/main.go:6160-6162 | an original superseded by a part that lists it with a leading space fails the check, though the lineage is sound |
| ResetLineage.ForestIsSound | cmd/partforge/main.go:6125-6195 | a table that satisfies the protocol's lineage invariant passes the check for every job |
| ResetLineage.ReachableJobsReset | cmd/partforge/main.go:6056-6119 | in every state of every run a job can be reset exactly while nothing of it has begun importing and, for compaction, its originals are complete |
| InsertSettings.ReduceInsertSelectSettings | internal/rewrite/processor.go:1399-1421 | fails exactly on an unreadable setting; otherwise every setting above its floor is halved towards it and the rest kept |
| InsertSettings.ReductionLowersDistance | internal/rewrite/processor.go:1399-1447 | each reduction brings the furthest setting exactly one halving closer to its floor |
| InsertSettings.ReadableExactly | internal/rewrite/processor.go:1423-1438 | a retry is possible exactly if every thread or block setting that is set is a number of at least one |
| InsertSettings.LoweredExactly | internal/rewrite/processor.go:1399-1447 | a retry halves the threads down to one and the block size down to 8192, and keeps the rest |
| InsertChunks.CountIsMost | internal/rewrite/insert_chunks.go:50-55 | the count is the largest of at most twenty whose chunks can hold minRows rows each, and one without a minimum |
| InsertChunks.ChunksPartitionRows | internal/rewrite/insert_chunks.go:50-55 | chunks cover all rows without gap or overlap, differ by at most one row and hold at least minRows when there are several |
| InsertChunks.PercentStaysInChunk | internal/rewrite/insert_chunks.go:23-48 | whatever a query reports, progress stays between its chunk's ends and within 0 to 100 |
| InsertChunks.PercentIsProportional | internal/rewrite/insert_chunks.go:31-46 | before a commit the percentage moves from the chunk's start to its end in proportion to the query's own estimate |
| InsertChunks.SnapshotCounts | internal/rewrite/insert_chunks.go:23-45 | counters are sums, and the estimate extrapolates the query's estimate over the rest of the source, rounded up, until the last commit |
| InsertChunks.CommitIsNextBaseline | internal/rewrite/insert_chunks.go:23-48 | a commit equals the next chunk's baseline and a discarded attempt falls back to its own |
| InsertChunks.LastCommitIsComplete | internal/rewrite/insert_chunks.go:41-46 | the last commit reports every row read and one hundred percent |
| ChunkedInsert.RewriteDistributes | README.md:13-13 | a row-local rewrite distributes over splitting the source |
| ChunkedInsert.Database.PromoteInsertChunk | internal/rewrite/insert_chunks.go:88-103 | moving partition by partition conserves all rows at every point and on success empties staging |
| ChunkedInsert.Database.PrepareRetry | internal/rewrite/processor.go:785-831 | after a retryable failure the destination is empty and the settings are one halving lower, or the run ends |
| ChunkedInsert.Database.RunInsertSelectWithRetries | internal/rewrite/processor.go:713-863 | a successful run leaves the rewrite of every row the settings' filter selects exactly once, whatever failed before; the chunks are as many as can hold minRows rows, at most twenty, and consecutive pieces of the source; retries are at most the largest halving distance; progress counts exactly the committed chunks |
| ChunkedInsert.TotalIsSum | internal/rewrite/insert_chunks.go:27-31 | each counter of the total is the sum of the commits' counters |
| ChunkedInsert.Database.InsertStage | internal/rewrite/processor.go:616-629 | a source of several parts is inserted whole, in one attempt plus retries |
| ChunkedInsert.OffsetsOfOnePart | internal/rewrite/insert_chunks.go:57-60 | in a table of one part the chunk's filter on part offsets selects exactly the chunk's rows |
| ChunkedInsert.ChunksInsertEveryRow | internal/rewrite/processor.go:759-768 | over any number of unchanging parts the chunks' filters together select every row exactly once |
| ChunkedInsert.LateRangeIsEmpty | internal/rewrite/processor.go:619-621 | with several parts a chunk that starts past the longest part inserts nothing |
| BackupIndex.NormalizeAccepts | internal/chbackup/backup.go:469-509 | an entry is refused exactly for an unclean path, an unsupported kind, a missing checksum, a base larger than the file or a missing base checksum where base and own data are joined |
| BackupIndex.NormalizeIsStable | internal/chbackup/backup.go:469-509 | a normalized entry has the stated base size, lower-case checksums and a data file wherever it has own data, and normalizing it again changes nothing |
| BackupIndex.PathExactly | internal/chbackup/backup.go:511-516 | a path is accepted exactly if it is not empty, relative, without NUL, and "." or some steps up followed by plain names |
| BackupIndex.KindExactly | internal/chbackup/backup.go:338-372 | exactly which entries are the table's metadata, a file of an included part, invalid, or of no interest |
| BackupIndex.PartitionExactly | internal/chbackup/backup.go:357-362 | a part's partition is its name before the first underscore, or all of it |
| BackupIndex.ScanIndex | internal/chbackup/backup.go:397-467 | accepts exactly indexes whose entries normalize and are strictly sorted |
| BackupIndex.PartIsClosed | internal/chbackup/backup.go:430-433 | in a strictly sorted index a part's entries are contiguous |
| BackupIndex.ScanTable | internal/chbackup/backup.go:318-395 | one pass emits each included part once with all its files and exact bytes, and succeeds exactly for readable tables |
| BackupChain.FindContent | internal/chbackup/backup.go:296-316 | finds exactly the wanted keys that occur, each with its first entry |
| BackupChain.CollectRequirements | internal/chbackup/backup.go:167-188 | the forward pass succeeds exactly if all required content has a recursive meaning |
| BackupChain.ResolveMatches | internal/chbackup/backup.go:190-201 | the backward pass never fails and resolves every required key to its recursive meaning |
| BackupChain.Prepare | internal/chbackup/backup.go:126-214 | a plan exists exactly for named tables and complete layers, a readable table and entries that all have a meaning, and holds all base content the head needs |
| BackupChain.ScanParts | internal/chbackup/backup.go:220-253 | once prepared, no file resolution fails and every part is emitted once with every file resolved to its meaning |
| BackupChain.MeaningIsContent | internal/chbackup/backup.go:255-277 | if every entry's size and checksums are those of its bytes and contents are addressed by size and checksum, the segments concatenate to exactly the file's bytes at any chain depth |
| BackupChain.MeaningNeedsBase | internal/chbackup/backup.go:285-294 | an entry has a meaning exactly if it has no base, or the next layer's first entry has one that matches its own size and checksum where the base is the whole file, else its base size and base checksum |
| BackupChain.EmittedFilesAreWhole | internal/chbackup/backup.go:220-277 | every file of every emitted part stands for an entry of that part and concatenates to its bytes |
| BackupChain.RequestedPartitionsOccur | internal/chbackup/backup.go:388-390 | every requested partition occurs among the emitted parts |
| TarNumbers.ParseTarOctal | internal/artifact/tar.go:630-646 | rejects exactly non-octal fields and values above the int64 maximum |
| TarNumbers.ParseTarBase256 | internal/artifact/tar.go:648-663 | rejects exactly negative fields and values above the int64 maximum |
| TarNumbers.OctalFieldDenotes | internal/artifact/tar.go:623-646 | parsing a ustar numeric field gives back the number written |
| PaxRecords.RecordsRoundTrip | internal/artifact/tar.go:691-722 | reading pax records, lengths counting themselves, undoes writing them |
| PaxRecords.ReadPAXRecords | internal/artifact/tar.go:691-722 | the loop reads exactly the records of the payload, later ones overriding |
| PaxRecords.FirstRecordExactly | internal/artifact/tar.go:691-722 | a payload has a first record exactly if it starts with a number that counts itself, a space, a key, "=", a value and a newline |
| TarReader.VerifyTarHeaderChecksum | internal/artifact/tar.go:604-621 | accepts exactly if the stored number is the byte sum with the checksum field as spaces |
| TarReader.ParseRawTarHeader | internal/artifact/tar.go:572-602 | parses exactly the name with its prefix, type, size and permission bits of a sound header |
| TarReader.DataEnd | internal/artifact/tar.go:469-477 | accepts exactly the payloads whose padded end neither wraps nor passes the archive end |
| TarReader.PlanFinishedTar | internal/artifact/tar.go:431-570 | ends on every input with exactly the entries the step-by-step reading yields |
| TarReader.PlanIsSafe | internal/artifact/tar.go:431-570 | for arbitrary bytes every planned range lies in the archive, is aligned, and comes after all earlier ranges |
| TarReader.PlanStaysInside | internal/artifact/tar.go:540-562 | for arbitrary bytes no planned name leads outside the target, and every part is the first piece of its name |
| TarReader.CleanExactly | internal/artifact/tar.go:816-835 | a name is accepted exactly if it is not blank, relative, has no backslash and no empty, "." or ".." piece; its part is the text before its first slash |
| TarReader.EntryExactly | internal/artifact/tar.go:540-562 | an entry is a directory for type '5', a file for '0' or NUL, and refused for any other type or a name that leads outside |
| TarReader.HeaderKinds | internal/artifact/tar.go:482-524 | pax headers set pending or global records, long names the name, long links nothing; an entry merges pending over global and uses both up |
| TarReader.SizeSource | internal/artifact/tar.go:525-539 | the size is a nonempty pax size, which must be a number and not negative, else the header's |
| TarReader.CopyFinishedTarPayload | internal/artifact/tar.go:400-429 | a successful copy is exactly the planned range, whatever short reads occur |
| TarWriter.HeaderRoundTrip | internal/artifact/tar.go:572-621 | parsing a written ustar header gives back its fields |
| TarWriter.ReadOverItem | internal/artifact/tar.go:482-566 | reading over one entry, with or without pax path and size, adds exactly its plan entry |
| TarWriter.ArchiveRoundTrip | internal/artifact/tar.go:431-570 | planning a written archive recovers exactly its entries, each with its name, its first piece as the part, kind, mode and size, and the planned ranges hold exactly their data |
| TarWriter.AnyCleanItemIsWritable | internal/artifact/tar.go:816-835 | every entry with a clean name has an allowed layout, however long its name and data |
| TarMerge.MergePlans | internal/artifact/tar.go:171-219 | plans merge exactly if each part comes from one archive and only directories repeat a name |
| TarMerge.DirsAreCovered | internal/artifact/tar.go:198-207 | every directory name of every archive is created |
| TarMerge.DirsAreDistinct | internal/artifact/tar.go:198-207 | each directory name is created once |
| TarMerge.FilesAreDistinct | internal/artifact/tar.go:208-213 | a merged file shares its name with no other entry |
| MergeScan.HasMergeablePartsBelowTarget | internal/rewrite/processor.go:1941-1989 | true exactly if a named partition has more than minParts parts, two of which fit the target together |
| MergeScan.SmallestDecide | internal/rewrite/processor.go:1960-1965 | in a sorted partition the two smallest parts decide |
| Snapshot.Compact | internal/rewrite/compactor.go:225-324 | from the start of the observer to the result, whatever merges, the observer and a shutdown do in between: a reduced result froze exactly the parts it measured, strictly fewer than the inputs, and they hold every attached row once |
| Snapshot.Destination.JoinObserver | internal/rewrite/compactor.go:253-254 | receiving the observer's result means its goroutine has ended, with that result |
| Snapshot.MeasureAndFreeze | internal/rewrite/compactor.go:275-324 | between pause and resume, what is frozen is what was measured and what was there at the pause; without an error merges run again |
| Snapshot.FreezeRewritten | internal/rewrite/processor.go:646-711 | a rewrite freezes exactly the parts it measured, which hold every row once |
| Snapshot.Destination.PauseDestinationMerges | internal/rewrite/snapshot.go:12-47 | with the observer over, success means stopped and drained; rows are kept and the observer is untouched whatever the outcome |
| Snapshot.QuietIsStable | internal/rewrite/snapshot.go:10-47 | once selection is stopped, merges have drained and the observer cannot restart, no background steps change the part set |
| Snapshot.StableExactlyWhenNobodyRestarts | internal/rewrite/compactor.go:253-254 | a stopped, drained table is stable exactly if the observer can no longer issue START MERGES |
| Snapshot.RunningMergeCanFinish | internal/rewrite/snapshot.go:35-46 | without draining, any stopped table with a running merge can change |
| Snapshot.BackgroundOnlyMerges | internal/rewrite/snapshot.go:10-11 | any background steps keep every row in exactly one part and never raise the part count |
| Snapshot.Destination.ObserveCompactProgress | internal/rewrite/compact_progress.go:37-157 | with merges in between, the observer's loop makes only the observer's steps; the fan-in is halved at most down to two, giving up there leaves merges stopped, and exactly a third other failure ends it |
| Snapshot.Destination.RecoverCompactMergeAfterMemoryFailure | internal/rewrite/compact_progress.go:159-176 | with merges between the commands, a successful recovery ends with selection running, otherwise selection is as the last command that took effect left it, and the part set changes only by merges |
| Snapshot.CompactPartitionsNormalized | internal/rewrite/compactor.go:400-417 | true exactly if the output has the input's partitions with one part each |
| Ddl.QuotedReadsDoubled | internal/ddl/ddl.go:216-232 | a printed identifier is read back exactly unless a backtick follows, and then a longer name is read |
| Ddl.ReadIdentifier | internal/ddl/ddl.go:211-246 | the cursor loop reads exactly the identifier at the cursor and stops after it |
| Ddl.TableNameSpan | internal/ddl/ddl.go:178-204 | the span starts at the name and ends where the text to keep begins |
| Ddl.ForTable | internal/ddl/ddl.go:60-70 | the printed names replace the span and nothing else |
| Ddl.TableName | internal/ddl/ddl.go:72-103 | the cursor parser reads exactly the name of the trimmed statement |
| Ddl.PlainStatementReads | internal/ddl/ddl.go:72-103 | an unquoted qualified name is read up to white space, dot or parenthesis, in any case of the keywords, with or without IF NOT EXISTS |
| Ddl.KeywordEndsExactly | internal/ddl/ddl.go:341-369 | a keyword is read exactly where no letter, digit or underscore follows it |
| Ddl.NameEndsExactly | internal/ddl/ddl.go:233-246 | an unquoted name ends exactly at white space, a dot or an opening parenthesis |
| Ddl.PlainTableReads | internal/ddl/ddl.go:72-103 | an unquoted name without a dot is read as the table's |
| Ddl.PlainStatementRenames | internal/ddl/ddl.go:60-70 | renaming such a statement replaces the name by the printed pair and keeps everything else |
| Ddl.RenameRoundTrips | internal/ddl/ddl.go:60-103 | for all names, backticks included, reading back a renamed statement gives the new names exactly if the kept text does not start with a backtick |
| Ddl.QualifiedNamesRoundTrip | internal/ddl/ddl.go:191-203 | a statement whose name has a database always round-trips |
| Ddl.BacktickAfterName | internal/ddl/ddl.go:191-192 | an unqualified name followed by a space and a backtick never does |

## Left out

- Forced retries and statuses, the compact timer reset and deletions are not events: they intentionally break the lineage
  invariants. Reset is modelled as a plan over one snapshot.
- Postgres, SQL text, JSON encoding, migrations and IAM: queries are modelled by their meaning (filter, order, lock, update).
- S3, ClickHouse processes and HTTP, file modes and directory walks: outcomes are nondeterministic where they matter.
- Display and progress fields of a part (rewrite stage, rows read, speeds), the cooldown stamp and job names.
- Claim filters other than the window and the batching, which no worker passes.
- `MarkFinished`, which nothing calls, and the test-only finalization rule of cmd/partforge/main.go:2845; the rule modelled is
  the one of internal/state/maintenance.go:114.
- MarkFailed, ReleaseInProgress, RetryInProgressPart and the import transitions are events of `Protocol` and covered by every
  theorem over runs, but have no method in `Store`: each is one guarded row update.
- XML decoding of a backup index, the header's base_backup fields and the parsing of the partition list; the text of an object
  key is left as layer prefix and file. Callbacks are modelled as the list of parts handed on, not interleaved with later errors.
- Ddl.ForTable: starts from an already normalized statement; `NormalizeCreateTable` (engine and settings rewriting) is not
  modelled.
- Ddl.TableName: `Trim` is bytewise, where Go's TrimSpace reads runes: they differ for a statement whose first or last character
  is a non-ASCII one that contains the byte 0x85 or 0xA0 there.
- PartState.Partition: "blank" is Go's TrimSpace on single characters; the SQL's btrim cuts spaces only. The two agree on every
  partition name a run stores (`History.RunsKeepCleanNames`); on other text they differ for tabs and line ends alone.
- Drain.CompleteMeasure: "reduced" compares with the batch's recorded part count, where the code compares with the parts that
  the attached inputs turned out to have.
- Snapshot.Compact: the waits' time limits are bounds on polls, and what the wait for merges and `OPTIMIZE` do is any background step.
- Tar entry names made only of non-ASCII spaces, which the code also refuses.
- Wall-clock guarantees of waiting for merges, CLI, metrics, resource tuning and humanized output.
