/** One row of the state table: the JSON part, the scheduling columns derived from it,
    and every mutation a transaction applies to a part. */
module PartState {
  import opened Results
  import opened Text

  type Time = int

  datatype Status =
    | Ready | InProgress | CompactReady | Compacting | Superseded
    | Finished | Importing | Imported | Failed

  datatype Key = Key(job: string, part: string)

  datatype Stats = Stats(count: nat, rows: nat, bytes: nat)

  const NO_STATS := Stats(0, 0, 0)

  datatype Destination = Destination(database: string, table: string, schema: string)

  datatype CompactProgress = CompactProgress(outputPartId: string, at: Time, input: Stats, output: Stats,
                                             stage: string, activeMerges: nat)

  // A stamp the source writes as "" is None; a worker id, error or superseding part id it writes as "" is "".
  datatype Part = Part(
    key: Key,
    status: Status,
    bucket: string,
    sourceKey: string,
    finishedKey: string,
    source: Option<Key>,
    sourceBytes: nat,
    createdAt: Time,
    updatedAt: Time,
    finishedAt: Option<Time>,
    compactReadyAt: Option<Time>,
    compactingAt: Option<Time>,
    importingAt: Option<Time>,
    importedAt: Option<Time>,
    failedAt: Option<Time>,
    progressUpdatedAt: Option<Time>,
    workerId: string,
    attempts: nat,
    error: string,
    emptyOutput: bool,
    destination: Destination,
    stats: Stats,
    partitionCounts: map<string, nat>,
    generation: nat,
    inputs: seq<string>,
    supersededBy: string,
    finalizeRequestedAt: Option<Time>,
    progress: Option<CompactProgress>)

  predicate IsGenerated(p: Part) {
    |p.inputs| > 0 || p.generation > 0
  }

  predicate HasDestination(p: Part) {
    !Blank(p.destination.database) && !Blank(p.destination.table) && !Blank(p.destination.schema)
  }

  /** What clonePartitionCounts and partitionCountsFromRewrite keep. */
  function CleanCounts(counts: map<string, nat>): map<string, nat> {
    map id | id in counts && !Blank(id) && counts[id] > 0 :: counts[id]
  }

  // ---- scheduling columns ----

  /** The columns derived from the JSON part, compact_partition_id included. */
  datatype Columns = Columns(
    status: Status,
    workerId: string,
    createdAt: Time,
    updatedAt: Time,
    sourceBytes: nat,
    compactBytes: nat,
    compactParts: nat,
    eligible: bool,
    normalized: bool,
    staleAt: Option<Time>,
    originalReadyAt: Option<Time>,
    partition: string)

  datatype Row = Row(part: Part, cols: Columns)

  function LivePartitions(p: Part): set<string> {
    set id | id in p.partitionCounts && !Blank(id) && p.partitionCounts[id] > 0
  }

  predicate Fragmented(p: Part) {
    exists id | id in p.partitionCounts :: !Blank(id) && p.partitionCounts[id] > 1
  }

  /** compact_eligible: some partition still holds several physical parts. */
  predicate Eligible(p: Part) {
    HasDestination(p) && p.stats.count > 0 && Fragmented(p)
  }

  predicate SinglePartition(p: Part) {
    |LivePartitions(p)| == 1 && forall id | id in LivePartitions(p) :: p.partitionCounts[id] == 1
  }

  /** compact_normalized: one physical part, hence one partition. */
  predicate Normalized(p: Part) {
    p.stats.count == 1 && SinglePartition(p)
  }

  lemma SingletonMember<T>(s: set<T>, x: T, y: T)
    requires |s| == 1 && x in s && y in s
    ensures x == y
  {
    assert |s - {x}| == 0;
    assert y !in s - {x};
  }

  /** compact_partition_id. */
  function Partition(p: Part): (id: string)
    ensures Normalized(p) ==> LivePartitions(p) == {id} && id in p.partitionCounts
    ensures !Normalized(p) ==> id == ""
  {
    if !Normalized(p) then ""
    else
      var live := LivePartitions(p);
      assert forall x, y | x in live && y in live :: x == y by {
        forall x, y | x in live && y in live ensures x == y { SingletonMember(live, x, y); }
      }
      assert live != {};
      var id :| id in live;
      id
  }

  /** No partition is named by spaces alone. */
  predicate CleanNames(p: Part) {
    forall id | id in p.partitionCounts :: !Blank(id)
  }

  /** The generated column reads off a normalized part some key with a count, as long as it is not the empty text. */
  predicate ColumnReads(p: Part, id: string) {
    if Normalized(p) then id in p.partitionCounts && p.partitionCounts[id] > 0 && id != "" else id == ""
  }

  /** Where no name is spaces alone, the column's SQL and the Go code that counts partitions agree on the one partition. */
  lemma ColumnReadsPartition(p: Part, id: string)
    requires CleanNames(p)
    ensures ColumnReads(p, id) <==> id == Partition(p)
  {
    hide SinglePartition;
    if Normalized(p) {
      assert Partition(p) in LivePartitions(p);
      assert id in p.partitionCounts && p.partitionCounts[id] > 0 && id != "" ==> id in LivePartitions(p);
    }
  }

  function Earlier(a: Time, b: Time): Time {
    if a < b then a else b
  }

  /** compact_stale_at: the earlier of the last write and the claim. */
  function StaleAt(p: Part): Option<Time> {
    if p.status != Compacting then None
    else Some(Earlier(p.updatedAt, p.compactingAt.GetOr(p.updatedAt)))
  }

  function OriginalReadyAt(p: Part): Option<Time> {
    if IsGenerated(p) then None else p.compactReadyAt
  }

  function ColumnsOf(p: Part): Columns {
    Columns(p.status, p.workerId, p.createdAt, p.updatedAt, p.sourceBytes, p.stats.bytes, p.stats.count,
            Eligible(p), Normalized(p), StaleAt(p), OriginalReadyAt(p), Partition(p))
  }

  /** A full write derives every column from the part. */
  function Saved(p: Part): Row {
    Row(p, ColumnsOf(p))
  }

  // ---- mutations: rewrite ----

  function SetStatus(p: Part, status: Status, now: Time): Part {
    p.(status := status, updatedAt := now)
  }

  function ClearRewriteProgress(p: Part): Part {
    p.(progressUpdatedAt := None, stats := NO_STATS, partitionCounts := map[])
  }

  function ClearCompactProgress(p: Part): Part {
    p.(progress := None, finalizeRequestedAt := None)
  }

  function ClaimedForRewrite(p: Part, worker: string, now: Time): Part {
    ClearRewriteProgress(SetStatus(p, InProgress, now).(workerId := worker, attempts := p.attempts + 1, error := ""))
  }

  function RewriteProgressed(p: Part, destination: Option<Stats>, now: Time): Part {
    p.(updatedAt := now, progressUpdatedAt := Some(now), stats := destination.GetOr(p.stats))
  }

  function RewriteCompleted(p: Part, finishedKey: string, destination: Destination, stats: Stats,
                            counts: map<string, nat>, now: Time): Part
  {
    var q := if stats.count == 0
             then SetStatus(p, Finished, now).(finishedAt := Some(now), compactReadyAt := None)
             else SetStatus(p, CompactReady, now).(compactReadyAt := Some(now));
    q.(finishedKey := finishedKey, emptyOutput := stats.count == 0, destination := destination, generation := 0,
       stats := stats, partitionCounts := CleanCounts(counts), workerId := "", error := "")
  }

  function RewriteFailed(p: Part, cause: string, now: Time): Part {
    SetStatus(p, Failed, now).(failedAt := Some(now), error := cause, workerId := "")
  }

  function RewriteReturned(p: Part, now: Time): Part {
    ClearRewriteProgress(SetStatus(p, Ready, now).(workerId := "", error := ""))
  }

  function FailedRetryTarget(p: Part): Status {
    if p.importingAt.Some? then Finished
    else if p.compactReadyAt.Some? then CompactReady
    else Ready
  }

  function FailedRetried(p: Part, target: Status, now: Time): Part {
    var q := SetStatus(p, target, now).(error := "", failedAt := None, importingAt := None, importedAt := None, workerId := "");
    if target == Ready then ClearRewriteProgress(q.(finishedAt := None)) else q
  }

  // ---- mutations: compaction ----

  function ClaimedForCompaction(p: Part, worker: string, now: Time): Part {
    SetStatus(p, Compacting, now).(compactingAt := Some(now), workerId := worker, error := "")
  }

  function ReadyAtForRelease(p: Part): Option<Time> {
    if p.compactReadyAt.Some? then p.compactReadyAt
    else if p.progressUpdatedAt.Some? then p.progressUpdatedAt
    else Some(p.updatedAt)
  }

  /** The status a compacting part leaves with: a pending request always finishes it. */
  function Unclaimed(p: Part, finalize: bool, now: Time): Part {
    if finalize || p.finalizeRequestedAt.Some?
    then SetStatus(p, Finished, now).(finishedAt := Some(now))
    else SetStatus(p, CompactReady, now)
  }

  function CompactDropped(p: Part): Part {
    ClearCompactProgress(p.(workerId := "", compactingAt := None, error := ""))
  }

  function CompactReleased(p: Part, finalize: bool, now: Time): Part {
    var q := Unclaimed(p, finalize, now);
    CompactDropped(q.(compactReadyAt := ReadyAtForRelease(q)))
  }

  function StaleReleased(p: Part, now: Time): Part {
    CompactDropped(Unclaimed(p.(compactReadyAt := ReadyAtForRelease(p)), false, now))
  }

  function CompactFailed(p: Part, cause: string, now: Time): Part {
    CompactDropped(SetStatus(p, Failed, now).(failedAt := Some(now))).(error := cause)
  }

  function HeartbeatPatched(p: Part, worker: string, progress: Option<CompactProgress>, now: Time): Part {
    p.(status := Compacting, workerId := worker, updatedAt := now, error := "",
       compactingAt := Some(p.compactingAt.GetOr(now)),
       progress := if progress.Some? then progress else p.progress)
  }

  function FinalizationRequested(p: Part, now: Time): Part {
    if p.status == CompactReady
    then ClearCompactProgress(SetStatus(p, Finished, now).(finishedAt := Some(now), error := ""))
    else p.(finalizeRequestedAt := Some(now), updatedAt := now)
  }

  function MarkedSuperseded(p: Part, output: string, now: Time): Part {
    CompactDropped(SetStatus(p, Superseded, now).(supersededBy := output))
  }

  function BulkFinalized(p: Part, now: Time): Part {
    SetStatus(p, Finished, now).(finishedAt := Some(now), error := "")
  }

  // ---- mutations: import ----

  function ImportStarted(p: Part, now: Time): Part {
    SetStatus(p, Importing, now).(importingAt := Some(now), error := "")
  }

  function ImportCompleted(p: Part, now: Time): Part {
    SetStatus(p, Imported, now).(importedAt := Some(now), error := "")
  }

  function ImportReleased(p: Part, now: Time): Part {
    SetStatus(p, Finished, now).(importingAt := None, error := "")
  }

  function ImportFailed(p: Part, cause: string, now: Time): Part {
    SetStatus(p, Failed, now).(failedAt := Some(now), error := cause)
  }

  // ---- construction ----

  function NewPart(key: Key, bucket: string, sourceKey: string, finishedKey: string, now: Time): Part {
    Part(key, Ready, bucket, sourceKey, finishedKey, None, 0, now, now, None, None, None, None, None, None, None,
         "", 0, "", false, Destination("", "", ""), NO_STATS, map[], 0, [], "", None, None)
  }

  function NewCompactPart(key: Key, bucket: string, finishedKey: string, destination: Destination, inputs: seq<string>,
                          generation: nat, stats: Stats, counts: map<string, nat>, readyAt: Time, now: Time): Part
  {
    NewPart(key, bucket, finishedKey, finishedKey, now).(
      status := CompactReady, compactReadyAt := Some(readyAt), destination := destination, generation := generation,
      inputs := inputs, stats := stats, partitionCounts := CleanCounts(counts))
  }
}
