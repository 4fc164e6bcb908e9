/** What every transaction makes of a row, told on the row's own fields, and the statuses a row can pass through. */
module Lifecycle {
  import opened Results
  import opened Text
  import opened PartState
  import opened Protocol
  import opened Lineage
  import Ordering

  // ---- what a transaction changes ----

  /** A compacting row handed back, or finished, with everything of the claim gone and its artifact untouched. */
  ghost predicate Released(p: Part, q: Part, finish: bool, readyAt: Time, now: Time) {
    && q.status == (if finish then Finished else CompactReady)
    && q.finishedAt == (if finish then Some(now) else p.finishedAt)
    && q.workerId == "" && q.compactingAt.None? && q.finalizeRequestedAt.None? && q.progress.None? && q.error == ""
    && q.compactReadyAt == Some(if p.compactReadyAt.Some? then p.compactReadyAt.value else readyAt)
    && q.updatedAt == now
    && OthersKept(p, q.(compactReadyAt := p.compactReadyAt))
  }

  /** Nothing but the status, its stamps, the owner, the error and the compaction's progress differs. */
  ghost predicate OthersKept(p: Part, q: Part) {
    && SameArtifact(p, q) && SameOrigin(p, q)
    && q.importingAt == p.importingAt && q.importedAt == p.importedAt && q.failedAt == p.failedAt
    && q.supersededBy == p.supersededBy && q.progressUpdatedAt == p.progressUpdatedAt && q.attempts == p.attempts
    && q.finishedKey == p.finishedKey && q.emptyOutput == p.emptyOutput
  }

  /** Where the part came from. */
  ghost predicate SameOrigin(p: Part, q: Part) {
    && q.key == p.key && q.bucket == p.bucket && q.sourceKey == p.sourceKey && q.source == p.source
    && q.sourceBytes == p.sourceBytes && q.createdAt == p.createdAt
  }

  /** The time a release stamps on a row that has no ready stamp. */
  function StampedReady(p: Part, otherwise: Time): Time {
    p.progressUpdatedAt.GetOr(otherwise)
  }

  /** A rewrite that starts over: the next one finds nothing of this one's output. */
  ghost predicate StartsOver(p: Part, q: Part) {
    && q.stats == Stats(0, 0, 0) && q.partitionCounts == map[] && q.progressUpdatedAt.None?
    && SameOrigin(p, q) && q.inputs == p.inputs && q.generation == p.generation && q.supersededBy == p.supersededBy
    && q.finishedKey == p.finishedKey && q.destination == p.destination && q.emptyOutput == p.emptyOutput
    && q.compactReadyAt == p.compactReadyAt && q.compactingAt == p.compactingAt
    && q.finalizeRequestedAt == p.finalizeRequestedAt && q.progress == p.progress
  }

  ghost predicate StampsKept(p: Part, q: Part) {
    q.finishedAt == p.finishedAt && q.compactReadyAt == p.compactReadyAt && q.compactingAt == p.compactingAt
  }

  ghost predicate ClaimKept(p: Part, q: Part) {
    q.compactingAt == p.compactingAt && q.finalizeRequestedAt == p.finalizeRequestedAt && q.progress == p.progress
  }

  /** A rewrite's edits: claim, progress, completion, failure, return. */
  ghost predicate RewriteChange(e: Event, p: Part, q: Part) {
    match e
    case ClaimReady(w, _, now) =>
      && q.status == InProgress && q.workerId == w && q.attempts == p.attempts + 1 && q.error == "" && q.updatedAt == now
      && StartsOver(p, q)
    case RewriteProgress(_, _, stats, now) =>
      && q.status == p.status && q.workerId == p.workerId && q.updatedAt == now && q.progressUpdatedAt == Some(now)
      && q.stats == (if stats.Some? then stats.value else p.stats)
      && q.error == p.error && StampsKept(p, q) && OthersKept(p, q.(stats := p.stats, progressUpdatedAt := p.progressUpdatedAt))
    case MarkCompactReady(_, _, key, d, stats, counts, now) =>
      && (if stats.count == 0
          then q.status == Finished && q.finishedAt == Some(now) && q.compactReadyAt.None? && q.emptyOutput
          else q.status == CompactReady && q.compactReadyAt == Some(now) && q.finishedAt == p.finishedAt && !q.emptyOutput)
      && q.finishedKey == key && q.destination == d && q.stats == stats && q.generation == 0
      && (forall id :: id in q.partitionCounts <==> id in counts && !Blank(id) && counts[id] > 0)
      && (forall id | id in q.partitionCounts :: q.partitionCounts[id] == counts[id])
      && q.workerId == "" && q.error == "" && q.updatedAt == now && SameOrigin(p, q) && q.inputs == p.inputs
    case MarkFailed(_, _, cause, now) =>
      && q.status == PartState.Status.Failed && q.failedAt == Some(now) && q.error == cause && q.workerId == "" && q.updatedAt == now
      && StampsKept(p, q) && OthersKept(p, q.(failedAt := p.failedAt))
    case ReleaseInProgress(_, _, now) => q.status == Ready && q.workerId == "" && q.error == "" && q.updatedAt == now && StartsOver(p, q)
    case RetryInProgress(_, now) => q.status == Ready && q.workerId == "" && q.error == "" && q.updatedAt == now && StartsOver(p, q)
    case RetryFailed(_, now) =>
      && q.status == (if p.importingAt.Some? then Finished else if p.compactReadyAt.Some? then CompactReady else Ready)
      && q.error == "" && q.failedAt.None? && q.importingAt.None? && q.importedAt.None? && q.workerId == "" && q.updatedAt == now
      && (if q.status == Ready then StartsOver(p, q) && q.finishedAt.None?
          else StampsKept(p, q) && SameArtifact(p, q) && SameOrigin(p, q))
    case _ => true
  }

  /** A compaction's edits: claim, heartbeat, request, release, failure, supersession, finalization. */
  ghost predicate CompactionChange(e: Event, p: Part, q: Part) {
    match e
    case ClaimCompact(w, _, _, _, now) =>
      && q.status == Compacting && q.workerId == w && q.compactingAt == Some(now) && q.error == "" && q.updatedAt == now
      && q.finishedAt == p.finishedAt && q.finalizeRequestedAt == p.finalizeRequestedAt && OthersKept(p, q)
    case Heartbeat(_, w, progress, now) =>
      && q.status == Compacting && q.workerId == w && q.error == "" && q.updatedAt == now
      && q.compactingAt == Some(if p.compactingAt.Some? then p.compactingAt.value else now)
      && q.finalizeRequestedAt == p.finalizeRequestedAt
      && q.progress == (if progress.Some? then progress else p.progress)
      && q.finishedAt == p.finishedAt && OthersKept(p, q)
    case RequestFinalization(_, now) =>
      && q.updatedAt == now && OthersKept(p, q) && q.workerId == p.workerId && q.compactingAt == p.compactingAt
      && (if p.status == CompactReady
          then q.status == Finished && q.finishedAt == Some(now) && q.finalizeRequestedAt.None? && q.progress.None? && q.error == ""
          else q.status == p.status && q.finishedAt == p.finishedAt && q.finalizeRequestedAt == Some(now) && q.progress == p.progress)
    case ReleaseBatch(_, _, now, finalize) =>
      Released(p, q, finalize || p.finalizeRequestedAt.Some?, StampedReady(p, now), now)
    case ReleaseStale(_, _, now) => Released(p, q, p.finalizeRequestedAt.Some?, StampedReady(p, p.updatedAt), now)
    case FailBatch(_, _, cause, now) =>
      && q.status == PartState.Status.Failed && q.failedAt == Some(now) && q.error == cause && q.updatedAt == now
      && q.workerId == "" && q.compactingAt.None? && q.finalizeRequestedAt.None? && q.progress.None?
      && q.finishedAt == p.finishedAt && OthersKept(p, q.(failedAt := p.failedAt))
    case Complete(_, outputId, _, _, _, _, now) =>
      && q.status == Superseded && q.supersededBy == outputId && q.updatedAt == now
      && q.workerId == "" && q.compactingAt.None? && q.finalizeRequestedAt.None? && q.progress.None? && q.error == ""
      && q.finishedAt == p.finishedAt && OthersKept(p, q.(supersededBy := p.supersededBy))
    case Finalize(_, _, _, _, now) =>
      && q.status == Finished && q.finishedAt == Some(now) && q.error == "" && q.updatedAt == now
      && q.workerId == p.workerId && ClaimKept(p, q) && OthersKept(p, q)
    case _ => true
  }

  /** An import's edits. */
  ghost predicate ImportChange(e: Event, p: Part, q: Part) {
    match e
    case MarkImporting(_, now) =>
      && q.status == Importing && q.importingAt == Some(now) && q.error == "" && q.updatedAt == now
      && q.workerId == p.workerId && q.finishedAt == p.finishedAt && ClaimKept(p, q) && OthersKept(p, q.(importingAt := p.importingAt))
    case MarkImported(_, now) =>
      && q.status == Imported && q.importedAt == Some(now) && q.error == "" && q.updatedAt == now
      && q.workerId == p.workerId && q.finishedAt == p.finishedAt && ClaimKept(p, q) && OthersKept(p, q.(importedAt := p.importedAt))
    case ReleaseImport(_, now) =>
      && q.status == Finished && q.importingAt.None? && q.error == "" && q.updatedAt == now
      && q.workerId == p.workerId && q.finishedAt == p.finishedAt && ClaimKept(p, q) && OthersKept(p, q.(importingAt := p.importingAt))
    case MarkImportFailed(_, cause, now) =>
      && q.status == PartState.Status.Failed && q.failedAt == Some(now) && q.error == cause && q.updatedAt == now
      && q.workerId == p.workerId && q.finishedAt == p.finishedAt && ClaimKept(p, q) && OthersKept(p, q.(failedAt := p.failedAt))
    case _ => true
  }

  ghost predicate Changed(e: Event, p: Part, q: Part) {
    RewriteChange(e, p, q) && CompactionChange(e, p, q) && ImportChange(e, p, q)
  }

  lemma CompletedRewriteChanges(e: Event, p: Part)
    requires e.MarkCompactReady?
    ensures RewriteChange(e, p, Mutated(e, p))
  {
    hide Blank;
  }

  lemma RetryChanges(e: Event, p: Part)
    requires e.RetryFailed?
    ensures RewriteChange(e, p, Mutated(e, p))
  {
    hide Blank;
  }

  lemma RewriteChanges(e: Event, p: Part)
    ensures RewriteChange(e, p, Mutated(e, p))
  {
    match e
    case MarkCompactReady(_, _, _, _, _, _, _) => CompletedRewriteChanges(e, p);
    case RetryFailed(_, _) => RetryChanges(e, p);
    case ClaimReady(_, _, _) => StartedChanges(e, p);
    case ReleaseInProgress(_, _, _) => StartedChanges(e, p);
    case RetryInProgress(_, _) => StartedChanges(e, p);
    case RewriteProgress(_, _, _, _) => RunningChanges(e, p);
    case MarkFailed(_, _, _, _) => RunningChanges(e, p);
    case _ =>
  }

  lemma StartedChanges(e: Event, p: Part)
    requires e.ClaimReady? || e.ReleaseInProgress? || e.RetryInProgress?
    ensures RewriteChange(e, p, Mutated(e, p))
  {
    hide Blank;
  }

  lemma RunningChanges(e: Event, p: Part)
    requires e.RewriteProgress? || e.MarkFailed?
    ensures RewriteChange(e, p, Mutated(e, p))
  {
    hide Blank;
  }

  lemma ReleaseChanges(p: Part, finalize: bool, now: Time)
    ensures Released(p, CompactReleased(p, finalize, now), finalize || p.finalizeRequestedAt.Some?, StampedReady(p, now), now)
  {}

  lemma StaleReleaseChanges(p: Part, now: Time)
    ensures Released(p, StaleReleased(p, now), p.finalizeRequestedAt.Some?, StampedReady(p, p.updatedAt), now)
  {}

  lemma ClaimedChanges(e: Event, p: Part)
    requires e.ClaimCompact? || e.Heartbeat? || e.Finalize?
    ensures CompactionChange(e, p, Mutated(e, p))
  {
    hide Blank, Released;
  }

  lemma RequestChanges(e: Event, p: Part)
    requires e.RequestFinalization?
    ensures CompactionChange(e, p, Mutated(e, p))
  {
    hide Blank, Released;
  }

  lemma DroppedChanges(e: Event, p: Part)
    requires e.FailBatch? || e.Complete?
    ensures CompactionChange(e, p, Mutated(e, p))
  {
    hide Blank, Released;
  }

  lemma CompactionChanges(e: Event, p: Part)
    ensures CompactionChange(e, p, Mutated(e, p))
  {
    match e
    case ReleaseBatch(_, _, now, finalize) => ReleaseChanges(p, finalize, now);
    case ReleaseStale(_, _, now) => StaleReleaseChanges(p, now);
    case RequestFinalization(_, _) => RequestChanges(e, p);
    case ClaimCompact(_, _, _, _, _) => ClaimedChanges(e, p);
    case Heartbeat(_, _, _, _) => ClaimedChanges(e, p);
    case Finalize(_, _, _, _, _) => ClaimedChanges(e, p);
    case FailBatch(_, _, _, _) => DroppedChanges(e, p);
    case Complete(_, _, _, _, _, _, _) => DroppedChanges(e, p);
    case _ =>
  }

  lemma ImportChanges(e: Event, p: Part)
    ensures ImportChange(e, p, Mutated(e, p))
  {
    hide Blank, RewriteChange, CompactionChange, FailedRetryTarget, FailedRetried, CleanCounts, RewriteCompleted, CompactReleased,
      StaleReleased, HeartbeatPatched, FinalizationRequested;
  }

  /** The rows a transaction writes change as it says, and no other row changes at all. */
  lemma RowsChange(t: Table, e: Event, k: Key)
    requires k in t && !e.Create? && Targets(t, e).Some?
    requires e.Complete? ==> Key(e.batch.job, e.outputId) !in t
    ensures k in Apply(t, e)
    ensures if k in Targets(t, e).value then Changed(e, t[k], Apply(t, e)[k]) else Apply(t, e)[k] == t[k]
  {
    hide Mutated, OutputOf, ValidBatchParts, Targets, RewriteChange, CompactionChange, ImportChange;
    RewriteChanges(e, t[k]);
    CompactionChanges(e, t[k]);
    ImportChanges(e, t[k]);
  }

  // ---- when a transaction goes through ----

  ghost predicate OwnedInProgress(t: Table, k: Key, w: string) {
    !Blank(w) && k in t && t[k].status == InProgress && t[k].workerId == w
  }

  /** The edits of one row go through exactly on a row in the right status, and the owner's edits only for its owner. */
  lemma OneRowGuards(t: Table, e: Event)
    ensures Targets(t, e).Some? <==>
              match e
              case RewriteProgress(k, w, _, _) => OwnedInProgress(t, k, w)
              case MarkFailed(k, w, _, _) => OwnedInProgress(t, k, w)
              case ReleaseInProgress(k, w, _) => OwnedInProgress(t, k, w)
              case MarkCompactReady(k, w, key, d, stats, counts, _) =>
                && OwnedInProgress(t, k, w) && !Blank(key)
                && !Blank(d.database) && !Blank(d.table) && !Blank(d.schema) && (stats.count == 0 || counts != map[])
              case RetryFailed(k, _) => k in t && t[k].status == PartState.Status.Failed
              case RetryInProgress(k, _) => k in t && t[k].status == InProgress
              case Heartbeat(k, w, _, _) => !Blank(w) && k in t && HeldOrFree(t[k], w)
              case MarkImporting(k, _) => k in t && t[k].status == Finished
              case MarkImported(k, _) => k in t && t[k].status == Importing
              case ReleaseImport(k, _) => k in t && t[k].status == Importing
              case MarkImportFailed(k, _, _) => k in t && t[k].status == Importing
              case _ => Targets(t, e).Some?
    ensures e.RewriteProgress? || e.MarkFailed? || e.ReleaseInProgress? || e.MarkCompactReady? || e.RetryFailed? || e.RetryInProgress? ||
            e.Heartbeat? || e.MarkImporting? || e.MarkImported? || e.ReleaseImport? || e.MarkImportFailed? ==>
              Targets(t, e).None? || Targets(t, e).value == {e.key}
  {
    hide Blank;
  }

  /** A row nobody has worked on yet: only its names, its creation, its source and its destination are given. */
  ghost predicate Untouched(p: Part) {
    && p.status == Ready && p.workerId == "" && p.attempts == 0 && p.error == "" && !p.emptyOutput
    && p.updatedAt == p.createdAt && p.finishedAt.None? && p.compactReadyAt.None? && p.compactingAt.None?
    && p.importingAt.None? && p.importedAt.None? && p.failedAt.None? && p.progressUpdatedAt.None?
    && p.finalizeRequestedAt.None? && p.progress.None?
    && p.stats.count == 0 && p.stats.rows == 0 && p.stats.bytes == 0 && p.partitionCounts == map[]
    && p.generation == 0 && p.inputs == [] && p.supersededBy == ""
  }

  /** A creation goes through exactly for a named, untouched part that is new, and whose source part, if it reuses one, is
      another original with the same bucket and source key. */
  lemma CreationExactly(t: Table, p: Part)
    ensures Succeeds(t, Create(p)) <==>
              && p.key !in t && Untouched(p)
              && p.key.job != "" && p.key.part != "" && p.bucket != "" && p.sourceKey != "" && p.finishedKey != ""
              && p.source != Some(p.key) && (p.source.Some? ==> (p.source.value.job == "" <==> p.source.value.part == ""))
              && (p.source.None? || Blank(p.source.value.job) ||
                  (p.source.value in t && t[p.source.value].inputs == [] && t[p.source.value].generation == 0 &&
                   t[p.source.value].bucket == p.bucket && t[p.source.value].sourceKey == p.sourceKey))
    ensures Succeeds(t, Create(p)) ==> Apply(t, Create(p)) == t[p.key := p]
  {
    hide Blank;
    if Untouched(p) {
      assert p.stats == NO_STATS;
    }
  }

  /** The worker's own compacting row, or an open row that belongs to nobody. */
  ghost predicate HeldOrFree(p: Part, w: string) {
    (p.status == Compacting && p.workerId == w) || (p.status == CompactReady && Blank(p.workerId))
  }

  /** All parts lie in one job, bucket and destination, and the destination is known. */
  ghost predicate OneDestination(parts: seq<Part>) {
    && parts != []
    && (forall p, q | p in parts && q in parts :: p.key.job == q.key.job && p.bucket == q.bucket && p.destination == q.destination)
    && forall p | p in parts :: !Blank(p.destination.database) && !Blank(p.destination.table) && !Blank(p.destination.schema)
  }

  lemma ValidMeansOneDestination(parts: seq<Part>)
    ensures ValidBatchParts(parts) <==> OneDestination(parts)
  {
    hide Blank;
    if OneDestination(parts) {
      forall i | 0 <= i < |parts| ensures HasDestination(parts[i]) && parts[i].key.job == parts[0].key.job &&
                                          parts[i].bucket == parts[0].bucket && parts[i].destination == parts[0].destination
      {
        assert parts[i] in parts && parts[0] in parts;
      }
    }
  }

  lemma RowsOfBatch(b: Batch, f: Key -> bool)
    ensures (forall k | k in BatchKeys(b) :: f(k)) <==> forall p | p in b.parts :: f(p.key)
    ensures BatchKeys(b) == set p | p in b.parts :: p.key
  {
    assert forall p | p in b.parts :: p.key in BatchKeys(b);
  }

  /** A batch is released exactly if every one of its rows is still the worker's, or open and nobody's. */
  lemma ReleaseGuards(t: Table, b: Batch, w: string, now: Time, finalize: bool)
    ensures var released := Targets(t, ReleaseBatch(b, w, now, finalize));
      && (released.Some? <==> !Blank(w) && forall p | p in b.parts :: p.key in t && HeldOrFree(t[p.key], w))
      && (released.Some? ==> released.value == set p | p in b.parts :: p.key)
  {
    RowsOfBatch(b, k => k in t && HeldOrFree(t[k], w));
    hide Blank, BatchKeys;
  }

  /** A batch fails exactly if it lies in one destination and every one of its rows is compacting for the worker. */
  lemma FailureGuards(t: Table, b: Batch, w: string, now: Time, cause: string)
    ensures var failed := Targets(t, FailBatch(b, w, cause, now));
      && (failed.Some? <==>
            && OneDestination(b.parts) && b.job == b.parts[0].key.job && !Blank(w)
            && forall p | p in b.parts :: p.key in t && t[p.key].status == Compacting && t[p.key].workerId == w)
      && (failed.Some? ==> failed.value == set p | p in b.parts :: p.key)
  {
    FailureTargets(t, b, w, now, cause);
    ValidMeansOneDestination(b.parts);
    RowsOfBatch(b, k => k in t && t[k].status == Compacting && t[k].workerId == w);
    hide Targets, Blank, BatchKeys, ValidBatchParts, OneDestination;
    if ValidBatch(b) { ValidIsNotEmpty(b.parts); assert b.parts[0] in b.parts; }
  }

  lemma FailureTargets(t: Table, b: Batch, w: string, now: Time, cause: string)
    ensures var failed := Targets(t, FailBatch(b, w, cause, now));
      && (failed.Some? <==>
            && ValidBatch(b) && !Blank(w)
            && forall k | k in BatchKeys(b) :: k in t && t[k].status == Compacting && t[k].workerId == w)
      && (failed.Some? ==> failed.value == BatchKeys(b))
  {
    hide Blank, ValidBatchParts;
    if ValidBatch(b) {
      ValidIsNotEmpty(b.parts);
      assert b.parts[0].key in BatchKeys(b);
    }
  }

  lemma CompletionTargets(t: Table, b: Batch, outputId: string, key: string, stats: Stats, counts: map<string, nat>, w: string, now: Time)
    ensures var completed := Targets(t, Complete(b, outputId, key, stats, counts, w, now));
      && (completed.Some? <==>
            && !Blank(w) && outputId != "" && key != "" && |b.parts| <= 99 && ValidBatch(b)
            && (forall k | k in BatchKeys(b) :: k in t && HeldOrFree(t[k], w)) && Key(b.job, outputId) !in t)
      && (completed.Some? ==> completed.value == BatchKeys(b))
  {
    hide Blank, ValidBatch, BatchKeys;
  }

  lemma ValidIsNotEmpty(parts: seq<Part>)
    requires ValidBatchParts(parts)
    ensures parts != []
  {}

  // ---- completion ----

  /** A completion goes through exactly for a known worker and output, at most 99 parts of one destination, rows that are all
      still the worker's or open and free, and an output id that is new. */
  lemma CompletionGuards(t: Table, b: Batch, outputId: string, key: string, stats: Stats, counts: map<string, nat>, w: string, now: Time)
    ensures var completed := Targets(t, Complete(b, outputId, key, stats, counts, w, now));
      && (completed.Some? <==>
            && !Blank(w) && outputId != "" && key != "" && |b.parts| <= 99
            && OneDestination(b.parts) && b.job == b.parts[0].key.job
            && (forall p | p in b.parts :: p.key in t && HeldOrFree(t[p.key], w))
            && Key(b.job, outputId) !in t)
      && (completed.Some? ==> completed.value == set p | p in b.parts :: p.key)
  {
    CompletionTargets(t, b, outputId, key, stats, counts, w, now);
    ValidMeansOneDestination(b.parts);
    RowsOfBatch(b, k => k in t && HeldOrFree(t[k], w));
    hide Targets, Blank, BatchKeys, ValidBatchParts, OneDestination, HeldOrFree;
    if ValidBatch(b) { ValidIsNotEmpty(b.parts); }
  }

  /** Since when an artifact has been waiting to be compacted. */
  function WaitingSince(p: Part): Time {
    if p.compactReadyAt.Some? then p.compactReadyAt.value
    else if p.progressUpdatedAt.Some? then p.progressUpdatedAt.value
    else p.updatedAt
  }

  lemma {:induction false} LatestReady(parts: seq<Part>)
    requires parts != []
    ensures (forall p | p in parts :: WaitingSince(p) <= OutputReadyAt(parts))
    ensures exists p | p in parts :: WaitingSince(p) == OutputReadyAt(parts)
  {
    var n := |parts| - 1;
    assert parts[n] in parts && WaitingSince(parts[n]) == ReadySince(parts[n]);
    if n > 0 {
      LatestReady(parts[..n]);
      assert forall p :: p in parts <==> p in parts[..n] || p == parts[n];
    } else {
      assert forall p | p in parts :: p == parts[0];
    }
  }

  /** The row a completion inserts: the batch's ids as inputs, its generation, the output's own statistics and partitions,
      ready since the latest input; finished at once, or open. */
  ghost predicate InsertedRow(q: Part, b: Batch, outputId: string, key: string, stats: Stats, counts: map<string, nat>,
                              requested: bool, now: Time)
    requires b.parts != []
  {
    && q.key == Key(b.job, outputId)
    && q.status == (if requested then Finished else CompactReady) && q.finishedAt == (if requested then Some(now) else None)
    && (forall id :: id in q.inputs <==> exists p | p in b.parts :: p.key.part == id)
    && (forall i, j | 0 <= i < j < |q.inputs| :: q.inputs[i] != q.inputs[j])
    && q.generation == b.generation && q.stats == stats
    && (forall id :: id in q.partitionCounts <==> id in counts && !Blank(id) && counts[id] > 0)
    && (forall id | id in q.partitionCounts :: q.partitionCounts[id] == counts[id])
    && q.bucket == b.parts[0].bucket && q.destination == b.parts[0].destination
    && q.sourceKey == key && q.finishedKey == key && q.source.None? && q.sourceBytes == 0
    && q.createdAt == now && q.updatedAt == now
    && q.workerId == "" && q.supersededBy == "" && q.compactingAt.None? && q.finalizeRequestedAt.None? && q.progress.None?
    && q.importingAt.None? && q.importedAt.None? && q.failedAt.None? && q.error == "" && q.attempts == 0
    && q.compactReadyAt == Some(OutputReadyAt(b.parts))
  }

  lemma OutputIsInserted(b: Batch, outputId: string, key: string, stats: Stats, counts: map<string, nat>, finished: bool, now: Time)
    requires b.parts != []
    ensures InsertedRow(CompactOutput(b, outputId, key, stats, counts, finished, now), b, outputId, key, stats, counts, finished, now)
  {
    InputsAreIds(b);
    hide Blank, OutputReadyAt, InputIds;
  }

  /** A completion adds exactly its output, finished exactly if some input row had a request pending. */
  lemma CompletionInserts(t: Table, b: Batch, outputId: string, key: string, stats: Stats, counts: map<string, nat>, w: string, now: Time)
    requires Targets(t, Complete(b, outputId, key, stats, counts, w, now)).Some? && b.parts != []
    ensures var t' := Apply(t, Complete(b, outputId, key, stats, counts, w, now));
      && t'.Keys == t.Keys + {Key(b.job, outputId)}
      && InsertedRow(t'[Key(b.job, outputId)], b, outputId, key, stats, counts,
                     exists p | p in b.parts :: p.key in t && t[p.key].finalizeRequestedAt.Some?, now)
  {
    var e := Complete(b, outputId, key, stats, counts, w, now);
    hide Targets, Mutated, CompactOutput, FinalizationPending, InsertedRow;
    RequestsPending(t, b);
    OutputIsInserted(b, outputId, key, stats, counts, FinalizationPending(t, BatchKeys(b)), now);
  }

  lemma RequestsPending(t: Table, b: Batch)
    ensures FinalizationPending(t, BatchKeys(b)) <==> exists p | p in b.parts :: p.key in t && t[p.key].finalizeRequestedAt.Some?
  {}

  lemma InputsAreIds(b: Batch)
    ensures forall id :: id in InputIds(b) <==> exists p | p in b.parts :: p.key.part == id
    ensures forall i, j | 0 <= i < j < |InputIds(b)| :: InputIds(b)[i] != InputIds(b)[j]
  {
    var ids := InputIds(b);
    forall i, j | 0 <= i < j < |ids| ensures ids[i] != ids[j] {
      Ordering.NameIrreflexive(ids[i]);
    }
  }
}
