/** The lineage invariant of the state table, its preservation by every step of every run,
    and exactly-once coverage of the original parts by the live ones. */
module Lineage {
  import opened Results
  import opened Ordering
  import opened PartState
  import opened Text
  import opened Protocol

  // ---- the invariant ----

  ghost predicate RowOk(p: Part) {
    && p.key.part != ""
    && (p.generation > 0 <==> |p.inputs| > 0)
    && (p.status in {Ready, InProgress} ==> !IsGenerated(p) && p.compactReadyAt.None?)
    && (p.status in {CompactReady, Compacting, Superseded} ==> p.compactReadyAt.Some?)
    && (IsGenerated(p) ==> p.compactReadyAt.Some?)
    && (p.compactReadyAt.Some? ==> HasDestination(p))
    && (p.importingAt.Some? ==> p.status in {Importing, Imported, Failed})
    && (p.status in {Importing, Imported} ==> p.importingAt.Some?)
    && (p.status == Superseded <==> p.supersededBy != "")
    && (p.finalizeRequestedAt.Some? ==> p.status == Compacting)
    && (if p.status in {InProgress, Compacting} then !Blank(p.workerId) else p.workerId == "")
    && p.partitionCounts == CleanCounts(p.partitionCounts)
  }

  ghost predicate Distinct(ids: seq<string>) {
    forall i, j | 0 <= i < j < |ids| :: ids[i] != ids[j]
  }

  /** A generated row's inputs exist, are distinct, name it as what superseded them, and are one generation older. */
  ghost predicate InputsOk(t: Table, k: Key)
    requires k in t
  {
    && Distinct(t[k].inputs)
    && (forall i | i in t[k].inputs ::
          && Key(k.job, i) in t
          && t[Key(k.job, i)].supersededBy == k.part
          && t[Key(k.job, i)].generation < t[k].generation)
    && (IsGenerated(t[k]) ==> exists i | i in t[k].inputs :: Key(k.job, i) in t && t[Key(k.job, i)].generation + 1 == t[k].generation)
  }

  /** A superseded row is an input of the row that superseded it. */
  ghost predicate OutputOk(t: Table, k: Key)
    requires k in t
  {
    t[k].supersededBy != "" ==>
      Key(k.job, t[k].supersededBy) in t && k.part in t[Key(k.job, t[k].supersededBy)].inputs
  }

  ghost predicate Forest(t: Table) {
    forall k | k in t :: RowOk(t[k]) && InputsOk(t, k) && OutputOk(t, k)
  }

  /** The part's rewrite is over for good: its artifact no longer changes. */
  ghost predicate Rewritten(p: Part) {
    p.status !in {Ready, InProgress} && p.compactReadyAt.Some?
  }

  ghost predicate SameArtifact(p: Part, q: Part) {
    && q.key == p.key && q.bucket == p.bucket
    && q.generation == p.generation && q.inputs == p.inputs
    && q.stats == p.stats && q.partitionCounts == p.partitionCounts
    && q.destination == p.destination && q.compactReadyAt == p.compactReadyAt
  }

  /** A granted batch still describes the artifacts of its rows, however long ago it was granted. */
  ghost predicate BatchOk(t: Table, b: Batch) {
    && ValidBatch(b) && b == BatchOf(b.parts)
    && (forall i, j | 0 <= i < j < |b.parts| :: b.parts[i].key != b.parts[j].key)
    && (forall p | p in b.parts :: p.stats.count > 0 && p.key in t && Rewritten(t[p.key]) && SameArtifact(p, t[p.key]))
  }

  ghost predicate Inv(s: System) {
    Forest(s.table) && forall b | b in s.held :: BatchOk(s.table, b)
  }

  // ---- one step ----

  /** An edit that leaves the lineage alone. */
  ghost predicate Tame(p: Part, q: Part) {
    && q.key == p.key && q.generation == p.generation && q.inputs == p.inputs
    && q.supersededBy == p.supersededBy && (p.status == Superseded ==> q == p)
    && RowOk(q)
    && (Rewritten(p) ==> Rewritten(q) && SameArtifact(p, q))
  }

  lemma CleanIsClean(counts: map<string, nat>)
    ensures CleanCounts(CleanCounts(counts)) == CleanCounts(counts)
  {}

  lemma SiblingSelectionIsReady(t: Table, anchor: Key, batching: Batching, hidden: set<Key>)
    requires anchor in t && batching.Enabled()
    ensures var keys := SiblingSelection(t, anchor, batching, hidden);
      && (forall i, j | 0 <= i < j < |keys| :: keys[i] != keys[j])
      && (forall k | k in keys :: k in SiblingCandidates(t, anchor, hidden))
  {
    var siblings := Siblings(t, anchor, hidden, batching.maxArtifacts);
    var all := Ordered(t, SiblingCandidates(t, anchor, hidden), ByBytes);
    assert siblings <= all;
    assert siblings[..TakeFitting(t, siblings, 0, batching.maxBytes)] <= all;
  }

  lemma SelectionIsReady(t: Table, window: int, batching: Batching, hidden: set<Key>, now: Time)
    ensures var keys := ClaimSelection(t, window, batching, hidden, now);
      && (forall i, j | 0 <= i < j < |keys| :: keys[i] != keys[j])
      && (forall k | k in keys :: k in t && k !in hidden && t[k].status == CompactReady && t[k].stats.count > 0)
  {
    var fragmented := FragmentedCandidates(t, window, hidden, now);
    if fragmented != {} {
      var k := First(t, fragmented, ByFragmentation);
      assert ClaimSelection(t, window, batching, hidden, now) == [k];
    } else if batching.Enabled() {
      var anchors := AnchorCandidates(t, window, batching, hidden, now);
      if anchors != {} {
        SiblingSelectionIsReady(t, First(t, anchors, ByBytes), batching, hidden);
      }
    }
  }

  // The mutations one by one.

  lemma RewriteEditsAreTame(p: Part, w: string, progress: Option<Stats>, cause: string, now: Time)
    requires RowOk(p)
    ensures p.status == Ready && !Blank(w) ==> Tame(p, ClaimedForRewrite(p, w, now))
    ensures p.status == InProgress ==> Tame(p, RewriteProgressed(p, progress, now))
    ensures p.status == InProgress ==> Tame(p, RewriteFailed(p, cause, now))
    ensures p.status == InProgress ==> Tame(p, RewriteReturned(p, now))
    ensures p.status == Failed ==> Tame(p, FailedRetried(p, FailedRetryTarget(p), now))
  {}

  lemma RewriteCompletedIsTame(p: Part, key: string, d: Destination, stats: Stats, counts: map<string, nat>, now: Time)
    requires RowOk(p) && p.status == InProgress
    requires !Blank(d.database) && !Blank(d.table) && !Blank(d.schema)
    ensures Tame(p, RewriteCompleted(p, key, d, stats, counts, now))
  {
    CleanIsClean(counts);
  }

  lemma CompactEditsAreTame(p: Part, w: string, progress: Option<CompactProgress>, now: Time)
    requires RowOk(p) && p.status in {CompactReady, Compacting}
    ensures p.status == CompactReady && !Blank(w) ==> Tame(p, ClaimedForCompaction(p, w, now))
    ensures !Blank(w) ==> Tame(p, HeartbeatPatched(p, w, progress, now))
    ensures Tame(p, FinalizationRequested(p, now))
    ensures p.status == CompactReady ==> Tame(p, BulkFinalized(p, now))
  {}

  lemma CompactExitsAreTame(p: Part, cause: string, finalize: bool, now: Time)
    requires RowOk(p) && p.status in {CompactReady, Compacting}
    ensures Tame(p, CompactReleased(p, finalize, now))
    ensures Tame(p, StaleReleased(p, now))
    ensures Tame(p, CompactFailed(p, cause, now))
  {
    ReleaseIsTame(p, finalize, now);
    StaleReleaseIsTame(p, now);
    CompactFailureIsTame(p, cause, now);
  }

  lemma ReleaseIsTame(p: Part, finalize: bool, now: Time)
    requires RowOk(p) && p.status in {CompactReady, Compacting}
    ensures Tame(p, CompactReleased(p, finalize, now))
  {}

  lemma StaleReleaseIsTame(p: Part, now: Time)
    requires RowOk(p) && p.status in {CompactReady, Compacting}
    ensures Tame(p, StaleReleased(p, now))
  {}

  lemma CompactFailureIsTame(p: Part, cause: string, now: Time)
    requires RowOk(p) && p.status in {CompactReady, Compacting}
    ensures Tame(p, CompactFailed(p, cause, now))
  {}

  lemma ImportEditsAreTame(p: Part, cause: string, now: Time)
    requires RowOk(p)
    ensures p.status == Finished ==> Tame(p, ImportStarted(p, now))
    ensures p.status == Importing ==> Tame(p, ImportCompleted(p, now))
    ensures p.status == Importing ==> Tame(p, ImportReleased(p, now))
    ensures p.status == Importing ==> Tame(p, ImportFailed(p, cause, now))
  {}

  /** What an update finds in a row before it writes it. */
  ghost predicate Guarded(e: Event, p: Part) {
    match e
    case Create(_) => false
    case ClaimReady(w, _, _) => p.status == Ready && !Blank(w)
    case RewriteProgress(_, _, _, _) => p.status == InProgress
    case MarkCompactReady(_, _, _, d, _, _, _) =>
      p.status == InProgress && !Blank(d.database) && !Blank(d.table) && !Blank(d.schema)
    case MarkFailed(_, _, _, _) => p.status == InProgress
    case ReleaseInProgress(_, _, _) => p.status == InProgress
    case RetryFailed(_, _) => p.status == Failed
    case RetryInProgress(_, _) => p.status == InProgress
    case ClaimCompact(w, _, _, _, _) => p.status == CompactReady && !Blank(w)
    case Heartbeat(_, w, _, _) => p.status in {CompactReady, Compacting} && !Blank(w)
    case RequestFinalization(_, _) => p.status in {CompactReady, Compacting}
    case ReleaseBatch(_, _, _, _) => p.status in {CompactReady, Compacting}
    case FailBatch(_, _, _, _) => p.status == Compacting
    case ReleaseStale(_, _, _) => p.status == Compacting
    case Complete(_, _, _, _, _, _, _) => p.status in {CompactReady, Compacting}
    case Finalize(_, _, _, _, _) => p.status == CompactReady
    case MarkImporting(_, _) => p.status == Finished
    case MarkImported(_, _) => p.status == Importing
    case ReleaseImport(_, _) => p.status == Importing
    case MarkImportFailed(_, _, _) => p.status == Importing
  }

  lemma TargetIsGuarded(t: Table, e: Event, k: Key)
    requires !e.Create? && Targets(t, e).Some? && k in Targets(t, e).value
    ensures k in t && Guarded(e, t[k])
  {
    hide Finalizable, ClaimSelection, ValidBatchParts, Blank, First;
    if e.ClaimCompact? { SelectionIsReady(t, e.window, e.batching, e.hidden, e.now); }
    if e.Finalize? { FinalizableIsReady(t, e); }
  }

  lemma FinalizableIsReady(t: Table, e: Event)
    requires e.Finalize?
    ensures forall k | k in AllFinalizeKeys(t, e.only, e.window, e.batching, e.hidden, e.now) :: k in t && t[k].status == CompactReady
  {}

  /** Every edit but supersession is tame. */
  lemma EditIsTame(t: Table, e: Event, k: Key)
    requires Forest(t) && !e.Create? && !e.Complete? && Targets(t, e).Some? && k in Targets(t, e).value
    ensures k in t && Tame(t[k], Mutated(e, t[k]))
  {
    TargetIsGuarded(t, e, k);
    hide InputsOk, OutputOk, Targets;
    assert RowOk(t[k]);
    hide Forest;
    MutationIsTame(e, t[k]);
  }

  lemma MutationIsTame(e: Event, p: Part)
    requires RowOk(p) && Guarded(e, p) && !e.Complete?
    ensures Tame(p, Mutated(e, p))
  {
    hide RowOk, Tame, Blank, IsGenerated, CompactReleased, StaleReleased, CompactFailed, FailedRetried, RewriteCompleted,
      HeartbeatPatched, ClaimedForRewrite;
    match e {
      case ClaimReady(w, _, now) => RewriteEditsAreTame(p, w, None, "", now);
      case RewriteProgress(_, _, stats, now) => RewriteEditsAreTame(p, "", stats, "", now);
      case MarkCompactReady(_, _, key, d, stats, counts, now) => RewriteCompletedIsTame(p, key, d, stats, counts, now);
      case MarkFailed(_, _, cause, now) => RewriteEditsAreTame(p, "", None, cause, now);
      case ReleaseInProgress(_, _, now) => RewriteEditsAreTame(p, "", None, "", now);
      case RetryFailed(_, now) => RewriteEditsAreTame(p, "", None, "", now);
      case RetryInProgress(_, now) => RewriteEditsAreTame(p, "", None, "", now);
      case ClaimCompact(w, _, _, _, now) => CompactEditsAreTame(p, w, None, now);
      case Heartbeat(_, w, progress, now) => CompactEditsAreTame(p, w, progress, now);
      case RequestFinalization(_, now) => CompactEditsAreTame(p, "", None, now);
      case ReleaseBatch(_, _, now, finalize) => CompactExitsAreTame(p, "", finalize, now);
      case FailBatch(_, _, cause, now) => CompactExitsAreTame(p, cause, false, now);
      case ReleaseStale(_, _, now) => CompactExitsAreTame(p, "", false, now);
      case Finalize(_, _, _, _, now) => CompactEditsAreTame(p, "", None, now);
      case MarkImporting(_, now) => ImportEditsAreTame(p, "", now);
      case MarkImported(_, now) => ImportEditsAreTame(p, "", now);
      case ReleaseImport(_, now) => ImportEditsAreTame(p, "", now);
      case MarkImportFailed(_, cause, now) => ImportEditsAreTame(p, cause, now);
    }
  }

  ghost predicate SameLinks(p: Part, q: Part) {
    q.generation == p.generation && q.inputs == p.inputs && q.supersededBy == p.supersededBy
  }

  lemma LinksKept(t: Table, t': Table, k: Key)
    requires k in t && t.Keys <= t'.Keys
    requires forall x | x in t :: SameLinks(t[x], t'[x])
    requires InputsOk(t, k) && OutputOk(t, k)
    ensures InputsOk(t', k) && OutputOk(t', k)
  {
    if IsGenerated(t[k]) {
      var i :| i in t[k].inputs && Key(k.job, i) in t && t[Key(k.job, i)].generation + 1 == t[k].generation;
      assert t'[Key(k.job, i)].generation + 1 == t'[k].generation;
    }
  }

  ghost predicate Edited(t: Table, keys: set<Key>, f: Part -> Part, t': Table) {
    && t'.Keys == t.Keys
    && forall k | k in t :: t'[k] == if k in keys then f(t[k]) else t[k]
  }

  lemma TameEditKeepsForest(t: Table, keys: set<Key>, f: Part -> Part, t': Table)
    requires Forest(t) && Edited(t, keys, f, t')
    requires forall k | k in keys :: k in t && Tame(t[k], f(t[k]))
    ensures Forest(t')
  {
    forall k | k in t' ensures SameLinks(t[k], t'[k]) && RowOk(t'[k]) {}
    forall k | k in t' ensures InputsOk(t', k) && OutputOk(t', k) { LinksKept(t, t', k); }
  }

  lemma TameEditKeepsBatch(t: Table, keys: set<Key>, f: Part -> Part, t': Table, b: Batch)
    requires BatchOk(t, b) && Edited(t, keys, f, t')
    requires forall k | k in keys :: k in t && Tame(t[k], f(t[k]))
    ensures BatchOk(t', b)
  {}

  lemma FreshRowOk(p: Part)
    requires FreshOriginal(p)
    ensures RowOk(p) && p.inputs == [] && p.supersededBy == "" && p.status == Ready
  {}

  lemma CreateKeepsForest(t: Table, p: Part, t': Table)
    requires Forest(t) && p.key !in t && t' == t[p.key := p]
    requires RowOk(p) && p.inputs == [] && p.supersededBy == ""
    ensures Forest(t')
  {
    forall k | k in t ensures InputsOk(t', k) && OutputOk(t', k) { LinksKept(t, t', k); }
  }

  // ---- supersession ----

  ghost predicate Superseding(p: Part, q: Part, output: string) {
    RowOk(q) && Rewritten(q) && SameArtifact(p, q) && q.supersededBy == output && q.status == Superseded
  }

  lemma SupersededRowOk(p: Part, output: string, now: Time)
    requires RowOk(p) && p.status in {CompactReady, Compacting} && output != ""
    ensures var q := MarkedSuperseded(p, output, now);
      Superseding(p, q, output)
  {}

  lemma BatchJob(t: Table, b: Batch, k: Key)
    requires BatchOk(t, b) && k in BatchKeys(b)
    ensures k.job == b.job && k in t && exists p | p in b.parts :: p.key == k && SameArtifact(p, t[k])
  {
    var p :| p in b.parts && p.key == k;
    var i :| 0 <= i < |b.parts| && b.parts[i] == p;
  }

  lemma InputIdsAreTheBatch(t: Table, b: Batch)
    requires BatchOk(t, b)
    ensures Distinct(InputIds(b)) && InputIds(b) != []
    ensures forall i :: i in InputIds(b) <==> Key(b.job, i) in BatchKeys(b)
    ensures forall k | k in BatchKeys(b) :: k.part in InputIds(b)
  {
    NameOrder();
    var ids := set p | p in b.parts :: p.key.part;
    assert b.parts[0].key.part in ids;
    forall i | i in InputIds(b) ensures Key(b.job, i) in BatchKeys(b) {
      var p :| p in b.parts && p.key.part == i;
      assert p.key in BatchKeys(b);
      BatchJob(t, b, p.key);
      assert p.key == Key(b.job, i);
    }
    forall k | k in BatchKeys(b) ensures k.part in InputIds(b) {
      var p :| p in b.parts && p.key == k;
      assert p.key.part in ids;
    }
    forall i, j | 0 <= i < j < |InputIds(b)| ensures InputIds(b)[i] != InputIds(b)[j] {
      assert NameLess(InputIds(b)[i], InputIds(b)[j]);
      NameIrreflexive(InputIds(b)[i]);
    }
  }

  lemma OutputRowOk(t: Table, b: Batch, outputId: string, key: string, stats: Stats, counts: map<string, nat>,
                    finished: bool, now: Time)
    requires BatchOk(t, b) && outputId != ""
    ensures var output := CompactOutput(b, outputId, key, stats, counts, finished, now);
      && RowOk(output) && output.key == Key(b.job, outputId) && output.supersededBy == ""
      && output.inputs == InputIds(b) && output.generation == b.generation
      && output.status == (if finished then Finished else CompactReady)
      && output.stats == stats
  {
    InputIdsAreTheBatch(t, b);
    CleanIsClean(counts);
    assert b.generation > 0 by { assert b.parts[0].generation < NextGeneration(b.parts); }
  }

  /** `t'` supersedes the batch's rows, which were still open, by the new row `output`. */
  ghost predicate Completed(t: Table, b: Batch, output: Part, t': Table) {
    && output.key !in t && output.key.job == b.job
    && t'.Keys == t.Keys + {output.key} && t'[output.key] == output
    && (forall k | k in BatchKeys(b) :: 
          && k in t && t[k].supersededBy == "" && t[k].status in {CompactReady, Compacting}
          && Superseding(t[k], t'[k], output.key.part))
    && forall k | k in t && k !in BatchKeys(b) :: t'[k] == t[k]
  }

  lemma NotSupersededOk(t: Table, k: Key)
    requires k in t && t[k].supersededBy == ""
    ensures OutputOk(t, k)
  {}

  lemma CompleteKeepsForest(t: Table, b: Batch, output: Part, t': Table)
    requires Forest(t) && BatchOk(t, b) && RowOk(output)
    requires output.inputs == InputIds(b) && output.generation == b.generation && output.supersededBy == ""
    requires Completed(t, b, output, t')
    ensures Forest(t')
  {
    hide RowOk, BatchOk, InputsOk, OutputOk, InputIds, Rewritten;
    forall k | k in t ensures RowOk(t'[k]) && InputsOk(t', k) && OutputOk(t', k) {
      assert RowOk(t[k]) && InputsOk(t, k) && OutputOk(t, k);
      CompleteKeepsInputs(t, b, output, t', k);
      CompleteKeepsOutput(t, b, output, t', k);
    }
    CompletedOutputInputs(t, b, output, t');
    NotSupersededOk(t', output.key);
    forall k | k in t' ensures RowOk(t'[k]) && InputsOk(t', k) && OutputOk(t', k) {
      assert k in t || k == output.key;
    }
  }

  lemma CompleteKeepsOutput(t: Table, b: Batch, output: Part, t': Table, k: Key)
    requires BatchOk(t, b) && k in t && OutputOk(t, k)
    requires output.inputs == InputIds(b)
    requires Completed(t, b, output, t')
    ensures OutputOk(t', k)
  {
    hide RowOk, BatchOk, Rewritten, InputIds;
    if k in BatchKeys(b) {
      InputIdsAreTheBatch(t, b);
      BatchJob(t, b, k);
      assert t'[k].supersededBy == output.key.part;
      assert Key(k.job, output.key.part) == output.key;
    } else if t[k].supersededBy != "" {
      var above := Key(k.job, t[k].supersededBy);
      assert t'[above].inputs == t[above].inputs;
    }
  }

  lemma CompleteKeepsInputs(t: Table, b: Batch, output: Part, t': Table, k: Key)
    requires Forest(t) && k in t && InputsOk(t, k)
    requires Completed(t, b, output, t')
    ensures InputsOk(t', k)
  {
    forall i | i in t[k].inputs
      ensures Key(k.job, i) in t && Key(k.job, i) !in BatchKeys(b)
    {
      assert RowOk(t[k]);
      assert t[Key(k.job, i)].supersededBy == k.part;
    }
    if IsGenerated(t[k]) {
      var i :| i in t[k].inputs && Key(k.job, i) in t && t[Key(k.job, i)].generation + 1 == t[k].generation;
      assert t'[Key(k.job, i)].generation + 1 == t'[k].generation;
    }
  }

  lemma CompletedOutputInputs(t: Table, b: Batch, output: Part, t': Table)
    requires BatchOk(t, b)
    requires output.inputs == InputIds(b) && output.generation == b.generation
    requires Completed(t, b, output, t')
    ensures InputsOk(t', output.key)
  {
    InputIdsAreTheBatch(t, b);
    forall i | i in output.inputs
      ensures Key(b.job, i) in t && t'[Key(b.job, i)].generation == t[Key(b.job, i)].generation < b.generation
    {
      BatchJob(t, b, Key(b.job, i));
    }
    var p :| p in b.parts && p.generation + 1 == NextGeneration(b.parts);
    assert p.key in BatchKeys(b);
    BatchJob(t, b, p.key);
    assert p.key == Key(b.job, p.key.part);
    assert t'[Key(b.job, p.key.part)].generation + 1 == output.generation;
  }

  lemma CompleteKeepsBatch(t: Table, b: Batch, output: Part, t': Table, other: Batch)
    requires BatchOk(t, other) && Completed(t, b, output, t')
    ensures BatchOk(t', other)
  {}

  // ---- every run ----

  lemma ApplyEdits(t: Table, e: Event)
    requires Succeeds(t, e) && !e.Create? && !e.Complete?
    ensures Edited(t, Targets(t, e).value, p => Mutated(e, p), Apply(t, e))
  {}

  lemma ApplyCompletes(t: Table, e: Event) returns (output: Part)
    requires Forest(t) && e.Complete? && Succeeds(t, e) && BatchOk(t, e.batch)
    ensures output == OutputOf(t, e)
    ensures RowOk(output) && output.key == Key(e.batch.job, e.outputId) && output.supersededBy == ""
    ensures output.inputs == InputIds(e.batch) && output.generation == e.batch.generation
    ensures output.status == if FinalizationPending(t, BatchKeys(e.batch)) then Finished else CompactReady
    ensures output.stats == e.stats
    ensures Completed(t, e.batch, output, Apply(t, e))
  {
    hide Forest, Apply;
    CompleteTargets(t, e);
    CompletedByApply(t, e);
    hide Succeeds, Completed, BatchOk, CompactOutput;
    output := OutputOf(t, e);
    OutputRowOk(t, e.batch, e.outputId, e.finishedKey, e.stats, e.counts, FinalizationPending(t, BatchKeys(e.batch)), e.now);
  }

  lemma CompletedByApply(t: Table, e: Event)
    requires Forest(t) && e.Complete? && Succeeds(t, e)
    ensures e.batch.parts != [] && Completed(t, e.batch, OutputOf(t, e), Apply(t, e))
  {
    hide InputsOk, OutputOk, RowOk, Apply;
    CompleteTargets(t, e);
    hide Targets, Succeeds, OutputOf, MarkedSuperseded, Rewritten, SameArtifact;
    forall k | k in BatchKeys(e.batch)
      ensures k in t && t[k].supersededBy == "" && Superseding(t[k], Apply(t, e)[k], e.outputId)
    {
      OpenRow(t[k]);
      SupersededRowOk(t[k], e.outputId, e.now);
    }
  }

  lemma OpenRow(p: Part)
    requires RowOk(p) && p.status != Superseded
    ensures p.supersededBy == ""
  {}

  lemma CompleteTargets(t: Table, e: Event)
    requires e.Complete? && Succeeds(t, e)
    ensures e.outputId != "" && e.batch.parts != [] && ValidBatch(e.batch) && Key(e.batch.job, e.outputId) !in t
    ensures forall k | k in BatchKeys(e.batch) :: k in t && t[k].status in {CompactReady, Compacting}
    ensures var t' := Apply(t, e);
      && t'.Keys == t.Keys + {OutputOf(t, e).key} && t'[OutputOf(t, e).key] == OutputOf(t, e)
      && forall k | k in t && k != OutputOf(t, e).key ::
           t'[k] == if k in BatchKeys(e.batch) then MarkedSuperseded(t[k], e.outputId, e.now) else t[k]
  {
    hide MarkedSuperseded, CompactOutput, Blank;
    forall k | k in BatchKeys(e.batch) ensures k in t && t[k].status in {CompactReady, Compacting} {
      assert OwnedOrUnownedReady(t[k], e.worker);
    }
  }

  lemma ClaimGrants(t: Table, e: Event, keys: seq<Key>)
    requires e.ClaimCompact? && Granted(t, e) != {}
    requires keys == ClaimSelection(t, e.window, e.batching, e.hidden, e.now)
    ensures var parts := ClaimedParts(t, keys, e.worker, e.now);
      && Granted(t, e) == {BatchOf(parts)} && ValidBatchParts(parts) && !Blank(e.worker)
      && Apply(t, e).Keys == t.Keys
      && forall k | k in t :: Apply(t, e)[k] == if k in keys then ClaimedForCompaction(t[k], e.worker, e.now) else t[k]
  {
    hide ClaimSelection, ValidBatchParts;
  }

  lemma ClaimedPartOk(p: Part, w: string, now: Time)
    requires RowOk(p) && p.status == CompactReady
    ensures var q := ClaimedForCompaction(p, w, now); q.key == p.key && q.stats == p.stats && Rewritten(q)
  {}

  lemma GrantedOk(t: Table, e: Event, b: Batch)
    requires Forest(t) && b in Granted(t, e)
    ensures BatchOk(Apply(t, e), b)
  {
    hide InputsOk, OutputOk, RowOk;
    var keys := ClaimSelection(t, e.window, e.batching, e.hidden, e.now);
    SelectionIsReady(t, e.window, e.batching, e.hidden, e.now);
    ClaimGrants(t, e, keys);
    hide Apply, Granted, ClaimSelection, Targets, Succeeds;
    ClaimedBatchOk(t, keys, e.worker, e.now, Apply(t, e));
  }

  lemma RowsOk(t: Table, k: Key)
    requires Forest(t) && k in t
    ensures RowOk(t[k])
  {}

  lemma ClaimedBatchOk(t: Table, keys: seq<Key>, w: string, now: Time, t': Table)
    requires Forest(t) && ValidBatchParts(ClaimedParts(t, keys, w, now))
    requires forall i, j | 0 <= i < j < |keys| :: keys[i] != keys[j]
    requires forall k | k in keys :: k in t && t[k].status == CompactReady && t[k].stats.count > 0
    requires t'.Keys == t.Keys
    requires forall k | k in keys :: t'[k] == ClaimedForCompaction(t[k], w, now)
    ensures BatchOk(t', BatchOf(ClaimedParts(t, keys, w, now)))
  {
    hide InputsOk, OutputOk, RowOk, NextGeneration, SumStats, Rewritten, HasDestination, Forest;
    var parts := ClaimedParts(t, keys, w, now);
    forall i | 0 <= i < |parts|
      ensures parts[i].key == keys[i] && parts[i].stats.count > 0 && t'[keys[i]] == parts[i] && Rewritten(parts[i])
    {
      assert keys[i] in keys;
      assert RowOk(t[keys[i]]) by { RowsOk(t, keys[i]); }
      ClaimedPartOk(t[keys[i]], w, now);
    }
    forall p | p in parts ensures p.stats.count > 0 && p.key in t' && Rewritten(t'[p.key]) && SameArtifact(p, t'[p.key]) {
      var i :| 0 <= i < |parts| && parts[i] == p;
    }
  }

  lemma CreateKeepsBatch(t: Table, p: Part, t': Table, b: Batch)
    requires BatchOk(t, b) && p.key !in t && t' == t[p.key := p]
    ensures BatchOk(t', b)
  {}

  lemma StepKeepsTable(s: System, e: Event)
    requires Inv(s) && Allowed(s, e)
    ensures Forest(Apply(s.table, e))
    ensures forall b | b in s.held :: BatchOk(Apply(s.table, e), b)
  {
    var t, t' := s.table, Apply(s.table, e);
    hide Forest, BatchOk, Targets, Mutated, FreshOriginal, RowOk, Tame, Completed;
    if !Succeeds(t, e) {
      assert t' == t;
    } else if e.Create? {
      FreshRowOk(e.part);
      CreateKeepsForest(t, e.part, t');
      forall b | b in s.held ensures BatchOk(t', b) { CreateKeepsBatch(t, e.part, t', b); }
    } else if e.Complete? {
      assert BatchOk(t, e.batch);
      var output := ApplyCompletes(t, e);
      CompleteKeepsForest(t, e.batch, output, t');
      forall b | b in s.held ensures BatchOk(t', b) { CompleteKeepsBatch(t, e.batch, output, t', b); }
    } else {
      var keys := Targets(t, e).value;
      ApplyEdits(t, e);
      forall k | k in keys ensures k in t && Tame(t[k], Mutated(e, t[k])) { EditIsTame(t, e, k); }
      TameEditKeepsForest(t, keys, p => Mutated(e, p), t');
      forall b | b in s.held ensures BatchOk(t', b) { TameEditKeepsBatch(t, keys, p => Mutated(e, p), t', b); }
    }
  }

  lemma NextKeepsInv(s: System, e: Event, s': System)
    requires Inv(s) && Next(s, e, s')
    ensures Inv(s')
  {
    StepKeepsTable(s, e);
    forall b | b in s'.held ensures BatchOk(s'.table, b) {
      if b in Granted(s.table, e) { GrantedOk(s.table, e, b); }
    }
  }

  lemma StartOk()
    ensures Inv(START)
  {}

  /** The lineage invariant holds in every state of every run, for any number of workers and any interleaving. */
  lemma {:induction false} RunsKeepInv(states: seq<System>, events: seq<Event>, i: nat)
    requires Run(states, events) && i < |states|
    ensures Inv(states[i])
  {
    hide Inv, Next;
    if i == 0 {
      StartOk();
    } else {
      RunsKeepInv(states, events, i - 1);
      NextKeepsInv(states[i - 1], events[i - 1], states[i]);
    }
  }
}
