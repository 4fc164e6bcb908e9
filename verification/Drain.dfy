/** The compaction phase drains: an open artifact always has a way forward, and the ways forward run out. */
module Drain {
  import opened Results
  import opened PartState
  import opened Text
  import opened Protocol
  import opened Lineage
  import opened Sums
  import Claims

  // ---- no stuck artifact ----

  /** Under every row that was rewritten lies an original part with a compact-ready stamp. */
  lemma {:induction false} OriginalBelow(t: Table, k: Key) returns (o: Key)
    requires Forest(t) && k in t && t[k].compactReadyAt.Some?
    ensures o in t && o.job == k.job && OriginalReadyAt(t[o]).Some?
    decreases t[k].generation
  {
    if !IsGenerated(t[k]) {
      o := k;
    } else {
      var i := InputBelow(t, k);
      o := OriginalBelow(t, i);
    }
  }

  lemma InputBelow(t: Table, k: Key) returns (i: Key)
    requires Forest(t) && k in t && IsGenerated(t[k])
    ensures i in t && i.job == k.job && t[i].generation < t[k].generation && t[i].compactReadyAt.Some?
  {
    assert InputsOk(t, k) && RowOk(t[k]);
    i := Key(k.job, t[k].inputs[0]);
    assert RowOk(t[i]);
  }

  /** Rewrites are done, nothing failed, and no worker holds a batch of the job. */
  ghost predicate Quiet(t: Table, job: string) {
    !Blocked(t, job)
  }

  /** Open artifacts of one job share bucket and destination. */
  ghost predicate Uniform(t: Table) {
    forall k, l | k in t && l in t && k.job == l.job && t[k].status == t[l].status == CompactReady ::
      t[k].bucket == t[l].bucket && t[k].destination == t[l].destination
  }

  /** A claim made now, with nothing locked by others, is granted a batch. */
  ghost predicate ClaimEnabled(t: Table, window: int, batching: Batching, now: Time) {
    var keys := ClaimSelection(t, window, batching, {}, now);
    keys != [] && forall w | !Blank(w) :: ValidBatchParts(ClaimedParts(t, keys, w, now))
  }

  lemma SelectionIsValid(t: Table, window: int, batching: Batching, now: Time)
    requires Forest(t) && Uniform(t) && ClaimSelection(t, window, batching, {}, now) != []
    ensures ClaimEnabled(t, window, batching, now)
  {
    hide InputsOk, OutputOk, RowOk;
    var keys := ClaimSelection(t, window, batching, {}, now);
    SelectionIsReady(t, window, batching, {}, now);
    SelectionIsOneJob(t, window, batching, now);
    hide ClaimSelection, Blank, Forest;
    forall w | !Blank(w) ensures ValidBatchParts(ClaimedParts(t, keys, w, now)) {
      var parts := ClaimedParts(t, keys, w, now);
      forall i | 0 <= i < |parts|
        ensures HasDestination(parts[i]) && parts[i].key.job == parts[0].key.job && parts[i].bucket == parts[0].bucket
        ensures parts[i].destination == parts[0].destination
      {
        assert keys[i] in keys && keys[0] in keys;
        RowsOk(t, keys[i]);
        ReadyHasDestination(t[keys[i]]);
      }
    }
  }

  lemma ReadyHasDestination(p: Part)
    requires RowOk(p) && p.status == CompactReady
    ensures HasDestination(p)
  {}

  lemma SelectionIsOneJob(t: Table, window: int, batching: Batching, now: Time)
    ensures forall k | k in ClaimSelection(t, window, batching, {}, now) ::
              k.job == ClaimSelection(t, window, batching, {}, now)[0].job
  {
    hide Normalized, Partition, Open, Eligible;
    var keys := ClaimSelection(t, window, batching, {}, now);
    if keys != [] && FragmentedCandidates(t, window, {}, now) == {} {
      Claims.NormalizedBatch(t, window, batching, {}, now, {});
    }
  }

  /** Some row of the job is one that a claim looks for. */
  ghost predicate JobHasCandidate(t: Table, job: string, window: int, batching: Batching, now: Time) {
    exists c | c in t && c.job == job ::
      c in FragmentedCandidates(t, window, {}, now) || (batching.Enabled() && c in AnchorCandidates(t, window, batching, {}, now))
  }

  /** With nothing locked by others, the claim of any worker succeeds and takes rows. */
  ghost predicate ClaimMoves(t: Table, window: int, batching: Batching, now: Time) {
    forall w | !Blank(w) :: Moves(t, ClaimCompact(w, window, batching, {}, now))
  }

  /** The row is finished by the maintenance pass, and by a finalization of its job alone. */
  ghost predicate FinishMoves(t: Table, k: Key, window: int, batching: Batching, now: Time) {
    forall only | only in {None, Some(k.job)} ::
      var e := Finalize(only, window, batching, {}, now);
      Moves(t, e) && k in Targets(t, e).value
  }

  /** The row can neither merge nor finish early: it waits for its job's deadline, which exists and has not passed. */
  ghost predicate WaitsForDeadline(t: Table, k: Key, window: int, now: Time)
    requires k in t
  {
    && !Eligible(t[k]) && !Normalized(t[k])
    && window > 0 && LastOriginalReady(t, k.job).Some? && now < LastOriginalReady(t, k.job).value + window
  }

  lemma DeadlineExists(t: Table, job: string, window: int)
    requires Forest(t) && HasCompactReady(t, job)
    ensures LastOriginalReady(t, job).Some? && !MissingDeadline(t, job, window)
  {
    var k :| k in t && k.job == job && t[k].status in {CompactReady};
    RowsOk(t, k);
    var o := OriginalBelow(t, k);
  }

  /** The window filter of a claim and the deadline test are exact complements. */
  lemma OpenUntilExpired(t: Table, job: string, window: int, now: Time)
    requires Forest(t) && HasCompactReady(t, job)
    ensures Open(t, job, window, now) <==> !Expired(t, job, window, now)
  {
    DeadlineExists(t, job, window);
  }

  lemma FinalizableMoves(t: Table, k: Key, window: int, batching: Batching, now: Time)
    requires Forest(t) && k in t && k.job != "" && Finalizable(t, k, window, batching, now)
    ensures FinishMoves(t, k, window, batching, now)
  {
    assert t[k].status == CompactReady by { OnlyReadyFinalizes(t, k, window, batching, now); }
    hide Forest, Finalizable, Moves, Targets;
    forall only | only in {None, Some(k.job)}
      ensures var e := Finalize(only, window, batching, {}, now); Moves(t, e) && k in Targets(t, e).value
    {
      NoDeadlineMissing(t, only, window);
      FinalizeTakes(t, only, k, window, batching, now);
    }
  }

  ghost predicate NoneMissing(t: Table, only: Option<string>, window: int) {
    !exists job | job in JobsInScope(t, only) :: MissingDeadline(t, job, window)
  }

  lemma NoDeadlineMissing(t: Table, only: Option<string>, window: int)
    requires Forest(t)
    ensures NoneMissing(t, only, window)
  {
    hide Forest, MissingDeadline, JobsInScope;
    forall job | job in JobsInScope(t, only) ensures !MissingDeadline(t, job, window) {
      ScopeIsReady(t, only, job);
      DeadlineExists(t, job, window);
    }
  }

  lemma ScopeIsReady(t: Table, only: Option<string>, job: string)
    requires job in JobsInScope(t, only)
    ensures HasCompactReady(t, job)
  {}

  lemma FinalizeTakes(t: Table, only: Option<string>, k: Key, window: int, batching: Batching, now: Time)
    requires NoneMissing(t, only, window) && only != Some("") && (only.Some? ==> only.value == k.job)
    requires k in t && t[k].status == CompactReady && Finalizable(t, k, window, batching, now)
    ensures var e := Finalize(only, window, batching, {}, now); Moves(t, e) && k in Targets(t, e).value
  {
    hide MissingDeadline, Finalizable;
    assert k.job in ReadyJobs(t);
    assert k in AllFinalizeKeys(t, only, window, batching, {}, now);
  }

  lemma EnabledClaimMoves(t: Table, window: int, batching: Batching, now: Time)
    requires ClaimEnabled(t, window, batching, now) && batching.maxArtifacts <= MAX_COMPACT_BATCH_PARTS
    ensures ClaimMoves(t, window, batching, now)
  {
    hide ClaimSelection, ValidBatchParts, Blank, ClaimedParts, Moves;
    forall w | !Blank(w) ensures Moves(t, ClaimCompact(w, window, batching, {}, now)) {
      ValidClaimMoves(t, w, window, batching, now);
    }
  }

  lemma ValidClaimMoves(t: Table, w: string, window: int, batching: Batching, now: Time)
    requires !Blank(w) && batching.maxArtifacts <= MAX_COMPACT_BATCH_PARTS
    requires var keys := ClaimSelection(t, window, batching, {}, now);
      keys != [] && ValidBatchParts(ClaimedParts(t, keys, w, now))
    ensures Moves(t, ClaimCompact(w, window, batching, {}, now))
  {
    hide ClaimSelection, ValidBatchParts, ClaimedParts;
    var keys, e := ClaimSelection(t, window, batching, {}, now), ClaimCompact(w, window, batching, {}, now);
    assert Targets(t, e) == Some(set k | k in keys);
    assert keys[0] in Targets(t, e).value;
  }

  /** A candidate row of the job makes a claim move. */
  lemma CandidateMoves(t: Table, c: Key, window: int, batching: Batching, now: Time)
    requires Forest(t) && Uniform(t) && batching.maxArtifacts <= MAX_COMPACT_BATCH_PARTS && c in t
    requires c in FragmentedCandidates(t, window, {}, now) ||
             (batching.Enabled() && c in AnchorCandidates(t, window, batching, {}, now))
    ensures JobHasCandidate(t, c.job, window, batching, now) && ClaimMoves(t, window, batching, now)
  {
    hide Forest, Uniform, ClaimEnabled, ClaimMoves, FragmentedCandidates, AnchorCandidates, ClaimSelection;
    if c in FragmentedCandidates(t, window, {}, now) {
      FragmentedIsSelected(t, c, window, batching, now);
    } else {
      SelectedOrFragmented(t, window, batching, now, c);
    }
    SelectionIsValid(t, window, batching, now);
    EnabledClaimMoves(t, window, batching, now);
  }

  lemma FragmentedIsSelected(t: Table, c: Key, window: int, batching: Batching, now: Time)
    requires c in FragmentedCandidates(t, window, {}, now)
    ensures ClaimSelection(t, window, batching, {}, now) != []
  {
    hide FragmentedCandidates;
  }

  lemma SelectedOrFragmented(t: Table, window: int, batching: Batching, now: Time, k: Key)
    requires batching.Enabled() && k in AnchorCandidates(t, window, batching, {}, now)
    ensures ClaimSelection(t, window, batching, {}, now) != []
  {
    hide SiblingSelection, Normalized, Mergeable;
    var anchors := AnchorCandidates(t, window, batching, {}, now);
    if FragmentedCandidates(t, window, {}, now) == {} {
      Claims.AnchorGetsBatch(t, First(t, anchors, ByBytes), window, batching, now);
    }
  }

  /** A normalized row with nothing fragmented in its quiet job anchors a claim or finishes. */
  lemma NormalizedMoves(t: Table, k: Key, window: int, batching: Batching, now: Time)
    requires Quiet(t, k.job) && k in t && t[k].status == CompactReady && Normalized(t[k])
    requires Open(t, k.job, window, now) && !HasEligible(t, k.job)
    ensures (batching.Enabled() && k in AnchorCandidates(t, window, batching, {}, now)) || Finalizable(t, k, window, batching, now)
  {
    hide Normalized, Partition, Eligible, Open, Expired;
    if batching.Enabled() && !exists s | s in t :: Mergeable(t, k, s, batching.maxBytes) {
      assert HasNormalized(t, k.job) && !Rewriting(t, k.job);
      forall s | s in t && s.job == k.job
        ensures t[s].status != Compacting && !(t[s].status == CompactReady && Eligible(t[s])) {}
      assert !StillMergeable(t, k, batching.maxBytes);
    } else if !batching.Enabled() {
      assert HasNormalized(t, k.job);
    }
  }

  lemma FragmentedInJob(t: Table, job: string, window: int, now: Time) returns (f: Key)
    requires Open(t, job, window, now) && HasEligible(t, job)
    ensures f in t && f.job == job && f in FragmentedCandidates(t, window, {}, now)
  {
    hide Open, Eligible;
    f :| f in t && f.job == job && t[f].status == CompactReady && Eligible(t[f]);
  }

  lemma NotAllMeansOpen(t: Table, job: string, window: int, now: Time)
    requires Quiet(t, job) && !FinalizeAll(t, job, window, now)
    ensures HasEligible(t, job) || (window > 0 && !Expired(t, job, window, now))
    ensures window > 0 ==> !Expired(t, job, window, now)
  {}

  lemma NotAllMeansClaimable(t: Table, job: string, window: int, now: Time)
    requires Forest(t) && HasCompactReady(t, job) && Quiet(t, job) && !FinalizeAll(t, job, window, now)
    ensures Open(t, job, window, now)
  {
    NotAllMeansOpen(t, job, window, now);
    if window > 0 { OpenUntilExpired(t, job, window, now); }
  }

  /** Every open row of a quiet job: its job has a candidate and a claim moves, or the row itself is finished,
      or it waits for the job's deadline. */
  lemma OpenRowMoves(t: Table, k: Key, window: int, batching: Batching, now: Time)
    requires Forest(t) && Uniform(t) && Quiet(t, k.job) && k in t && k.job != "" && t[k].status == CompactReady
    requires batching.maxArtifacts <= MAX_COMPACT_BATCH_PARTS
    ensures || (JobHasCandidate(t, k.job, window, batching, now) && ClaimMoves(t, window, batching, now))
            || FinishMoves(t, k, window, batching, now)
            || WaitsForDeadline(t, k, window, now)
  {
    assert HasCompactReady(t, k.job);
    DeadlineExists(t, k.job, window);
    var job := k.job;
    hide Forest, Uniform, Quiet, HasCompactReady, Open, Finalizable, FinalizeAll, HasEligible, JobHasCandidate, ClaimMoves, FinishMoves,
      FragmentedCandidates, AnchorCandidates, Eligible, Normalized, MissingDeadline;
    if FinalizeAll(t, job, window, now) {
      AllAreFinalizable(t, job, window, batching, now, k);
      FinalizableMoves(t, k, window, batching, now);
    } else {
      NotAllMeansOpen(t, job, window, now);
      NotAllMeansClaimable(t, job, window, now);
      if HasEligible(t, job) {
        var f := FragmentedInJob(t, job, window, now);
        CandidateMoves(t, f, window, batching, now);
      } else if Normalized(t[k]) {
        NormalizedMoves(t, k, window, batching, now);
        if Finalizable(t, k, window, batching, now) {
          FinalizableMoves(t, k, window, batching, now);
        } else {
          CandidateMoves(t, k, window, batching, now);
        }
      } else {
        NotEligible(t, k);
      }
    }
  }

  lemma NotEligible(t: Table, k: Key)
    requires k in t && t[k].status == CompactReady && !HasEligible(t, k.job)
    ensures !Eligible(t[k])
  {
    hide Eligible;
  }

  ghost predicate NamedJobs(t: Table) {
    forall k | k in t :: k.job != ""
  }

  lemma StepKeepsNamedJobs(s: System, e: Event)
    requires Inv(s) && Allowed(s, e) && NamedJobs(s.table)
    ensures NamedJobs(Apply(s.table, e))
  {
    var t := s.table;
    hide Forest, BatchOk, Mutated, OutputOf, SourceMatches, Completed;
    if Succeeds(t, e) && e.Complete? {
      var output := ApplyCompletes(t, e);
      BatchJobNamed(t, e.batch);
      CompletedJobs(t, e.batch, output, Apply(t, e));
    } else if Succeeds(t, e) && !e.Create? {
      ApplyEdits(t, e);
    }
  }

  lemma BatchJobNamed(t: Table, b: Batch)
    requires BatchOk(t, b) && NamedJobs(t)
    ensures b.job != ""
  {
    assert b.parts[0] in b.parts;
  }

  lemma CompletedJobs(t: Table, b: Batch, output: Part, t': Table)
    requires Completed(t, b, output, t') && NamedJobs(t) && b.job != ""
    ensures NamedJobs(t')
  {
    hide BatchKeys, Superseding;
  }

  lemma {:induction false} RunKeepsNamedJobs(states: seq<System>, events: seq<Event>, i: nat)
    requires Run(states, events) && i < |states|
    ensures NamedJobs(states[i].table)
  {
    hide Next, Inv, Apply, Allowed, NamedJobs;
    if i > 0 {
      RunKeepsNamedJobs(states, events, i - 1);
      RunsKeepInv(states, events, i - 1);
      RunStep(states, events, i - 1);
      StepKeepsNamedJobs(states[i - 1], events[i - 1]);
    } else {
      NothingIsNamed();
    }
  }

  lemma NothingIsNamed()
    ensures NamedJobs(START.table)
  {}

  /** No stuck artifact, in any state of any run: for every open row of a quiet job, a row of that job is one that claims look
      for and claims move, or the row itself is finished by the next finalization, or it waits for its job's deadline. */
  lemma NoStuckArtifact(states: seq<System>, events: seq<Event>, i: nat, k: Key, window: int, batching: Batching, now: Time)
    requires Run(states, events) && i < |states| && Uniform(states[i].table)
    requires k in states[i].table && states[i].table[k].status == CompactReady && Quiet(states[i].table, k.job)
    requires batching.maxArtifacts <= MAX_COMPACT_BATCH_PARTS
    ensures var t := states[i].table;
      || (JobHasCandidate(t, k.job, window, batching, now) && ClaimMoves(t, window, batching, now))
      || FinishMoves(t, k, window, batching, now)
      || WaitsForDeadline(t, k, window, now)
  {
    RunsKeepInv(states, events, i);
    RunKeepsNamedJobs(states, events, i);
    hide Run, Forest, Uniform, Quiet, JobHasCandidate, ClaimMoves, FinishMoves, WaitsForDeadline, BatchOk;
    OpenRowMoves(states[i].table, k, window, batching, now);
  }

  lemma AllAreFinalizable(t: Table, job: string, window: int, batching: Batching, now: Time, k: Key)
    requires FinalizeAll(t, job, window, now) && k in t && k.job == job && t[k].status == CompactReady
    ensures Finalizable(t, k, window, batching, now)
  {}

  /** At the deadline the finalizer takes every open row of a quiet job that nobody has locked. */
  lemma DeadlineFinishesAll(t: Table, job: string, window: int, batching: Batching, hidden: set<Key>, now: Time)
    requires Forest(t) && Quiet(t, job) && HasCompactReady(t, job) && Expired(t, job, window, now)
    ensures !MissingDeadline(t, job, window)
    ensures FinalizeKeys(t, job, window, batching, hidden, now) ==
            set k | k in t && k.job == job && k !in hidden && t[k].status == CompactReady
  {
    DeadlineExists(t, job, window);
    ExpiredFinalizesAll(t, job, window, now);
    hide Forest, Expired, MissingDeadline, Finalizable, Quiet, HasCompactReady, FinalizeAll;
    forall k | k in t && k.job == job
      ensures Finalizable(t, k, window, batching, now) <==> t[k].status == CompactReady
    {
      OnlyReadyFinalizes(t, k, window, batching, now);
      if t[k].status == CompactReady { AllAreFinalizable(t, job, window, batching, now, k); }
    }
  }

  lemma ExpiredFinalizesAll(t: Table, job: string, window: int, now: Time)
    requires Quiet(t, job) && Expired(t, job, window, now)
    ensures FinalizeAll(t, job, window, now)
  {}

  lemma OnlyReadyFinalizes(t: Table, k: Key, window: int, batching: Batching, now: Time)
    requires k in t
    ensures Finalizable(t, k, window, batching, now) ==> t[k].status == CompactReady
  {}

  /** The deadline of a job depends only on its originals' stamps, so nothing but a rewrite moves it. */
  lemma DeadlineIsFixed(t: Table, t': Table, job: string, window: int, now: Time)
    requires forall k | k in t && k.job == job :: k in t' && OriginalReadyAt(t'[k]) == OriginalReadyAt(t[k])
    requires forall k | k in t' && k.job == job && k !in t :: OriginalReadyAt(t'[k]).None?
    ensures LastOriginalReady(t', job) == LastOriginalReady(t, job)
    ensures Expired(t', job, window, now) == Expired(t, job, window, now)
  {
    var a, b := LastOriginalReady(t, job), LastOriginalReady(t', job);
    if a.Some? {
      var k :| k in t && k.job == job && OriginalReadyAt(t[k]) == a;
      assert OriginalReadyAt(t'[k]) == a;
    }
    if b.Some? {
      var k :| k in t' && k.job == job && OriginalReadyAt(t'[k]) == b;
      assert k in t && OriginalReadyAt(t[k]) == b;
    }
  }

  lemma EditsKeepStamp(p: Part, w: string, progress: Option<Stats>, cause: string, now: Time)
    ensures ClaimedForRewrite(p, w, now).compactReadyAt == p.compactReadyAt
    ensures RewriteProgressed(p, progress, now).compactReadyAt == p.compactReadyAt
    ensures RewriteFailed(p, cause, now).compactReadyAt == p.compactReadyAt
    ensures RewriteReturned(p, now).compactReadyAt == p.compactReadyAt
    ensures FailedRetried(p, FailedRetryTarget(p), now).compactReadyAt == p.compactReadyAt
    ensures ImportStarted(p, now).compactReadyAt == p.compactReadyAt
    ensures ImportCompleted(p, now).compactReadyAt == p.compactReadyAt
    ensures ImportReleased(p, now).compactReadyAt == p.compactReadyAt
    ensures ImportFailed(p, cause, now).compactReadyAt == p.compactReadyAt
  {}

  lemma OpenIsRewritten(p: Part)
    requires RowOk(p) && p.status in {CompactReady, Compacting}
    ensures Rewritten(p)
  {}

  lemma TameKeepsKind(p: Part, q: Part)
    requires Tame(p, q)
    ensures IsGenerated(q) == IsGenerated(p) && (Rewritten(p) ==> q.compactReadyAt == p.compactReadyAt)
  {}

  /** Only a finished rewrite stamps an original. */
  lemma StampOnlyByRewrite(e: Event, p: Part)
    requires RowOk(p) && Guarded(e, p) && !e.MarkCompactReady? && !e.Complete?
    ensures Mutated(e, p).compactReadyAt == p.compactReadyAt
    ensures IsGenerated(Mutated(e, p)) == IsGenerated(p)
  {
    hide RowOk, Tame, Rewritten, IsGenerated, Blank, ClaimedForRewrite, RewriteProgressed, RewriteFailed, RewriteReturned, FailedRetried,
      FailedRetryTarget, ImportStarted, ImportCompleted, ImportReleased, ImportFailed, CompactReleased, StaleReleased,
      CompactFailed, HeartbeatPatched, FinalizationRequested, BulkFinalized, ClaimedForCompaction, RewriteCompleted;
    MutationIsTame(e, p);
    TameKeepsKind(p, Mutated(e, p));
    if p.status in {CompactReady, Compacting} {
      OpenIsRewritten(p);
    } else {
      match e
      case ClaimReady(w, _, now) => EditsKeepStamp(p, w, None, "", now);
      case RewriteProgress(_, _, stats, now) => EditsKeepStamp(p, "", stats, "", now);
      case MarkFailed(_, _, cause, now) => EditsKeepStamp(p, "", None, cause, now);
      case ReleaseInProgress(_, _, now) => EditsKeepStamp(p, "", None, "", now);
      case RetryFailed(_, now) => EditsKeepStamp(p, "", None, "", now);
      case RetryInProgress(_, now) => EditsKeepStamp(p, "", None, "", now);
      case MarkImporting(_, now) => EditsKeepStamp(p, "", None, "", now);
      case MarkImported(_, now) => EditsKeepStamp(p, "", None, "", now);
      case ReleaseImport(_, now) => EditsKeepStamp(p, "", None, "", now);
      case MarkImportFailed(_, cause, now) => EditsKeepStamp(p, "", None, cause, now);
      case _ =>
    }
  }

  ghost predicate RewritesJob(e: Event, job: string) {
    (e.Create? && e.part.key.job == job) || (e.MarkCompactReady? && e.key.job == job)
  }

  lemma StepKeepsStamps(s: System, e: Event, job: string, k: Key)
    requires Inv(s) && Allowed(s, e) && !RewritesJob(e, job) && k in Apply(s.table, e) && k.job == job
    ensures k in s.table ==> OriginalReadyAt(Apply(s.table, e)[k]) == OriginalReadyAt(s.table[k])
    ensures k !in s.table ==> OriginalReadyAt(Apply(s.table, e)[k]).None?
  {
    var t := s.table;
    hide Forest, BatchOk, RowOk, Guarded, Mutated, OutputOf, FreshOriginal, SourceMatches, Completed;
    if !Succeeds(t, e) {
    } else if e.Create? {
      assert k != e.part.key;
    } else if e.Complete? {
      var output := ApplyCompletes(t, e);
      CompletedKeepsStamps(t, e.batch, output, Apply(t, e), k);
    } else {
      ApplyEdits(t, e);
      hide Apply, Targets, Succeeds;
      if k in Targets(t, e).value {
        TargetIsGuarded(t, e, k);
        RowsOk(t, k);
        NotThisRewrite(t, e, k, job);
        StampOnlyByRewrite(e, t[k]);
      }
    }
  }

  lemma NotThisRewrite(t: Table, e: Event, k: Key, job: string)
    requires Targets(t, e).Some? && k in Targets(t, e).value && k.job == job && !RewritesJob(e, job)
    ensures !e.MarkCompactReady?
  {}

  lemma CompletedKeepsStamps(t: Table, b: Batch, output: Part, t': Table, k: Key)
    requires BatchOk(t, b) && Completed(t, b, output, t') && output.inputs == InputIds(b) && k in t'
    ensures k in t ==> OriginalReadyAt(t'[k]) == OriginalReadyAt(t[k])
    ensures k !in t ==> OriginalReadyAt(t'[k]).None?
  {
    hide BatchOk, InputIds, BatchKeys, Superseding, OriginalReadyAt, Completed;
    InputIdsAreTheBatch(t, b);
    CompletedRow(t, b, output, t', k);
    if k in BatchKeys(b) {
      SupersedingKeepsStamp(t[k], t'[k], output.key.part);
    } else if k == output.key {
      GeneratedHasNoStamp(output);
    }
  }

  lemma CompletedRow(t: Table, b: Batch, output: Part, t': Table, k: Key)
    requires Completed(t, b, output, t') && k in t'
    ensures output.key !in t && (k in t || k == output.key)
    ensures if k in BatchKeys(b) then k in t && Superseding(t[k], t'[k], output.key.part)
            else if k == output.key then t'[k] == output else t'[k] == t[k]
  {
    hide BatchKeys, Superseding;
  }

  lemma SupersedingKeepsStamp(p: Part, q: Part, output: string)
    requires Superseding(p, q, output)
    ensures OriginalReadyAt(q) == OriginalReadyAt(p)
  {
    hide RowOk, Rewritten;
  }

  lemma GeneratedHasNoStamp(p: Part)
    requires p.inputs != []
    ensures OriginalReadyAt(p).None?
  {}

  /** Along every run in which no rewrite of the job is created or finished, the job's deadline stays the same. */
  lemma {:induction false} DeadlineStays(states: seq<System>, events: seq<Event>, i: nat, j: nat, job: string, window: int, now: Time)
    requires Run(states, events) && i <= j < |states|
    requires forall n | i <= n < j :: !RewritesJob(events[n], job)
    ensures LastOriginalReady(states[j].table, job) == LastOriginalReady(states[i].table, job)
    ensures Expired(states[j].table, job, window, now) <==> Expired(states[i].table, job, window, now)
    decreases j - i
  {
    hide Inv, Apply, Allowed, OriginalReadyAt, RewritesJob, Expired;
    if i < j {
      DeadlineStays(states, events, i, j - 1, job, window, now);
      RunsKeepInv(states, events, j - 1);
      RunStep(states, events, j - 1);
      var s, e, t' := states[j - 1], events[j - 1], states[j].table;
      forall k | k in t' && k.job == job
        ensures if k in s.table then OriginalReadyAt(t'[k]) == OriginalReadyAt(s.table[k]) else OriginalReadyAt(t'[k]).None?
      {
        StepKeepsStamps(s, e, job, k);
      }
      forall k | k in s.table ensures k in t' { StepKeepsRows(s.table, e, k); }
      hide Run;
      DeadlineIsFixed(s.table, t', job, window, now);
    }
  }

  lemma StepKeepsRows(t: Table, e: Event, k: Key)
    requires k in t
    ensures k in Apply(t, e)
  {
    hide Targets, Mutated, OutputOf, FreshOriginal, SourceMatches;
  }

  // ---- the measure ----

  /** Twice the physical parts still to be merged, plus one for every artifact waiting to be claimed. */
  function Weight(p: Part): nat {
    match p.status
    case CompactReady => 2 * p.stats.count + 1
    case Compacting => 2 * p.stats.count
    case _ => 0
  }

  function Weights(t: Table): Key -> nat {
    k => if k in t then Weight(t[k]) else 0
  }

  ghost function Measure(t: Table): nat {
    Sum(t.Keys, Weights(t))
  }

  /** The steps of the phase: everything but new rewrites, retries, and the unfinished releases that a shutdown or a
      stale lease causes; a completion reduced the batch's physical parts. */
  predicate Draining(e: Event) {
    match e
    case ClaimCompact(_, _, _, _, _) => true
    case Heartbeat(_, _, _, _) => true
    case RequestFinalization(_, _) => true
    case ReleaseBatch(_, _, _, finalize) => finalize
    case FailBatch(_, _, _, _) => true
    case Complete(b, _, _, stats, _, _, _) => stats.count < b.input.count
    case Finalize(_, _, _, _, _) => true
    case MarkImporting(_, _) => true
    case MarkImported(_, _) => true
    case ReleaseImport(_, _) => true
    case MarkImportFailed(_, _, _) => true
    case _ => false
  }

  /** A step that moves an artifact: a claim that returns a batch, a completion, a no-reduction finish, a finalization. */
  ghost predicate Moves(t: Table, e: Event) {
    Draining(e) && Succeeds(t, e) &&
    match e
    case ClaimCompact(_, _, _, _, _) => Targets(t, e).value != {}
    case ReleaseBatch(_, _, _, _) => true
    case Complete(_, _, _, _, _, _, _) => true
    case Finalize(_, _, _, _, _) => Targets(t, e).value != {}
    case _ => false
  }

  lemma MutationWeight(e: Event, p: Part)
    requires Draining(e) && !e.Complete? && Guarded(e, p)
    ensures Weight(Mutated(e, p)) <= Weight(p)
    ensures e.ClaimCompact? || e.Finalize? ==> Weight(Mutated(e, p)) < Weight(p)
    ensures e.ReleaseBatch? && p.stats.count > 0 ==> Weight(Mutated(e, p)) < Weight(p)
  {}

  lemma EditMeasure(t: Table, e: Event)
    requires Draining(e) && Succeeds(t, e) && !e.Create? && !e.Complete?
    requires e.ReleaseBatch? ==> BatchOk(t, e.batch)
    ensures Measure(Apply(t, e)) <= Measure(t)
    ensures Moves(t, e) ==> Measure(Apply(t, e)) < Measure(t)
  {
    hide Targets, Mutated, Weight, Measure, BatchOk, Guarded;
    var keys := Targets(t, e).value;
    ApplyEdits(t, e);
    if Moves(t, e) && e.ReleaseBatch? { BatchRowsCount(t, e); }
    forall k | k in keys
      ensures k in t && Weight(Mutated(e, t[k])) <= Weight(t[k]) && (Moves(t, e) ==> Weight(Mutated(e, t[k])) < Weight(t[k]))
    {
      TargetIsGuarded(t, e, k);
      MutationWeight(e, t[k]);
    }
    assert Moves(t, e) ==> keys != {};
    hide Apply, Succeeds, Moves;
    EditedMeasure(t, keys, p => Mutated(e, p), Apply(t, e), Moves(t, e));
  }

  lemma EditedMeasure(t: Table, keys: set<Key>, f: Part -> Part, t': Table, strictly: bool)
    requires Edited(t, keys, f, t')
    requires forall k | k in keys :: k in t && Weight(f(t[k])) <= Weight(t[k]) && (strictly ==> Weight(f(t[k])) < Weight(t[k]))
    requires strictly ==> keys != {}
    ensures Measure(t') <= Measure(t)
    ensures strictly ==> Measure(t') < Measure(t)
  {
    hide Weight, Sum;
    forall k | k in t.Keys ensures Weights(t')(k) <= Weights(t)(k) {}
    SumAtMost(t.Keys, Weights(t'), Weights(t));
    if strictly {
      var k :| k in keys;
      SumLess(t.Keys, Weights(t'), Weights(t), k);
    }
  }

  lemma BatchRowsCount(t: Table, e: Event)
    requires e.ReleaseBatch? && Succeeds(t, e) && BatchOk(t, e.batch)
    ensures Targets(t, e).value != {} && forall k | k in Targets(t, e).value :: k in t && t[k].stats.count > 0
  {
    assert e.batch.parts[0].key in BatchKeys(e.batch);
    forall k | k in BatchKeys(e.batch) ensures k in t && t[k].stats.count > 0 { BatchJob(t, e.batch, k); }
  }

  function PartKeys(parts: seq<Part>): set<Key> {
    set p | p in parts :: p.key
  }

  /** The batch's recorded input parts are the physical parts of its rows. */
  lemma {:induction false} InputCount(parts: seq<Part>, w: Key -> nat)
    requires forall i, j | 0 <= i < j < |parts| :: parts[i].key != parts[j].key
    requires forall p | p in parts :: w(p.key) >= 2 * p.stats.count
    ensures Sum(PartKeys(parts), w) >= 2 * SumStats(parts).count
  {
    if parts != [] {
      var front, last := parts[..|parts| - 1], parts[|parts| - 1];
      InputCount(front, w);
      FrontKeys(parts);
      hide PartKeys, Sum;
      SumRemove(PartKeys(parts), w, last.key);
    }
  }

  lemma FrontKeys(parts: seq<Part>)
    requires parts != []
    requires forall i, j | 0 <= i < j < |parts| :: parts[i].key != parts[j].key
    ensures parts[|parts| - 1].key in PartKeys(parts)
    ensures PartKeys(parts) - {parts[|parts| - 1].key} == PartKeys(parts[..|parts| - 1])
  {
    var keys, last, front := PartKeys(parts), parts[|parts| - 1], parts[..|parts| - 1];
    assert last in parts;
    forall k | k in keys - {last.key} ensures exists p | p in front :: p.key == k {
      var p :| p in parts && p.key == k;
      assert p in front;
    }
    forall p | p in front ensures p.key in keys - {last.key} {
      assert p in parts;
    }
  }

  lemma BatchWeight(t: Table, b: Batch, output: Part, t': Table)
    requires BatchOk(t, b) && Completed(t, b, output, t')
    ensures BatchKeys(b) <= t.Keys && Sum(BatchKeys(b), Weights(t)) >= 2 * b.input.count
  {
    hide SumStats, NextGeneration, ValidBatch, Completed, Weights, Rewritten, SameArtifact;
    forall p | p in b.parts ensures p.key in t && Weights(t)(p.key) >= 2 * p.stats.count {
      OpenBatchRow(t, b, output, t', p);
    }
    InputCount(b.parts, Weights(t));
    assert PartKeys(b.parts) == BatchKeys(b);
  }

  /** A completed batch's rows were open and still carried the recorded statistics. */
  lemma OpenBatchRow(t: Table, b: Batch, output: Part, t': Table, p: Part)
    requires BatchOk(t, b) && Completed(t, b, output, t') && p in b.parts
    ensures p.key in t && Weights(t)(p.key) >= 2 * p.stats.count
  {
    hide RowOk, Rewritten, Superseding, InputIds, ValidBatch, BatchOf;
    assert p.key in BatchKeys(b);
    assert SameArtifact(p, t[p.key]);
  }

  /** Trading the rows `keys` for one new row that weighs less. */
  lemma Trade(base: set<Key>, keys: set<Key>, extra: Key, w: Key -> nat, v: Key -> nat)
    requires keys <= base && extra !in base
    requires forall k | k in base - keys :: v(k) <= w(k)
    requires Sum(keys + {extra}, v) < Sum(keys, w)
    ensures Sum(base + {extra}, v) < Sum(base, w)
  {
    hide Sum;
    var rest := base - keys;
    assert base == rest + keys && base + {extra} == rest + (keys + {extra});
    SumUnion(rest, keys, w);
    SumUnion(rest, keys + {extra}, v);
    SumAtMost(rest, v, w);
  }

  lemma CompletedWeights(t: Table, b: Batch, output: Part, t': Table)
    requires Completed(t, b, output, t')
    ensures output.key in t' && t'[output.key] == output && output.key !in t && t'.Keys == t.Keys + {output.key}
    ensures forall k | k in BatchKeys(b) :: k in t && k in t' && t'[k].status == Superseded
    ensures forall k | k in t.Keys - BatchKeys(b) :: Weights(t')(k) <= Weights(t)(k)
  {
    hide RowOk, Rewritten, SameArtifact, BatchKeys, Weight;
  }

  lemma CompleteMeasure(t: Table, b: Batch, output: Part, t': Table)
    requires BatchOk(t, b) && Completed(t, b, output, t') && output.stats.count < b.input.count
    ensures Measure(t') < Measure(t)
  {
    BatchWeight(t, b, output, t');
    CompletedWeights(t, b, output, t');
    hide BatchOk, Completed, BatchKeys, Weights, Sum;
    OnlyOutputWeighs(t', BatchKeys(b), output);
    Trade(t.Keys, BatchKeys(b), output.key, Weights(t), Weights(t'));
  }

  lemma OnlyOutputWeighs(t: Table, keys: set<Key>, output: Part)
    requires output.key in t && t[output.key] == output && output.key !in keys
    requires forall k | k in keys :: k in t && t[k].status == Superseded
    ensures Sum(keys + {output.key}, Weights(t)) <= 2 * output.stats.count + 1
  {
    SumRemove(keys + {output.key}, Weights(t), output.key);
    assert keys + {output.key} - {output.key} == keys;
    SumAtMost(keys, Weights(t), (k: Key) => 0);
    ZeroSum(keys);
  }

  lemma {:induction false} ZeroSum(keys: set<Key>)
    ensures Sum(keys, (k: Key) => 0) == 0
    decreases keys
  {
    if keys != {} {
      var k :| k in keys;
      SumRemove(keys, (x: Key) => 0, k);
      ZeroSum(keys - {k});
    }
  }

  /** No step of the phase raises the measure, and each one that moves an artifact lowers it. */
  lemma StepDrains(s: System, e: Event)
    requires Inv(s) && Allowed(s, e) && Draining(e)
    ensures Measure(Apply(s.table, e)) <= Measure(s.table)
    ensures Moves(s.table, e) ==> Measure(Apply(s.table, e)) < Measure(s.table)
  {
    hide Forest, BatchOk, Targets, Measure, Completed;
    if !Succeeds(s.table, e) {
    } else if e.Complete? {
      var output := ApplyCompletes(s.table, e);
      CompleteMeasure(s.table, e.batch, output, Apply(s.table, e));
    } else {
      EditMeasure(s.table, e);
    }
  }

  ghost function MoveCount(states: seq<System>, events: seq<Event>, i: nat, j: nat): nat
    requires i <= j <= |events| < |states|
    decreases j - i
  {
    if i == j then 0
    else MoveCount(states, events, i, j - 1) + if Moves(states[j - 1].table, events[j - 1]) then 1 else 0
  }

  /** The phase ends: however its steps interleave, the claims, reduced completions, no-reduction finishes and
      finalizations of a whole run are at most the measure it started with. */
  lemma {:induction false} DrainBound(states: seq<System>, events: seq<Event>, i: nat, j: nat)
    requires Run(states, events) && i <= j < |states|
    requires forall n | i <= n < j :: Draining(events[n])
    ensures MoveCount(states, events, i, j) + Measure(states[j].table) <= Measure(states[i].table)
    decreases j - i
  {
    hide Inv, Measure, Apply, Allowed, Draining, Moves, Next;
    if i < j {
      DrainBound(states, events, i, j - 1);
      RunsKeepInv(states, events, j - 1);
      RunStep(states, events, j - 1);
      StepDrains(states[j - 1], events[j - 1]);
    }
  }
}
