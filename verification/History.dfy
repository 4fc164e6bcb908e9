/** Properties of a row's whole history: what is written once is never undone, and a finalization
    request is honoured by every path that leaves COMPACTING without a failure. */
module History {
  import opened Results
  import opened PartState
  import opened Text
  import opened Protocol
  import opened Lineage

  // ---- write-once lineage ----

  /** What no later step changes: the row, its inputs and generation, and, once superseded, everything. */
  ghost predicate Grows(t: Table, t': Table) {
    forall k | k in t ::
      && k in t'
      && t'[k].generation == t[k].generation && t'[k].inputs == t[k].inputs
      && (t[k].status == Superseded ==> t'[k] == t[k])
  }

  lemma TameGrows(t: Table, keys: set<Key>, f: Part -> Part, t': Table)
    requires Edited(t, keys, f, t') && forall k | k in keys :: k in t && Tame(t[k], f(t[k]))
    ensures Grows(t, t')
  {
    hide RowOk, SameArtifact;
  }

  lemma CompleteGrows(t: Table, b: Batch, output: Part, t': Table)
    requires Completed(t, b, output, t')
    ensures Grows(t, t')
  {
    hide RowOk, BatchKeys;
  }

  lemma StepGrows(s: System, e: Event)
    requires Inv(s) && Allowed(s, e)
    ensures Grows(s.table, Apply(s.table, e))
  {
    var t, t' := s.table, Apply(s.table, e);
    hide Forest, BatchOk, Targets, Mutated, FreshOriginal, Tame, Completed;
    if !Succeeds(t, e) {
    } else if e.Create? {
    } else if e.Complete? {
      var output := ApplyCompletes(t, e);
      CompleteGrows(t, e.batch, output, t');
    } else {
      ApplyEdits(t, e);
      forall k | k in Targets(t, e).value ensures k in t && Tame(t[k], Mutated(e, t[k])) { EditIsTame(t, e, k); }
      TameGrows(t, Targets(t, e).value, p => Mutated(e, p), t');
    }
  }

  lemma GrowsReflexive(t: Table)
    ensures Grows(t, t)
  {}

  lemma GrowsTransitive(a: Table, b: Table, c: Table)
    requires Grows(a, b) && Grows(b, c)
    ensures Grows(a, c)
  {}

  /** SUPERSEDED is terminal, and no row loses its place in the lineage. */
  lemma {:induction false} LineageIsWriteOnce(states: seq<System>, events: seq<Event>, i: nat, j: nat)
    requires Run(states, events) && i <= j < |states|
    ensures Grows(states[i].table, states[j].table)
    decreases j - i
  {
    hide Inv, Apply, Allowed, Grows, Next;
    if i == j {
      GrowsReflexive(states[i].table);
    } else {
      LineageIsWriteOnce(states, events, i, j - 1);
      RunsKeepInv(states, events, j - 1);
      RunStep(states, events, j - 1);
      StepGrows(states[j - 1], events[j - 1]);
      GrowsTransitive(states[i].table, states[j - 1].table, states[j].table);
    }
  }

  // ---- finalization requests ----

  /** Finished, and from then on only importing, retrying an import, or imported. */
  predicate Durable(p: Part) {
    p.status in {Finished, Importing, Imported} || (p.status == Failed && p.importingAt.Some?)
  }

  predicate Pending(p: Part) {
    p.status == Compacting && p.finalizeRequestedAt.Some?
  }

  /** The request is pending, or the row finished, or the artifact that absorbed it finished. */
  ghost predicate Honoured(t: Table, k: Key) {
    && k in t
    && (Pending(t[k]) || Durable(t[k]) ||
        (t[k].status == Superseded && Key(k.job, t[k].supersededBy) in t && Durable(t[Key(k.job, t[k].supersededBy)])))
  }

  /** The one step that drops a request: a worker reports its batch failed, and the store accepts the report. */
  ghost predicate FailsRow(t: Table, e: Event, k: Key) {
    e.FailBatch? && k in BatchKeys(e.batch) && Succeeds(t, e)
  }

  lemma DurableStays(p: Part, e: Event)
    requires Durable(p) && Guarded(e, p) && RowOk(p)
    ensures Durable(Mutated(e, p))
  {}

  lemma PendingExits(p: Part, w: string, progress: Option<CompactProgress>, finalize: bool, now: Time)
    requires Pending(p)
    ensures Pending(HeartbeatPatched(p, w, progress, now))
    ensures Pending(FinalizationRequested(p, now))
    ensures CompactReleased(p, finalize, now).status == Finished
    ensures StaleReleased(p, now).status == Finished
  {}

  lemma PendingIsHonoured(p: Part, e: Event)
    requires Pending(p) && Guarded(e, p) && !e.FailBatch? && !e.Complete?
    ensures Pending(Mutated(e, p)) || Durable(Mutated(e, p))
  {
    match e {
      case Heartbeat(_, w, progress, now) => PendingExits(p, w, progress, false, now);
      case RequestFinalization(_, now) => PendingExits(p, "", None, false, now);
      case ReleaseBatch(_, _, now, finalize) => PendingExits(p, "", None, finalize, now);
      case ReleaseStale(_, _, now) => PendingExits(p, "", None, false, now);
    }
  }

  lemma TameKeepsSuperseded(p: Part, q: Part)
    requires Tame(p, q)
    ensures p.status == Superseded ==> q == p
  {}

  lemma EditedHonours(t: Table, keys: set<Key>, e: Event, t': Table, k: Key)
    requires t'.Keys == t.Keys && forall x | x in t :: t'[x] == if x in keys then Mutated(e, t[x]) else t[x]
    requires forall x | x in keys :: x in t && RowOk(t[x]) && Guarded(e, t[x])
    requires forall x | x in keys && t[x].status == Superseded :: Mutated(e, t[x]) == t[x]
    requires Honoured(t, k) && !e.Complete? && (e.FailBatch? ==> k !in keys)
    ensures Honoured(t', k)
  {
    hide RowOk, Mutated, Guarded, Durable;
    if Durable(t[k]) {
      if k in keys { DurableStays(t[k], e); }
    } else if Pending(t[k]) {
      if k in keys { PendingIsHonoured(t[k], e); }
    } else {
      var up := Key(k.job, t[k].supersededBy);
      if up in keys { DurableStays(t[up], e); }
    }
  }

  lemma EditHonours(t: Table, e: Event, k: Key)
    requires Forest(t) && Succeeds(t, e) && !e.Create? && !e.Complete?
    requires Honoured(t, k) && !FailsRow(t, e, k)
    ensures Honoured(Apply(t, e), k)
  {
    hide RowOk, Forest, Tame, Guarded, Mutated, Durable, Honoured;
    var keys := Targets(t, e).value;
    assert e.FailBatch? ==> k !in keys;
    ApplyEdits(t, e);
    hide Apply, Succeeds, Targets;
    forall x | x in keys
      ensures x in t && RowOk(t[x]) && Guarded(e, t[x]) && (t[x].status == Superseded ==> Mutated(e, t[x]) == t[x])
    {
      TargetIsGuarded(t, e, x);
      EditIsTame(t, e, x);
      TameKeepsSuperseded(t[x], Mutated(e, t[x]));
      RowsOk(t, x);
    }
    EditedHonours(t, keys, e, Apply(t, e), k);
  }

  lemma CompletedHonours(t: Table, b: Batch, output: Part, t': Table, k: Key)
    requires Completed(t, b, output, t') && Honoured(t, k)
    requires forall x | x in BatchKeys(b) :: x.job == b.job
    requires FinalizationPending(t, BatchKeys(b)) ==> output.status == Finished
    ensures Honoured(t', k)
  {
    hide RowOk, Rewritten, SameArtifact, BatchKeys, InputIds;
    if k in BatchKeys(b) {
      assert Pending(t[k]);
      assert FinalizationPending(t, BatchKeys(b));
      assert t'[k].status == Superseded && Key(k.job, t'[k].supersededBy) == output.key;
    } else if t[k].status == Superseded {
      var up := Key(k.job, t[k].supersededBy);
      assert t'[k] == t[k];
      assert Durable(t[up]) ==> up !in BatchKeys(b);
      assert t'[up] == t[up];
    } else {
      assert t'[k] == t[k];
    }
  }

  lemma CompleteHonours(t: Table, e: Event, k: Key)
    requires Forest(t) && Succeeds(t, e) && e.Complete? && BatchOk(t, e.batch)
    requires Honoured(t, k)
    ensures Honoured(Apply(t, e), k)
  {
    hide Forest, BatchOk, Completed, Succeeds, Apply, RowOk, Honoured;
    var output := ApplyCompletes(t, e);
    forall x | x in BatchKeys(e.batch) ensures x.job == e.batch.job { BatchJob(t, e.batch, x); }
    CompletedHonours(t, e.batch, output, Apply(t, e), k);
  }

  lemma StepHonours(s: System, e: Event, k: Key)
    requires Inv(s) && Allowed(s, e) && Honoured(s.table, k) && !FailsRow(s.table, e, k)
    ensures Honoured(Apply(s.table, e), k)
  {
    hide Forest, Targets, BatchOk;
    if Succeeds(s.table, e) && !e.Create? {
      if e.Complete? { CompleteHonours(s.table, e, k); } else { EditHonours(s.table, e, k); }
    }
  }

  lemma RunLength(states: seq<System>, events: seq<Event>)
    requires Run(states, events)
    ensures |states| == |events| + 1
  {}

  lemma PendingMeansHonoured(t: Table, k: Key)
    requires k in t && Pending(t[k])
    ensures Honoured(t, k)
  {}

  /** A request made while a row is compacting is honoured in every later state, whatever heartbeats, progress
      updates, releases, stale releases, completions and refused failure reports race with it, unless the store accepts
      a failure report for the row. */
  lemma {:induction false} FinalizationIsHonoured(states: seq<System>, events: seq<Event>, i: nat, j: nat, k: Key)
    requires Run(states, events) && i <= j < |states|
    requires k in states[i].table && Pending(states[i].table[k])
    requires forall n | i <= n < j :: !FailsRow(states[n].table, events[n], k)
    ensures Honoured(states[j].table, k)
    decreases j - i
  {
    hide *;
    if i < j {
      RunLength(states, events);
      FinalizationIsHonoured(states, events, i, j - 1, k);
      RunsKeepInv(states, events, j - 1);
      RunStep(states, events, j - 1);
      StepHonours(states[j - 1], events[j - 1], k);
    } else {
      PendingMeansHonoured(states[i].table, k);
    }
  }

  // ---- partition names ----

  lemma RowAfter(t: Table, e: Event, k: Key)
    requires k in Apply(t, e)
    ensures || (k in t && (Apply(t, e)[k] == t[k] || Apply(t, e)[k] == Mutated(e, t[k])))
            || (e.Create? && FreshOriginal(e.part) && Apply(t, e)[k] == e.part)
            || (e.Complete? && e.batch.parts != [] && Apply(t, e)[k] == OutputOf(t, e))
  {
    hide Mutated, OutputOf, FreshOriginal, SourceMatches, Blank;
  }

  lemma MutationKeepsNames(e: Event, p: Part)
    requires CleanNames(p)
    ensures CleanNames(Mutated(e, p))
  {
    hide Blank;
  }

  lemma NewRowNames(t: Table, e: Event)
    ensures e.Create? && FreshOriginal(e.part) ==> CleanNames(e.part)
    ensures e.Complete? && e.batch.parts != [] ==> CleanNames(OutputOf(t, e))
  {
    hide Blank, SumStats, NextGeneration, InputIds, FinalizationPending, OutputReadyAt;
  }

  /** Every row of every run names its partitions so that the column's SQL and the Go code agree on them. */
  lemma {:induction false} RunsKeepCleanNames(states: seq<System>, events: seq<Event>, i: nat, k: Key)
    requires Run(states, events) && i < |states| && k in states[i].table
    ensures CleanNames(states[i].table[k])
    ensures forall id :: ColumnReads(states[i].table[k], id) <==> id == PartState.Partition(states[i].table[k])
  {
    hide Apply, Allowed, Next, CleanNames, Mutated, OutputOf, FreshOriginal, ColumnReads, PartState.Partition;
    if i > 0 {
      var t, e := states[i - 1].table, events[i - 1];
      RunStep(states, events, i - 1);
      RowAfter(t, e, k);
      NewRowNames(t, e);
      if k in t {
        RunsKeepCleanNames(states, events, i - 1, k);
        MutationKeepsNames(e, t[k]);
      }
    }
    forall id ensures ColumnReads(states[i].table[k], id) <==> id == PartState.Partition(states[i].table[k]) {
      ColumnReadsPartition(states[i].table[k], id);
    }
  }

  // ---- leases ----

  lemma KeptLease(p: Part, e: Event)
    requires p.status == Compacting && p.compactingAt.Some? && Guarded(e, p) && Mutated(e, p).status == Compacting
    ensures Mutated(e, p).compactingAt == p.compactingAt
  {
    hide Blank;
  }

  lemma StepKeepsLease(t: Table, e: Event, k: Key)
    requires k in t && k in Apply(t, e) && t[k].status == Apply(t, e)[k].status == Compacting && t[k].compactingAt.Some?
    ensures Apply(t, e)[k].compactingAt == t[k].compactingAt
  {
    hide Guarded, Mutated, MarkedSuperseded, Targets, OutputOf, FreshOriginal, SourceMatches, ValidBatch, BatchKeys;
    if Succeeds(t, e) && e.Create? {
      assert Apply(t, e)[k] == t[k];
    } else if Succeeds(t, e) && e.Complete? {
      CompleteTargets(t, e);
      SupersededStatus(t[k], e.outputId, e.now);
    } else if Succeeds(t, e) {
      ApplyEdits(t, e);
      if k in Targets(t, e).value {
        TargetIsGuarded(t, e, k);
        KeptLease(t[k], e);
      }
    }
  }

  lemma SupersededStatus(p: Part, output: string, now: Time)
    ensures MarkedSuperseded(p, output, now).status == Superseded
  {}

  /** The row is claimed for compaction since `claim`, and goes stale no later than counted from it. */
  ghost predicate LeasedSince(s: System, k: Key, claim: Time) {
    && k in s.table && s.table[k].status == Compacting && s.table[k].compactingAt == Some(claim)
    && StaleAt(s.table[k]).Some? && StaleAt(s.table[k]).value <= claim
  }

  ghost predicate IsCompacting(s: System, k: Key) {
    k in s.table && s.table[k].status == Compacting
  }

  lemma NextLease(s: System, e: Event, s': System, k: Key, claim: Time)
    requires s'.table == Apply(s.table, e) && LeasedSince(s, k, claim) && IsCompacting(s', k)
    ensures LeasedSince(s', k, claim)
  {
    hide Apply;
    StepKeepsLease(s.table, e, k);
    StaleByClaim(s'.table[k]);
  }

  /** While a row stays compacting, no heartbeat, progress update or request in any run moves its claim time or
      lets it go stale later than counted from the claim. */
  lemma {:induction false} LeaseNeverExtends(states: seq<System>, events: seq<Event>, i: nat, j: nat, k: Key, claim: Time)
    requires Run(states, events) && i <= j < |states| && LeasedSince(states[i], k, claim)
    requires forall n | i <= n <= j :: IsCompacting(states[n], k)
    ensures LeasedSince(states[j], k, claim)
    decreases j - i
  {
    hide Next, Apply, Allowed, LeasedSince, IsCompacting;
    if i < j {
      LeaseNeverExtends(states, events, i, j - 1, k, claim);
      RunStep(states, events, j - 1);
      NextLease(states[j - 1], events[j - 1], states[j], k, claim);
    }
  }

  lemma StaleByClaim(p: Part)
    requires p.status == Compacting && p.compactingAt.Some?
    ensures StaleAt(p).Some? && StaleAt(p).value <= p.compactingAt.value
  {}

  /** Retrying a failed part puts it back where it failed, with its artifact unchanged: a failed rewrite starts over,
      a failed compaction is open again, a failed import is finished again. */
  lemma RetryUndoesFailure(p: Part, cause: string, failedAt: Time, now: Time)
    requires RowOk(p)
    ensures p.status == InProgress ==>
              var q := RewriteFailed(p, cause, failedAt);
              FailedRetried(q, FailedRetryTarget(q), now) == RewriteReturned(p, now).(finishedAt := None, failedAt := None, importedAt := None)
    ensures p.status == Compacting ==>
              var q := CompactFailed(p, cause, failedAt);
              var r := FailedRetried(q, FailedRetryTarget(q), now);
              r.status == CompactReady && r.workerId == "" && SameArtifact(p, r) && RowOk(r)
    ensures p.status == Importing ==>
              var q := ImportFailed(p, cause, failedAt);
              var r := FailedRetried(q, FailedRetryTarget(q), now);
              r.status == Finished && r.importingAt.None? && SameArtifact(p, r) && RowOk(r)
  {
    assert p.importingAt.Some? ==> p.status in {Importing, Imported, Failed};
    hide CleanCounts, HasDestination;
  }
}
