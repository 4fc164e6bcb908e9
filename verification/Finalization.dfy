/** When the maintenance pass finishes an open artifact, told on the rows alone: neither the scheduling columns
    nor the statement's own summary of a job appear in the rule. */
module Finalization {
  import opened Results
  import opened Text
  import opened PartState
  import opened Protocol

  // ---- what the rows say ----

  /** Some partition of the artifact still has several physical parts, and the destination is known. */
  predicate IsFragmented(p: Part) {
    && !Blank(p.destination.database) && !Blank(p.destination.table) && !Blank(p.destination.schema)
    && p.stats.count > 0
    && exists id | id in p.partitionCounts :: !Blank(id) && p.partitionCounts[id] >= 2
  }

  /** The artifact is one physical part, and it lies in partition `id`. */
  predicate LiesIn(p: Part, id: string) {
    && p.stats.count == 1
    && !Blank(id) && id in p.partitionCounts && p.partitionCounts[id] == 1
    && forall other | other in p.partitionCounts && other != id :: Blank(other) || p.partitionCounts[other] == 0
  }

  ghost predicate IsNormalized(p: Part) {
    exists id :: LiesIn(p, id)
  }

  predicate InJob(t: Table, k: Key, job: string) {
    k in t && k.job == job
  }

  /** No original of the job was still being rewritten less than the window ago, and there is one that was rewritten. */
  ghost predicate DeadlinePassed(t: Table, job: string, window: int, now: Time) {
    && window > 0
    && (exists k :: InJob(t, k, job) && Stamp(t[k]).Some?)
    && forall k | InJob(t, k, job) && Stamp(t[k]).Some? :: Stamp(t[k]).value + window <= now
  }

  /** When an original was rewritten. */
  function Stamp(p: Part): Option<Time> {
    if p.inputs == [] && p.generation == 0 then p.compactReadyAt else None
  }

  /** Nothing of the job is waiting, being worked on, or failed. */
  predicate NothingElseToDo(t: Table, job: string) {
    forall k | k in t && k.job == job :: t[k].status !in {Ready, InProgress, Compacting, Failed}
  }

  predicate NoFragmentedOpen(t: Table, job: string) {
    forall k | k in t && k.job == job && t[k].status == CompactReady :: !IsFragmented(t[k])
  }

  predicate NothingBeingRewritten(t: Table, job: string) {
    forall k | k in t && k.job == job :: t[k].status !in {Ready, InProgress}
  }

  /** Another artifact of the job that is being compacted, or is fragmented and open, names the partition. */
  predicate TouchedByAnother(t: Table, k: Key, id: string) {
    exists s | s in t ::
      && s.job == k.job && s != k && id in t[s].partitionCounts
      && (t[s].status == Compacting || (t[s].status == CompactReady && IsFragmented(t[s])))
  }

  /** Another open artifact of the job lies in the partition, and the two fit the byte cap together. */
  predicate HasPartner(t: Table, k: Key, id: string, maxBytes: nat)
    requires k in t
  {
    exists s | s in t ::
      && s.job == k.job && s != k && t[s].status == CompactReady && LiesIn(t[s], id)
      && (maxBytes == 0 || t[s].stats.bytes + t[k].stats.bytes <= maxBytes)
  }

  /** The whole job may finish: it is at rest, and its deadline has passed or, without a window, nothing is left to merge. */
  ghost predicate JobFinishes(t: Table, job: string, window: int, now: Time) {
    NothingElseToDo(t, job) && (DeadlinePassed(t, job, window, now) || (window <= 0 && NoFragmentedOpen(t, job)))
  }

  /** Nothing can merge with the artifact any more. */
  ghost predicate LeftAlone(t: Table, k: Key, maxBytes: nat)
    requires k in t
  {
    && NothingBeingRewritten(t, k.job)
    && forall id | LiesIn(t[k], id) :: !TouchedByAnother(t, k, id) && !HasPartner(t, k, id, maxBytes)
  }

  /** When an open artifact is finished. */
  ghost predicate MayFinish(t: Table, k: Key, window: int, maxArtifacts: int, maxBytes: nat, now: Time)
    requires k in t
  {
    if !IsNormalized(t[k]) then JobFinishes(t, k.job, window, now)
    else || JobFinishes(t, k.job, window, now)
         || DeadlinePassed(t, k.job, window, now)
         || maxArtifacts < 2
         || LeftAlone(t, k, maxBytes)
  }

  /** A job at rest with an open artifact and a window, whose originals carry no stamp: the pass reports it and changes nothing. */
  ghost predicate NoDeadline(t: Table, job: string, window: int) {
    && (exists k :: InJob(t, k, job) && t[k].status == CompactReady)
    && NothingElseToDo(t, job) && window > 0
    && forall k | InJob(t, k, job) :: Stamp(t[k]).None?
  }

  // ---- the same facts by column ----

  lemma FragmentedIsEligible(p: Part)
    ensures IsFragmented(p) <==> Eligible(p)
  {
    hide Blank;
  }

  lemma OnlyMember<T>(s: set<T>, x: T)
    requires x in s && forall y | y in s :: y == x
    ensures |s| == 1
  {
    assert s == {x};
  }

  lemma LiesInPartition(p: Part, id: string)
    ensures LiesIn(p, id) <==> Normalized(p) && Partition(p) == id
  {
    hide Blank;
    var live := LivePartitions(p);
    if LiesIn(p, id) {
      forall y | y in live ensures y == id {}
      OnlyMember(live, id);
      assert live == {id};
      assert Normalized(p) && Partition(p) in live;
    }
    if Normalized(p) && Partition(p) == id {
      assert live == {id};
      assert id in live && p.partitionCounts[id] == 1;
      forall other | other in p.partitionCounts && other != id ensures Blank(other) || p.partitionCounts[other] == 0 {
        assert other !in live;
      }
    }
  }

  lemma NormalizedLies(p: Part)
    ensures IsNormalized(p) <==> Normalized(p)
    ensures Normalized(p) ==> LiesIn(p, Partition(p))
  {
    hide LiesIn, Normalized, Partition;
    forall id ensures LiesIn(p, id) <==> Normalized(p) && Partition(p) == id { LiesInPartition(p, id); }
    assert Normalized(p) ==> LiesIn(p, Partition(p));
  }

  lemma StampIsReadyAt(p: Part)
    ensures Stamp(p) == OriginalReadyAt(p)
  {}

  lemma PassedIsExpired(t: Table, job: string, window: int, now: Time)
    ensures DeadlinePassed(t, job, window, now) <==> Expired(t, job, window, now)
  {
    forall k | k in t ensures Stamp(t[k]) == OriginalReadyAt(t[k]) { StampIsReadyAt(t[k]); }
    hide Stamp, OriginalReadyAt;
    var last := LastOriginalReady(t, job);
    if last.Some? {
      var k :| k in t && k.job == job && OriginalReadyAt(t[k]) == last;
      assert InJob(t, k, job);
    }
    hide LastOriginalReady;
  }

  lemma AtRest(t: Table, job: string)
    ensures NothingElseToDo(t, job) <==> !Blocked(t, job)
    ensures NothingBeingRewritten(t, job) <==> !Rewriting(t, job)
    ensures NoFragmentedOpen(t, job) <==> !HasEligible(t, job)
  {
    forall k | k in t ensures IsFragmented(t[k]) <==> Eligible(t[k]) { FragmentedIsEligible(t[k]); }
    hide IsFragmented, Eligible;
  }

  lemma JobFinishesIsAll(t: Table, job: string, window: int, now: Time)
    ensures JobFinishes(t, job, window, now) <==> FinalizeAll(t, job, window, now)
  {
    PassedIsExpired(t, job, window, now);
    AtRest(t, job);
    assert window <= 0 ==> !DeadlinePassed(t, job, window, now);
    hide DeadlinePassed, Expired, NothingElseToDo, NoFragmentedOpen, Blocked, HasEligible;
  }

  lemma AnotherIsMergeable(t: Table, k: Key, maxBytes: nat)
    requires k in t && Normalized(t[k])
    ensures TouchedByAnother(t, k, Partition(t[k])) || HasPartner(t, k, Partition(t[k]), maxBytes) <==> StillMergeable(t, k, maxBytes)
  {
    forall s | s in t
      ensures (LiesIn(t[s], Partition(t[k])) <==> Normalized(t[s]) && Partition(t[s]) == Partition(t[k])) &&
              (IsFragmented(t[s]) <==> Eligible(t[s]))
    {
      LiesInPartition(t[s], Partition(t[k]));
      FragmentedIsEligible(t[s]);
    }
    hide LiesIn, IsFragmented, Eligible, Normalized, Partition;
  }

  lemma LeftAloneIsUnmergeable(t: Table, k: Key, maxBytes: nat)
    requires k in t && Normalized(t[k])
    ensures LeftAlone(t, k, maxBytes) <==> !(Rewriting(t, k.job) || StillMergeable(t, k, maxBytes))
  {
    AtRest(t, k.job);
    AnotherIsMergeable(t, k, maxBytes);
    forall id ensures LiesIn(t[k], id) <==> id == Partition(t[k]) { LiesInPartition(t[k], id); }
    hide LiesIn, Normalized, Partition, TouchedByAnother, HasPartner, StillMergeable, NothingBeingRewritten, Rewriting;
  }

  /** The statement's condition is the rule on the rows. */
  lemma FinalizableExactly(t: Table, k: Key, window: int, batching: Batching, now: Time)
    requires k in t && t[k].status == CompactReady
    ensures Finalizable(t, k, window, batching, now) <==> MayFinish(t, k, window, batching.maxArtifacts, batching.maxBytes, now)
  {
    NormalizedLies(t[k]);
    JobFinishesIsAll(t, k.job, window, now);
    PassedIsExpired(t, k.job, window, now);
    if Normalized(t[k]) { LeftAloneIsUnmergeable(t, k, batching.maxBytes); }
    assert Normalized(t[k]) ==> HasNormalized(t, k.job);
    hide Normalized, IsNormalized, JobFinishes, FinalizeAll, DeadlinePassed, Expired, LeftAlone, Rewriting, StillMergeable, HasNormalized;
  }

  lemma NoDeadlineIsMissing(t: Table, job: string, window: int)
    ensures NoDeadline(t, job, window) <==> MissingDeadline(t, job, window)
  {
    AtRest(t, job);
    forall k | k in t ensures Stamp(t[k]) == OriginalReadyAt(t[k]) { StampIsReadyAt(t[k]); }
    hide Stamp, OriginalReadyAt, NothingElseToDo, Blocked;
    assert (exists k :: InJob(t, k, job) && t[k].status == CompactReady) <==> HasCompactReady(t, job);
    hide HasCompactReady;
    assert (forall k | InJob(t, k, job) :: Stamp(t[k]).None?) <==> LastOriginalReady(t, job).None?;
  }

  // ---- the pass ----

  /** The pass is refused for an empty job name, or when a job in scope has no deadline. */
  lemma PassSucceedsExactly(t: Table, only: Option<string>, window: int, batching: Batching, hidden: set<Key>, now: Time)
    ensures Targets(t, Finalize(only, window, batching, hidden, now)).Some? <==>
              && only != Some("")
              && forall job | NoDeadline(t, job, window) :: only.Some? && only.value != job
  {
    forall job ensures NoDeadline(t, job, window) <==> MissingDeadline(t, job, window) { NoDeadlineIsMissing(t, job, window); }
    forall job | MissingDeadline(t, job, window) ensures job in ReadyJobs(t) { ReadyJobIsListed(t, job); }
    hide NoDeadline, MissingDeadline, ReadyJobs, AllFinalizeKeys;
  }

  lemma ReadyJobIsListed(t: Table, job: string)
    requires HasCompactReady(t, job)
    ensures job in ReadyJobs(t)
  {}

  /** Exactly which open artifacts a pass finishes: those in scope that nobody has locked and the rule lets finish.
      Every other row stays as it is. */
  lemma FinishesExactly(t: Table, only: Option<string>, window: int, batching: Batching, hidden: set<Key>, now: Time, k: Key)
    requires Targets(t, Finalize(only, window, batching, hidden, now)).Some? && k in t
    ensures var q := Apply(t, Finalize(only, window, batching, hidden, now));
      && k in q
      && (t[k].status == CompactReady ==>
            (q[k].status == Finished <==>
               && k !in hidden && (only.Some? ==> only.value == k.job)
               && MayFinish(t, k, window, batching.maxArtifacts, batching.maxBytes, now)))
      && (q[k].status != Finished || t[k].status != CompactReady ==> q[k] == t[k])
  {
    var keys := AllFinalizeKeys(t, only, window, batching, hidden, now);
    if t[k].status == CompactReady { FinalizableExactly(t, k, window, batching, now); }
    assert Finalizable(t, k, window, batching, now) ==> t[k].status == CompactReady;
    hide Finalizable, MayFinish;
    assert t[k].status == CompactReady ==> k.job in ReadyJobs(t);
    assert k in keys <==> t[k].status == CompactReady && k !in hidden && (only.Some? ==> only.value == k.job) &&
                          Finalizable(t, k, window, batching, now);
    hide AllFinalizeKeys, Targets, ReadyJobs;
    PassEdits(t, only, window, batching, hidden, now);
  }

  lemma PassEdits(t: Table, only: Option<string>, window: int, batching: Batching, hidden: set<Key>, now: Time)
    requires Targets(t, Finalize(only, window, batching, hidden, now)).Some?
    ensures var q := Apply(t, Finalize(only, window, batching, hidden, now));
      && q.Keys == t.Keys
      && forall k | k in t ::
           if k in AllFinalizeKeys(t, only, window, batching, hidden, now) then q[k].status == Finished else q[k] == t[k]
  {
    hide AllFinalizeKeys, MissingDeadline, FreshOriginal, SourceMatches, ValidBatchParts, OutputOf, JobsInScope;
  }
}
