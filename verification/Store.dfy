/** The state store: rows with stored scheduling columns, and the transactions as they are carried out, row by row.
    Every method is proved to do what Protocol says its transaction does, and to leave each stored column
    equal to the value the part determines. */
module Store {
  import opened Results
  import opened Ordering
  import opened PartState
  import opened Text
  import opened Protocol
  import Finalization
  import Lifecycle
  import Lineage

  /** `ok` and `t'` are what transaction `e` reports and leaves behind when it meets table `t`. */
  ghost predicate Did(t: Table, e: Event, ok: bool, t': Table) {
    (ok <==> Succeeds(t, e)) && t' == Apply(t, e)
  }

  function KeySet(keys: seq<Key>): set<Key> {
    set k | k in keys
  }

  /** validatePart: the row has an id, an artifact and keys, and does not reuse its own source. */
  predicate CompletePart(p: Part) {
    && p.key.job != "" && p.key.part != "" && p.bucket != "" && p.sourceKey != "" && p.finishedKey != "" && p.source != Some(p.key)
    && (p.source.Some? ==> (p.source.value.job == "" <==> p.source.value.part == ""))
  }

  datatype Claim = Granted(batch: Batch) | NothingToClaim | Rejected

  predicate Consistent(rows: map<Key, Row>) {
    forall k | k in rows :: rows[k].part.key == k && rows[k].cols == ColumnsOf(rows[k].part)
  }

  /** The parts by key. */
  function PartsOf(rows: map<Key, Row>): Table
    requires Consistent(rows)
  {
    map k | k in rows :: rows[k].part
  }

  class StateStore {
    var rows: map<Key, Row>

    /** Every stored column has the value its part determines. */
    ghost predicate Valid()
      reads this
    {
      Consistent(rows)
    }

    function Parts(): Table
      requires Valid()
      reads this
    {
      PartsOf(rows)
    }

    constructor ()
      ensures Valid() && Parts() == map[]
    {
      rows := map[];
    }

    // ---- single-row transactions ----

    /** Lock one row, check it, mutate it, write every column. */
    method UpdatePart(key: Key, condition: Part -> bool, mutate: Part -> Part) returns (ok: bool)
      requires Valid() && forall p :: mutate(p).key == p.key
      modifies this
      ensures Valid()
      ensures ok <==> key in old(Parts()) && condition(old(Parts())[key])
      ensures Parts() == if ok then Edit(old(Parts()), {key}, mutate) else old(Parts())
    {
      hide ColumnsOf;
      if key !in rows || !condition(rows[key].part) { return false; }
      rows := rows[key := Saved(mutate(rows[key].part))];
      return true;
    }

    /** Any complete part can be inserted; `Protocol` only creates the fresh originals the importers build. */
    method CreatePart(part: Part) returns (ok: bool)
      requires Valid()
      modifies this
      ensures Valid()
      ensures ok <==>
                && part.key.job != "" && part.key.part != "" && part.bucket != "" && part.sourceKey != "" && part.finishedKey != ""
                && part.source != Some(part.key)
                && (part.source.Some? ==> (part.source.value.job == "" <==> part.source.value.part == ""))
                && part.key !in old(Parts()) && SourceMatches(old(Parts()), part)
      ensures Parts() == if ok then old(Parts())[part.key := part] else old(Parts())
      ensures FreshOriginal(part) ==> Did(old(Parts()), Create(part), ok, Parts())
    {
      hide Did, ColumnsOf, FreshOriginal, Blank;
      ok := CompletePart(part);
      if ok && part.source.Some? && !Blank(part.source.value.job) {
        ok := part.source.value in rows;
        if ok {
          var source := rows[part.source.value].part;
          ok := !IsGenerated(source) && source.bucket == part.bucket && source.sourceKey == part.sourceKey;
        }
      }
      ok := ok && part.key !in rows;
      if ok { rows := rows[part.key := Saved(part)]; }
      CreateDid(old(Parts()), part, ok, Parts());
    }

    method MarkCompactReady(key: Key, worker: string, finishedKey: string, destination: Destination, stats: Stats,
                            counts: map<string, nat>, now: Time) returns (ok: bool)
      requires Valid()
      modifies this
      ensures Valid()
      ensures Did(old(Parts()), Event.MarkCompactReady(key, worker, finishedKey, destination, stats, counts, now), ok, Parts())
    {
      hide Did, Consistent, RewriteCompleted;
      ok := !Blank(worker) && !Blank(finishedKey) && (stats.count > 0 ==> |counts| > 0) &&
            !Blank(destination.database) && !Blank(destination.table) && !Blank(destination.schema);
      hide Blank;
      if ok {
        CompletedKey(finishedKey, destination, stats, counts, now);
        ok := UpdatePart(key, (p: Part) => p.status == InProgress && p.workerId == worker,
                         p => RewriteCompleted(p, finishedKey, destination, stats, counts, now));
      }
      CompactReadyDid(old(Parts()), key, worker, finishedKey, destination, stats, counts, now, ok, Parts());
    }

    /** The target of a retry comes from the caller's snapshot; where it agrees with the row, the retry is the protocol's. */
    method RetryFailedPart(snapshot: Part, now: Time) returns (ok: bool, target: Status)
      requires Valid()
      modifies this
      ensures Valid() && target == FailedRetryTarget(snapshot)
      ensures ok <==> snapshot.status == Failed && InStatus(old(Parts()), snapshot.key, Failed)
      ensures Parts() == if ok then old(Parts())[snapshot.key := FailedRetried(old(Parts())[snapshot.key], target, now)] else old(Parts())
      ensures ok ==> snapshot.key in Parts() && Parts()[snapshot.key].status == target
      ensures SameRetry(old(Parts()), snapshot) ==> Did(old(Parts()), RetryFailed(snapshot.key, now), ok, Parts())
    {
      hide Did, FailedRetryTarget, FailedRetried, Edit, SameRetry;
      ok := snapshot.status == Failed;
      target := FailedRetryTarget(snapshot);
      RetriedKey(target, now);
      if ok {
        var to := target;
        ok := UpdatePart(snapshot.key, (p: Part) => p.status == Failed, p => FailedRetried(p, to, now));
      }
      RetryDid(old(Parts()), snapshot, now, ok, Parts());
    }

    /** One statement patches the progress fields and only the columns they feed. */
    method UpdateRewriteProgress(key: Key, worker: string, destinationStats: Option<Stats>, now: Time) returns (ok: bool)
      requires Valid()
      modifies this
      ensures Valid() && Did(old(Parts()), RewriteProgress(key, worker, destinationStats, now), ok, Parts())
    {
      hide Did, ColumnsOf, Blank, Partition, SinglePartition, Fragmented, HasDestination, RewriteProgressed;
      ok := !Blank(worker) && key in rows;
      if ok { ColumnsShow(rows, key); }
      ok := ok && rows[key].cols.status == InProgress && rows[key].cols.workerId == worker;
      if ok {
        var row := rows[key];
        var cols := row.cols.(updatedAt := now);
        if destinationStats.Some? {
          var stats := destinationStats.value;
          cols := cols.(
            compactBytes := stats.bytes,
            compactParts := stats.count,
            eligible := stats.count > 0 && HasDestination(row.part) && Fragmented(row.part),
            normalized := stats.count == 1 && SinglePartition(row.part),
            partition := Partition(row.part.(stats := stats)));
        }
        RewriteProgressColumns(row.part, destinationStats, now);
        rows := rows[key := Row(RewriteProgressed(row.part, destinationStats, now), cols)];
      }
      RewriteProgressDid(old(Parts()), key, worker, destinationStats, now, ok, Parts());
    }

    /** One conditional statement claims back or keeps a row and patches its progress. */
    method UpdateCompactProgress(key: Key, worker: string, progress: Option<CompactProgress>, now: Time)
      returns (ok: bool, requested: bool)
      requires Valid()
      modifies this
      ensures Valid() && Did(old(Parts()), Heartbeat(key, worker, progress, now), ok, Parts())
      ensures ok ==> key in Parts() && (requested <==> Parts()[key].finalizeRequestedAt.Some?)
    {
      hide Did, ColumnsOf, Blank;
      ok, requested := !Blank(worker) && key in rows, false;
      if ok { ColumnsShow(rows, key); }
      ok := ok && ((rows[key].cols.status == Compacting && rows[key].cols.workerId == worker) ||
                   (rows[key].cols.status == CompactReady && Blank(rows[key].cols.workerId)));
      if ok {
        var row := rows[key];
        var cols := row.cols.(
          status := Compacting,
          workerId := worker,
          updatedAt := now,
          staleAt := Some(Earlier(now, row.part.compactingAt.GetOr(now))));
        HeartbeatColumns(row.part, worker, progress, now);
        requested := row.part.finalizeRequestedAt.Some?;
        rows := rows[key := Row(HeartbeatPatched(row.part, worker, progress, now), cols)];
      }
      HeartbeatDid(old(Parts()), key, worker, progress, now, ok, Parts());
    }

    /** Any other transactions commit: the rows become whatever they leave behind. */
    method OthersCommit()
      requires Valid()
      modifies this
      ensures Valid()
    {
      var next: map<Key, Row> := *;
      if Consistent(next) { rows := next; }
    }

    /** Row by row, each in its own transaction with others in between; the first error ends the beat.
        `trace` is the table before and after each row's transaction. */
    method HeartbeatCompactBatch(batch: Batch, worker: string, now: Time)
      returns (ok: bool, requested: bool, ghost trace: seq<(Table, Table)>)
      requires Valid()
      modifies this
      ensures Valid()
      ensures Beaten(trace, batch.parts, worker, now, ok)
      ensures ok ==> !Blank(worker) && |trace| == |batch.parts|
      ensures !ok ==> !requested && (Blank(worker) <==> trace == [])
      ensures ok ==> (requested <==> exists i | 0 <= i < |trace| :: Requested(trace[i].1, batch.parts[i].key))
      ensures trace == [] ==> Parts() == old(Parts())
      ensures trace != [] ==> trace[0].0 == old(Parts()) && trace[|trace| - 1].1 == Parts()
    {
      hide Did, Beaten, Consistent, Blank;
      ok, requested, trace := !Blank(worker), false, [];
      NoBeat(batch.parts, worker, now, ok);
      if !ok { return; }
      var i := 0;
      while i < |batch.parts|
        invariant 0 <= i <= |batch.parts| && Valid() && |trace| == i && ok
        invariant Beaten(trace, batch.parts, worker, now, true)
        invariant requested <==> exists j | 0 <= j < i :: Requested(trace[j].1, batch.parts[j].key)
        invariant i == 0 ==> Parts() == old(Parts())
        invariant i > 0 ==> trace[0].0 == old(Parts()) && trace[i - 1].1 == Parts()
      {
        if i > 0 { OthersCommit(); }
        ghost var before := Parts();
        var pending;
        ok, pending := UpdateCompactProgress(batch.parts[i].key, worker, None, now);
        NextBeat(trace, batch.parts, worker, now, before, ok, Parts());
        trace := trace + [(before, Parts())];
        if !ok { return false, false, trace; }
        requested := requested || pending;
        i := i + 1;
      }
    }

    // ---- claims ----

    method ClaimNextReady(worker: string, hidden: set<Key>, now: Time) returns (claimed: Option<Part>)
      requires Valid()
      modifies this
      ensures Valid() && Did(old(Parts()), ClaimReady(worker, hidden, now), !Blank(worker), Parts())
      ensures claimed.Some? <==> !Blank(worker) && ReadyCandidates(old(Parts()), hidden) != {}
      ensures claimed.Some? ==> claimed.value.key in Parts() && Parts()[claimed.value.key] == claimed.value
    {
      hide Did, ColumnsOf, Blank, ClaimedForRewrite;
      var t := Parts();
      claimed := None;
      var keys: set<Key> := {};
      if !Blank(worker) {
        var candidates := ReadyCandidates(t, hidden);
        if candidates != {} {
          var key := First(t, candidates, BySource);
          var part := ClaimedForRewrite(rows[key].part, worker, now);
          ClaimedKey(rows[key].part, worker, now);
          rows := rows[key := Saved(part)];
          keys := {key};
          claimed := Some(part);
        }
      }
      hide First, ReadyCandidates;
      ReadyDid(t, worker, hidden, now, Parts());
    }

    /** Lock the smallest siblings of the anchor and keep the ones that fit the byte cap. */
    method ClaimNormalizedSiblings(t: Table, window: int, batching: Batching, hidden: set<Key>, now: Time)
      returns (selected: seq<Key>)
      requires batching.Enabled()
      ensures var anchors := AnchorCandidates(t, window, batching, hidden, now);
        selected == if anchors == {} then [] else SiblingSelection(t, First(t, anchors, ByBytes), batching, hidden)
    {
      hide AnchorCandidates, First, ByBytes, Keyed, RanksKeys, Siblings, SiblingCandidates;
      AnchorsAreRows(t, window, batching, hidden, now);
      var anchors := AnchorCandidates(t, window, batching, hidden, now);
      if anchors == {} { return []; }
      var anchor := First(t, anchors, ByBytes);
      var candidates := Siblings(t, anchor, hidden, batching.maxArtifacts);
      var bytes: nat, i := 0, 0;
      while i < |candidates| && !(batching.maxBytes > 0 && bytes + t[candidates[i]].stats.bytes > batching.maxBytes)
        invariant 0 <= i <= |candidates|
        invariant TakeFitting(t, candidates, 0, batching.maxBytes) ==
                  i + TakeFitting(t, candidates[i..], bytes, batching.maxBytes)
      {
        assert candidates[i..][1..] == candidates[i + 1..];
        bytes := bytes + t[candidates[i]].stats.bytes;
        i := i + 1;
      }
      selected := candidates[..i];
      if |selected| < 2 { selected := []; }
    }

    method ClaimNextCompactBatch(worker: string, window: int, batching: Batching, hidden: set<Key>, now: Time)
      returns (claim: Claim)
      requires Valid()
      modifies this
      ensures Valid()
      ensures var e := ClaimCompact(worker, window, batching, hidden, now);
        && Did(old(Parts()), e, !claim.Rejected?, Parts())
        && Protocol.Granted(old(Parts()), e) == if claim.Granted? then {claim.batch} else {}
    {
      hide Did, Protocol.Granted, Blank, Consistent, ValidBatchParts, AnchorCandidates, FragmentedCandidates, SiblingSelection,
        First, ClaimedForCompaction, ByBytes, RankLess, Normalized, Eligible, BatchOf;
      var t := Parts();
      ghost var e := ClaimCompact(worker, window, batching, hidden, now);
      if Blank(worker) || batching.maxArtifacts > MAX_COMPACT_BATCH_PARTS {
        RefusedClaim(t, e);
        return Rejected;
      }
      var keys: seq<Key> := [];
      var fragmented := FragmentedCandidates(t, window, hidden, now);
      FragmentedInTable(t, window, hidden, now);
      if fragmented != {} { keys := [First(t, fragmented, ByFragmentation)]; }
      else if batching.Enabled() { keys := ClaimNormalizedSiblings(t, window, batching, hidden, now); }
      assert keys == ClaimSelection(t, window, batching, hidden, now);
      hide ClaimSelection;
      if keys == [] {
        EmptyClaim(t, e);
        return NothingToClaim;
      }
      var parts := ClaimedParts(t, keys, worker, now);
      if !ValidBatchParts(parts) {
        RefusedClaim(t, e);
        return Rejected;
      }
      var batch := CompactBatchFromParts(parts);
      Lineage.SelectionIsReady(t, window, batching, hidden, now);
      ClaimedKeys(t, keys, worker, now);
      SaveParts(parts);
      ClaimedIsEdit(t, keys, worker, now, Parts());
      SavedClaim(t, keys, e, Parts());
      return Granted(batch);
    }

    /** Write the parts of a batch in turn. */
    method SaveParts(parts: seq<Part>)
      requires Valid() && forall p | p in parts :: p.key in rows
      requires forall i, j | 0 <= i < j < |parts| :: parts[i].key != parts[j].key
      modifies this
      ensures Valid() && Parts().Keys == old(Parts()).Keys
      ensures forall i | 0 <= i < |parts| :: parts[i].key in Parts() && Parts()[parts[i].key] == parts[i]
      ensures forall k | k in old(Parts()) && k !in (set p | p in parts :: p.key) :: Parts()[k] == old(Parts())[k]
    {
      hide Saved, Consistent, PartsOf;
      var tx, i := rows, 0;
      while i < |parts|
        invariant 0 <= i <= |parts| && tx.Keys == rows.Keys
        invariant forall j | 0 <= j < i :: tx[parts[j].key] == Saved(parts[j])
        invariant forall k | k in rows && k !in (set p | p in parts :: p.key) :: tx[k] == rows[k]
      {
        assert parts[i] in parts && parts[i].key in (set p | p in parts :: p.key);
        tx := tx[parts[i].key := Saved(parts[i])];
        i := i + 1;
      }
      AllSaved(rows, tx, parts);
      rows := tx;
    }

    // ---- whole batches ----

    /** Lock a batch's rows in turn, checking and mutating each; nothing is written unless all pass. */
    method UpdateBatch(keys: seq<Key>, condition: Part -> bool, mutate: Part -> Part) returns (ok: bool)
      requires Valid() && forall p :: mutate(p).key == p.key
      requires forall i, j | 0 <= i < j < |keys| :: keys[i] != keys[j]
      modifies this
      ensures Valid()
      ensures ok <==> forall k | k in KeySet(keys) :: k in old(Parts()) && condition(old(Parts())[k])
      ensures Parts() == if ok then Edit(old(Parts()), KeySet(keys), mutate) else old(Parts())
    {
      hide ColumnsOf;
      var tx := rows;
      var i := 0;
      while i < |keys|
        invariant 0 <= i <= |keys|
        invariant tx.Keys == rows.Keys
        invariant forall k | k in keys[..i] :: k in rows && condition(rows[k].part)
        invariant forall k | k in rows :: tx[k] == if k in keys[..i] then Saved(mutate(rows[k].part)) else rows[k]
      {
        assert keys[i] !in keys[..i];
        if keys[i] !in tx || !condition(tx[keys[i]].part) {
          assert keys[i] in KeySet(keys);
          return false;
        }
        tx := tx[keys[i] := Saved(mutate(tx[keys[i]].part))];
        i := i + 1;
      }
      assert keys[..i] == keys;
      rows := tx;
      return true;
    }

    method ReleaseCompactBatch(batch: Batch, worker: string, now: Time, finalize: bool) returns (ok: bool)
      requires Valid()
      modifies this
      ensures Valid() && Did(old(Parts()), ReleaseBatch(batch, worker, now, finalize), ok, Parts())
      ensures ok ==> forall p | p in batch.parts :: ReleasedRow(old(Parts()), Parts(), p.key, finalize, now)
    {
      hide Did, Consistent, Blank, CompactReleased, OwnedOrUnownedReady, BatchKeys, KeySet, ReleasedRow;
      ReleasedKey(finalize, now);
      ok := !Blank(worker);
      if ok {
        ok := UpdateBatch(LockOrder(batch), p => OwnedOrUnownedReady(p, worker), p => CompactReleased(p, finalize, now));
      }
      ReleaseDid(old(Parts()), batch, worker, now, finalize, ok, Parts());
      if ok {
        forall p | p in batch.parts ensures ReleasedRow(old(Parts()), Parts(), p.key, finalize, now) {
          BatchRowReleased(old(Parts()), batch, worker, now, finalize, Parts(), p);
        }
      }
    }

    method MarkCompactBatchFailed(batch: Batch, worker: string, cause: string, now: Time) returns (ok: bool)
      requires Valid()
      modifies this
      ensures Valid() && Did(old(Parts()), FailBatch(batch, worker, cause, now), ok, Parts())
    {
      hide Did, Consistent, Blank, ValidBatch, BatchKeys, KeySet;
      ok := !Blank(worker) && ValidBatch(batch);
      if ok {
        ok := UpdateBatch(LockOrder(batch), (p: Part) => p.status == Compacting && p.workerId == worker,
                          p => CompactFailed(p, cause, now));
      }
      FailDid(old(Parts()), batch, worker, cause, now, ok, Parts());
    }

    /** The rows in lock order; one that is named twice meets what its first turn left. */
    method RequestCompactFinalization(keys: seq<Key>, now: Time) returns (ok: bool)
      requires Valid()
      modifies this
      ensures Valid()
      ensures ok <==> AllRequestable(old(Parts()), keys)
      ensures !ok ==> Parts() == old(Parts())
      ensures ok || Distinct(keys) ==> Did(old(Parts()), RequestFinalization(KeySet(keys), now), ok, Parts())
    {
      hide *;
      ghost var t := Parts();
      var tx, i := rows, 0;
      assert Parts() == PartsOf(rows) && Consistent(rows) by { RowsAreParts(); }
      NoneRequested(rows, now);
      assert keys[..0] == [];
      while i < |keys|
        invariant 0 <= i <= |keys| && rows == old(rows) && RequestedSoFar(rows, tx, keys[..i], now)
      {
        assert keys[..i + 1] == keys[..i] + [keys[i]];
        if keys[i] !in tx || (tx[keys[i]].part.status != Compacting && tx[keys[i]].part.status != CompactReady) {
          RequestRefused(rows, tx, keys, i, now);
          RowsAreParts();
          return false;
        }
        RequestStep(rows, tx, keys[..i], keys[i], now);
        tx := tx[keys[i] := Saved(FinalizationRequested(tx[keys[i]].part, now))];
        i := i + 1;
      }
      assert keys[..i] == keys;
      RequestEnd(rows, tx, keys, now);
      rows := tx;
      ok := true;
      RowsAreParts();
    }

    lemma RowsAreParts()
      ensures Valid() <==> Consistent(rows)
      ensures Valid() ==> Parts() == PartsOf(rows)
    {}

    /** Lock and mutate the rows of a query in whatever order it returns them. */
    method UpdateAll(keys: set<Key>, mutate: Part -> Part) returns (updated: nat)
      requires Valid() && keys <= rows.Keys && forall p :: mutate(p).key == p.key
      modifies this
      ensures Valid() && updated == |keys|
      ensures Parts() == Edit(old(Parts()), keys, mutate)
    {
      hide ColumnsOf;
      var tx, left := rows, keys;
      updated := 0;
      while left != {}
        invariant left <= keys && updated + |left| == |keys|
        invariant tx.Keys == rows.Keys
        invariant forall k | k in rows :: tx[k] == if k in keys - left then Saved(mutate(rows[k].part)) else rows[k]
        decreases left
      {
        var k :| k in left;
        tx := tx[k := Saved(mutate(tx[k].part))];
        left := left - {k};
        updated := updated + 1;
      }
      rows := tx;
    }

    method ReleaseStaleCompactingParts(staleAfter: int, hidden: set<Key>, now: Time) returns (ok: bool, released: nat)
      requires Valid()
      modifies this
      ensures Valid() && Did(old(Parts()), ReleaseStale(staleAfter, hidden, now), ok, Parts())
      ensures ok ==> released == |StaleKeys(old(Parts()), staleAfter, hidden, now)|
      ensures ok ==> forall k | k in StaleKeys(old(Parts()), staleAfter, hidden, now) ::
                       StaleReleasedRow(old(Parts()), Parts(), k, now)
    {
      hide Did, Targets, StaleReleased, StaleRow, StaleReleasedRow;
      ok, released := staleAfter > 0, 0;
      ghost var t := Parts();
      if ok {
        var stale := set k | k in rows && k !in hidden && rows[k].cols.status == Compacting &&
                             rows[k].cols.staleAt.Some? && rows[k].cols.staleAt.value <= now - staleAfter;
        StaleByColumns(rows, stale, staleAfter, hidden, now);
        StaleReleasedKey(now);
        hide Consistent, StaleKeys;
        released := UpdateAll(stale, p => StaleReleased(p, now));
      }
      StaleDid(t, staleAfter, hidden, now, ok, Parts());
      if ok {
        forall k | k in StaleKeys(t, staleAfter, hidden, now) ensures StaleReleasedRow(t, Parts(), k, now) {
          StaleRowReleased(t, staleAfter, hidden, now, Parts(), k);
        }
      }
    }

    /** Supersede the inputs one by one, noting any pending finalization request on the way, then insert the output. */
    method CompleteCompaction(batch: Batch, outputId: string, finishedKey: string, stats: Stats, counts: map<string, nat>,
                              worker: string, now: Time) returns (ok: bool)
      requires Valid()
      modifies this
      ensures Valid()
      ensures Did(old(Parts()), Complete(batch, outputId, finishedKey, stats, counts, worker, now), ok, Parts())
    {
      hide Did, Consistent, PartsOf;
      ok, rows := CompletedRows(rows, batch, outputId, finishedKey, stats, counts, worker, now);
    }

    /** One bulk statement per job with compact-ready rows, patching only the columns that change. */
    method FinalizeCompactReady(only: Option<string>, window: int, batching: Batching, hidden: set<Key>, now: Time)
      returns (ok: bool, finalized: nat)
      requires Valid()
      modifies this
      ensures Valid() && Did(old(Parts()), Finalize(only, window, batching, hidden, now), ok, Parts())
      ensures ok ==> finalized == |AllFinalizeKeys(old(Parts()), only, window, batching, hidden, now)|
      ensures ok <==> only != Some("") && forall job | Finalization.NoDeadline(old(Parts()), job, window) :: only.Some? && only.value != job
      ensures ok ==> forall k | k in old(Parts()) && old(Parts())[k].status == CompactReady ::
                       InStatus(Parts(), k, Finished) <==>
                         && k !in hidden && (only.Some? ==> only.value == k.job)
                         && Finalization.MayFinish(old(Parts()), k, window, batching.maxArtifacts, batching.maxBytes, now)
    {
      hide Did, Consistent, PartsOf, AllFinalizeKeys, Finalization.NoDeadline, Finalization.MayFinish, InStatus;
      ok, rows, finalized := FinalizedRows(rows, only, window, batching, hidden, now);
      ghost var e := Finalize(only, window, batching, hidden, now);
      DidMeans(old(Parts()), e, ok, Parts());
      Finalization.PassSucceedsExactly(old(Parts()), only, window, batching, hidden, now);
      hide Targets, Apply;
      if ok {
        forall k | k in old(Parts()) && old(Parts())[k].status == CompactReady
          ensures InStatus(Parts(), k, Finished) <==>
                    && k !in hidden && (only.Some? ==> only.value == k.job)
                    && Finalization.MayFinish(old(Parts()), k, window, batching.maxArtifacts, batching.maxBytes, now)
        {
          Finalization.FinishesExactly(old(Parts()), only, window, batching, hidden, now, k);
          HasStatus(Parts(), k, Finished);
        }
      }
    }
  }

  // ---- helpers ----

  lemma DidMeans(t: Table, e: Event, ok: bool, t': Table)
    requires Did(t, e, ok, t') && !e.Create?
    ensures (ok <==> Targets(t, e).Some?) && t' == Apply(t, e)
  {
    hide Targets;
  }

  lemma HasStatus(t: Table, k: Key, status: Status)
    requires k in t
    ensures InStatus(t, k, status) <==> t[k].status == status
  {}

  /** The row is finished exactly if the caller asked for it or a request was pending, else open again; its claim is gone,
      its artifact and an earlier ready stamp are kept. */
  ghost predicate ReleasedRow(t: Table, t': Table, k: Key, finalize: bool, now: Time) {
    k in t && k in t' &&
    Lifecycle.Released(t[k], t'[k], finalize || t[k].finalizeRequestedAt.Some?, Lifecycle.StampedReady(t[k], now), now)
  }

  /** A stale row is finished exactly if a request was pending. */
  ghost predicate StaleReleasedRow(t: Table, t': Table, k: Key, now: Time) {
    k in t && k in t' &&
    Lifecycle.Released(t[k], t'[k], t[k].finalizeRequestedAt.Some?, Lifecycle.StampedReady(t[k], t[k].updatedAt), now)
  }

  lemma BatchRowReleased(t: Table, b: Batch, w: string, now: Time, finalize: bool, t': Table, p: Part)
    requires Did(t, ReleaseBatch(b, w, now, finalize), true, t') && p in b.parts
    ensures ReleasedRow(t, t', p.key, finalize, now)
  {
    var e := ReleaseBatch(b, w, now, finalize);
    assert p.key in BatchKeys(b) && Targets(t, e) == Some(BatchKeys(b)) && p.key in t by { hide Mutated, Blank, OwnedOrUnownedReady; }
    DidMeans(t, e, true, t');
    hide Targets, Apply, Did, Blank, BatchKeys, Lifecycle.Released, Lifecycle.StampedReady;
    Lifecycle.RowsChange(t, e, p.key);
  }

  lemma StaleRowReleased(t: Table, staleAfter: int, hidden: set<Key>, now: Time, t': Table, k: Key)
    requires Did(t, ReleaseStale(staleAfter, hidden, now), true, t') && k in StaleKeys(t, staleAfter, hidden, now)
    ensures StaleReleasedRow(t, t', k, now)
  {
    var e := ReleaseStale(staleAfter, hidden, now);
    assert Targets(t, e).Some? && k in Targets(t, e).value by { hide Mutated, StaleRow; }
    DidMeans(t, e, true, t');
    hide Targets, Apply, Did, StaleRow, Lifecycle.Released, Lifecycle.StampedReady;
    Lifecycle.RowsChange(t, e, k);
  }

  lemma OneMoreDone(live: set<string>, left: set<string>, id: string)
    requires id in left
    ensures live - (left - {id}) == (live - left) + (if id in live then {id} else {})
    ensures |live - (left - {id})| == |live - left| + (if id in live then 1 else 0)
  {}

  /** The pass over the partition counts. */
  method CountPartitions(p: Part) returns (partitions: nat, fragmented: bool, single: bool)
    ensures partitions == |LivePartitions(p)| && (fragmented <==> Fragmented(p))
    ensures single <==> forall id | id in LivePartitions(p) :: p.partitionCounts[id] == 1
  {
    hide Blank;
    var counts := p.partitionCounts;
    ghost var live := LivePartitions(p);
    assert forall id :: id in live <==> id in counts && !Blank(id) && counts[id] > 0;
    assert Fragmented(p) <==> exists id | id in live :: counts[id] > 1;
    hide LivePartitions, Fragmented;
    partitions, fragmented, single := 0, false, true;
    var left := counts.Keys;
    assert live - left == {};
    while left != {}
      invariant left <= counts.Keys && partitions == |live - left|
      invariant fragmented <==> exists id | id in live - left :: counts[id] > 1
      invariant single <==> forall id | id in live - left :: counts[id] == 1
      decreases left
    {
      var id :| id in left;
      OneMoreDone(live, left, id);
      left := left - {id};
      if Blank(id) || counts[id] == 0 { continue; }
      partitions := partitions + 1;
      fragmented := fragmented || counts[id] > 1;
      single := single && counts[id] == 1;
    }
    assert live - left == live;
  }

  /** The columns of a full write. */
  method PartWriteValues(p: Part) returns (cols: Columns)
    ensures cols == ColumnsOf(p)
  {
    hide Partition, Fragmented, LivePartitions, HasDestination;
    var partitions, fragmented, single := CountPartitions(p);
    var eligible := HasDestination(p) && p.stats.count > 0 && fragmented;
    var normalized := p.stats.count == 1 && partitions == 1 && single;
    var staleAt: Option<Time> := None;
    if p.status == Compacting {
      staleAt := Some(p.updatedAt);
      if p.compactingAt.Some? && p.compactingAt.value < p.updatedAt { staleAt := p.compactingAt; }
    }
    var originalReadyAt: Option<Time> := None;
    if !IsGenerated(p) { originalReadyAt := p.compactReadyAt; }
    cols := Columns(p.status, p.workerId, p.createdAt, p.updatedAt, p.sourceBytes, p.stats.bytes, p.stats.count,
                    eligible, normalized, staleAt, originalReadyAt, Partition(p));
  }

  lemma KeyOrder()
    ensures StrictTotal(KeyLess)
  {
    NameOrder();
    forall x, y ensures x == y || KeyLess(x, y) || KeyLess(y, x) {
      assert x.job == y.job || NameLess(x.job, y.job) || NameLess(y.job, x.job);
      assert x.part == y.part || NameLess(x.part, y.part) || NameLess(y.part, x.part);
    }
    forall x, y, z | KeyLess(x, y) && KeyLess(y, z) ensures KeyLess(x, z) {
      assert NameLess(x.job, y.job) && NameLess(y.job, z.job) ==> NameLess(x.job, z.job);
      assert NameLess(x.part, y.part) && NameLess(y.part, z.part) ==> NameLess(x.part, z.part);
    }
  }

  /** The batch's keys in the order administrative updates lock them. */
  function LockOrder(b: Batch): (keys: seq<Key>)
    ensures KeySet(keys) == BatchKeys(b)
    ensures forall k :: k in keys <==> k in BatchKeys(b)
    ensures forall i, j | 0 <= i < j < |keys| :: keys[i] != keys[j]
  {
    KeyOrder();
    var keys := Sorted(KeyLess, BatchKeys(b));
    assert forall i, j | 0 <= i < j < |keys| :: KeyLess(keys[i], keys[j]);
    keys
  }

  predicate Pending(t: Table, keys: seq<Key>) {
    exists k | k in keys :: k in t && t[k].finalizeRequestedAt.Some?
  }

  function Finish(p: Part, now: Time): Part {
    SetStatus(p, Finished, now).(finishedAt := Some(now))
  }

  /** The rows `done` are checked and superseded, and `final` reflects their finalization requests. */
  ghost predicate SupersededSoFar(rows: map<Key, Row>, tx: map<Key, Row>, done: seq<Key>, output: Part, final: Part,
                                  worker: string, now: Time)
    requires Consistent(rows)
  {
    && tx.Keys == rows.Keys
    && (forall k | k in done :: k in rows && OwnedOrUnownedReady(rows[k].part, worker))
    && (forall k | k in rows ::
          tx[k] == if k in done then Saved(MarkedSuperseded(rows[k].part, output.key.part, now)) else rows[k])
    && final == if Pending(PartsOf(rows), done) then Finish(output, now) else output
  }

  lemma SupersedeStep(rows: map<Key, Row>, tx: map<Key, Row>, done: seq<Key>, k: Key, output: Part, final: Part,
                      worker: string, now: Time)
    requires Consistent(rows) && SupersededSoFar(rows, tx, done, output, final, worker, now)
    requires k !in done && k in tx && OwnedOrUnownedReady(tx[k].part, worker)
    ensures var p := tx[k].part;
      SupersededSoFar(rows, tx[k := Saved(MarkedSuperseded(p, output.key.part, now))], done + [k], output,
                      if p.finalizeRequestedAt.Some? then Finish(final, now) else final, worker, now)
  {
    hide ColumnsOf, OwnedOrUnownedReady, MarkedSuperseded;
    assert forall x :: x in done + [k] <==> x in done || x == k;
    assert Pending(PartsOf(rows), done + [k]) <==>
           (Pending(PartsOf(rows), done) || rows[k].part.finalizeRequestedAt.Some?);
    assert Finish(Finish(output, now), now) == Finish(output, now);
  }

  lemma SupersedeEnd(rows: map<Key, Row>, tx: map<Key, Row>, keys: seq<Key>, output: Part, final: Part,
                     worker: string, now: Time)
    requires Consistent(rows) && SupersededSoFar(rows, tx, keys, output, final, worker, now)
    ensures Consistent(tx) && forall p :: MarkedSuperseded(p, output.key.part, now).key == p.key
    ensures PartsOf(tx) == Edit(PartsOf(rows), KeySet(keys), p => MarkedSuperseded(p, output.key.part, now))
    ensures forall k | k in KeySet(keys) :: k in rows && OwnedOrUnownedReady(rows[k].part, worker)
    ensures final == if Pending(PartsOf(rows), keys) then Finish(output, now) else output
    ensures final.key == output.key
  {
    SupersededKey(output.key.part, now);
    hide ColumnsOf, OwnedOrUnownedReady, MarkedSuperseded, Pending;
  }

  /** The loop of CompleteCompaction; nothing it did is kept unless every row passes. */
  method SupersedeInputs(rows: map<Key, Row>, keys: seq<Key>, output: Part, worker: string, now: Time)
    returns (ok: bool, tx: map<Key, Row>, final: Part)
    requires Consistent(rows)
    requires forall i, j | 0 <= i < j < |keys| :: keys[i] != keys[j]
    ensures ok <==> forall k | k in KeySet(keys) :: k in rows && OwnedOrUnownedReady(rows[k].part, worker)
    ensures ok ==> Consistent(tx) && forall p :: MarkedSuperseded(p, output.key.part, now).key == p.key
    ensures ok ==> PartsOf(tx) == Edit(PartsOf(rows), KeySet(keys), p => MarkedSuperseded(p, output.key.part, now))
    ensures ok ==> final == if Pending(PartsOf(rows), keys) then Finish(output, now) else output
    ensures ok ==> final.key == output.key && tx.Keys == rows.Keys
  {
    hide Saved, OwnedOrUnownedReady, MarkedSuperseded, Consistent, Pending, Finish, PartsOf;
    tx, final := rows, output;
    var i := 0;
    assert SupersededSoFar(rows, tx, keys[..0], output, final, worker, now) by { NoneSuperseded(rows, output, worker, now); }
    while i < |keys|
      invariant 0 <= i <= |keys|
      invariant SupersededSoFar(rows, tx, keys[..i], output, final, worker, now)
    {
      assert keys[i] !in keys[..i] && keys[i] in KeySet(keys);
      if keys[i] !in tx || !OwnedOrUnownedReady(tx[keys[i]].part, worker) {
        return false, tx, final;
      }
      SupersedeStep(rows, tx, keys[..i], keys[i], output, final, worker, now);
      assert keys[..i + 1] == keys[..i] + [keys[i]];
      if tx[keys[i]].part.finalizeRequestedAt.Some? {
        final := Finish(final, now);
      }
      tx := tx[keys[i] := Saved(MarkedSuperseded(tx[keys[i]].part, output.key.part, now))];
      i := i + 1;
    }
    assert keys[..i] == keys;
    SupersedeEnd(rows, tx, keys, output, final, worker, now);
    ok := true;
  }

  lemma NoneSuperseded(rows: map<Key, Row>, output: Part, worker: string, now: Time)
    requires Consistent(rows)
    ensures SupersededSoFar(rows, rows, [], output, output, worker, now)
  {}

  method CompletedRows(rows: map<Key, Row>, batch: Batch, outputId: string, finishedKey: string, stats: Stats,
                       counts: map<string, nat>, worker: string, now: Time)
    returns (ok: bool, rows': map<Key, Row>)
    requires Consistent(rows)
    ensures Consistent(rows')
    ensures Did(PartsOf(rows), Complete(batch, outputId, finishedKey, stats, counts, worker, now), ok, PartsOf(rows'))
  {
    hide *;
    ghost var t, e := PartsOf(rows), Complete(batch, outputId, finishedKey, stats, counts, worker, now);
    ok := !Blank(worker) && |batch.parts| <= MAX_COMPACT_BATCH_PARTS && ValidBatch(batch) && outputId != "" && finishedKey != "";
    if !ok || |batch.parts| == 0 {
      RefusedCompletion(t, e);
      return false, rows;
    }
    var output := CompactOutput(batch, outputId, finishedKey, stats, counts, false, now);
    var tx, final;
    ok, tx, final := SupersedeInputs(rows, LockOrder(batch), output, worker, now);
    RowsAreParts(rows, LockOrder(batch), worker);
    if !ok {
      RefusedCompletionRow(t, e);
      return false, rows;
    }
    OutputIsSpecified(t, e, final);
    RowsAreKeys(rows);
    if final.key in tx {
      RefusedCompletion(t, e);
      return false, rows;
    }
    SaveNew(tx, final);
    rows' := tx[final.key := Saved(final)];
    CompletionDid(t, e, final, PartsOf(rows'));
  }

  // ---- bulk finalization ----

  /** The statement writes three columns; the others must already be what the finished part needs. */
  function Patched(row: Row, now: Time): Row {
    Row(BulkFinalized(row.part, now), row.cols.(status := Finished, updatedAt := now, staleAt := None))
  }

  lemma PatchedIsSaved(row: Row, now: Time)
    requires row.cols == ColumnsOf(row.part)
    ensures Patched(row, now) == Saved(BulkFinalized(row.part, now))
  {
    SamePartition(row.part, BulkFinalized(row.part, now));
  }

  function KeysOfJobs(jobs: set<string>, keys: set<Key>): set<Key> {
    set k | k in keys && k.job in jobs
  }

  method FinalizedRows(rows: map<Key, Row>, only: Option<string>, window: int, batching: Batching, hidden: set<Key>, now: Time)
    returns (ok: bool, tx: map<Key, Row>, finalized: nat)
    requires Consistent(rows)
    ensures Consistent(tx)
    ensures Did(PartsOf(rows), Finalize(only, window, batching, hidden, now), ok, PartsOf(tx))
    ensures ok ==> finalized == |AllFinalizeKeys(PartsOf(rows), only, window, batching, hidden, now)|
  {
    hide Did, Consistent, PartsOf, AllFinalizeKeys, MissingDeadline, FinalizeKeys, JobsInScope, Patched, KeysOfJobs;
    ghost var t, e := PartsOf(rows), Finalize(only, window, batching, hidden, now);
    ghost var all := AllFinalizeKeys(t, only, window, batching, hidden, now);
    tx, finalized := rows, 0;
    if only == Some("") {
      FinalizeRefused(t, e, "");
      return false, rows, 0;
    }
    var jobs := JobsInScope(PartsOf(rows), only);
    var left := jobs;
    NoJobFinalized(rows, all);
    assert jobs - left == {};
    while left != {}
      invariant left <= jobs && Consistent(tx) && tx == PatchedAll(rows, KeysOfJobs(jobs - left, all), now)
      invariant finalized == |KeysOfJobs(jobs - left, all)|
      invariant forall job | job in jobs - left :: !MissingDeadline(t, job, window)
      decreases left
    {
      var job :| job in left;
      if MissingDeadline(PartsOf(rows), job, window) {
        FinalizeRefused(t, e, job);
        return false, rows, 0;
      }
      OtherJobsFinalized(rows, tx, jobs - left, job, all, window, batching, hidden, now);
      JobFinalized(t, e, jobs - left, job);
      var keys := FinalizeKeys(PartsOf(tx), job, window, batching, hidden, now);
      PatchMore(rows, KeysOfJobs(jobs - left, all), keys, now);
      tx := PatchedAll(tx, keys, now);
      finalized := finalized + |keys|;
      assert jobs - (left - {job}) == (jobs - left) + {job};
      left := left - {job};
    }
    ok := true;
    assert jobs - left == jobs;
    AllJobsFinalized(rows, tx, e);
  }

  function PatchedAll(rows: map<Key, Row>, keys: set<Key>, now: Time): map<Key, Row> {
    map k | k in rows :: if k in keys then Patched(rows[k], now) else rows[k]
  }

  lemma NoJobFinalized(rows: map<Key, Row>, all: set<Key>)
    ensures KeysOfJobs({}, all) == {}
    ensures forall now :: PatchedAll(rows, {}, now) == rows
  {}

  lemma FinalizeRefused(t: Table, e: Event, job: string)
    requires e.Finalize? && (e.only == Some("") || (job in JobsInScope(t, e.only) && MissingDeadline(t, job, e.window)))
    ensures Did(t, e, false, t)
  {
    hide MissingDeadline, JobsInScope;
  }

  lemma PatchMore(rows: map<Key, Row>, done: set<Key>, keys: set<Key>, now: Time)
    requires Consistent(rows) && done !! keys && Consistent(PatchedAll(rows, done, now))
    ensures PatchedAll(PatchedAll(rows, done, now), keys, now) == PatchedAll(rows, done + keys, now)
    ensures Consistent(PatchedAll(rows, done + keys, now))
  {
    forall k | k in rows ensures Patched(rows[k], now) == Saved(BulkFinalized(rows[k].part, now)) {
      assert rows[k].cols == ColumnsOf(rows[k].part) by { hide ColumnsOf; }
      PatchedIsSaved(rows[k], now);
    }
    hide Patched, ColumnsOf;
  }

  /** Finalizing other jobs does not change what one job's statement selects. */
  lemma OtherJobsFinalized(rows: map<Key, Row>, tx: map<Key, Row>, done: set<string>, job: string, all: set<Key>,
                           window: int, batching: Batching, hidden: set<Key>, now: Time)
    requires Consistent(rows) && Consistent(tx) && job !in done && tx == PatchedAll(rows, KeysOfJobs(done, all), now)
    ensures FinalizeKeys(PartsOf(tx), job, window, batching, hidden, now) ==
            FinalizeKeys(PartsOf(rows), job, window, batching, hidden, now)
  {
    hide Patched, ColumnsOf, FinalizeKeys;
    SameJobSameKeys(PartsOf(rows), PartsOf(tx), job, window, batching, hidden, now);
  }

  ghost predicate SameJob(t: Table, t': Table, job: string) {
    t.Keys == t'.Keys && forall k | k in t && k.job == job :: t'[k] == t[k]
  }

  lemma SameJobSameKeys(t: Table, t': Table, job: string, window: int, batching: Batching, hidden: set<Key>, now: Time)
    requires SameJob(t, t', job)
    ensures FinalizeKeys(t, job, window, batching, hidden, now) == FinalizeKeys(t', job, window, batching, hidden, now)
  {
    hide Expired, Blocked, HasEligible, HasNormalized, Rewriting, StillMergeable, Normalized;
    SameJobSameFacts(t, t', job, window, now);
    forall k | k in t && k.job == job
      ensures StillMergeable(t, k, batching.maxBytes) == StillMergeable(t', k, batching.maxBytes)
    {
      SameJobSameSiblings(t, t', k, batching.maxBytes);
    }
  }

  lemma SameJobSameFacts(t: Table, t': Table, job: string, window: int, now: Time)
    requires SameJob(t, t', job)
    ensures Expired(t, job, window, now) == Expired(t', job, window, now)
    ensures Blocked(t, job) == Blocked(t', job) && HasEligible(t, job) == HasEligible(t', job)
    ensures HasNormalized(t, job) == HasNormalized(t', job) && Rewriting(t, job) == Rewriting(t', job)
  {
    hide Eligible, Normalized, IsGenerated;
    assert LastOriginalReady(t, job) == LastOriginalReady(t', job);
    assert forall statuses :: JobHas(t, job, statuses) == JobHas(t', job, statuses);
  }

  lemma SameJobSameSiblings(t: Table, t': Table, k: Key, maxBytes: nat)
    requires k in t && SameJob(t, t', k.job)
    ensures StillMergeable(t, k, maxBytes) == StillMergeable(t', k, maxBytes)
  {
    hide Eligible, Normalized, Partition;
  }

  lemma JobFinalized(t: Table, e: Event, done: set<string>, job: string)
    requires e.Finalize? && job !in done && job in JobsInScope(t, e.only)
    ensures var all := AllFinalizeKeys(t, e.only, e.window, e.batching, e.hidden, e.now);
            var keys := FinalizeKeys(t, job, e.window, e.batching, e.hidden, e.now);
      && KeysOfJobs(done + {job}, all) == KeysOfJobs(done, all) + keys
      && KeysOfJobs(done, all) !! keys
      && |KeysOfJobs(done + {job}, all)| == |KeysOfJobs(done, all)| + |keys|
  {
    hide Finalizable, JobsInScope;
  }

  lemma AllJobsFinalized(rows: map<Key, Row>, tx: map<Key, Row>, e: Event)
    requires Consistent(rows) && Consistent(tx) && e.Finalize? && e.only != Some("")
    requires forall job | job in JobsInScope(PartsOf(rows), e.only) :: !MissingDeadline(PartsOf(rows), job, e.window)
    requires var all := AllFinalizeKeys(PartsOf(rows), e.only, e.window, e.batching, e.hidden, e.now);
      tx == PatchedAll(rows, KeysOfJobs(JobsInScope(PartsOf(rows), e.only), all), e.now)
    ensures var all := AllFinalizeKeys(PartsOf(rows), e.only, e.window, e.batching, e.hidden, e.now);
      Did(PartsOf(rows), e, true, PartsOf(tx)) && KeysOfJobs(JobsInScope(PartsOf(rows), e.only), all) == all
  {
    hide Finalizable, JobsInScope, MissingDeadline, ColumnsOf, BulkFinalized;
    var all := AllFinalizeKeys(PartsOf(rows), e.only, e.window, e.batching, e.hidden, e.now);
    assert KeysOfJobs(JobsInScope(PartsOf(rows), e.only), all) == all;
    assert PartsOf(tx) == Edit(PartsOf(rows), all, p => Mutated(e, p));
  }

  lemma RowsAreKeys(rows: map<Key, Row>)
    requires Consistent(rows)
    ensures PartsOf(rows).Keys == rows.Keys
  {}

  lemma RowsAreParts(rows: map<Key, Row>, keys: seq<Key>, worker: string)
    requires Consistent(rows)
    ensures (forall k | k in KeySet(keys) :: k in rows && OwnedOrUnownedReady(rows[k].part, worker)) <==>
            (forall k | k in KeySet(keys) :: k in PartsOf(rows) && OwnedOrUnownedReady(PartsOf(rows)[k], worker))
  {
    hide OwnedOrUnownedReady, ColumnsOf;
  }

  lemma SaveNew(rows: map<Key, Row>, p: Part)
    requires Consistent(rows)
    ensures Consistent(rows[p.key := Saved(p)])
    ensures PartsOf(rows[p.key := Saved(p)]) == PartsOf(rows)[p.key := p]
  {
    hide ColumnsOf;
  }

  lemma BatchMore(parts: seq<Part>, i: nat)
    requires i < |parts|
    ensures var rest, s := SumStats(parts[..i]), parts[i].stats;
      SumStats(parts[..i + 1]) == Stats(rest.count + s.count, rest.rows + s.rows, rest.bytes + s.bytes)
    ensures var rest, g := NextGeneration(parts[..i]), parts[i].generation;
      NextGeneration(parts[..i + 1]) == if g >= rest then g + 1 else rest
  {
    assert parts[..i + 1][..i] == parts[..i];
  }

  method CompactBatchFromParts(parts: seq<Part>) returns (batch: Batch)
    requires parts != []
    ensures batch == BatchOf(parts)
  {
    var input, generation := SumStats([]), NextGeneration([]);
    hide SumStats, NextGeneration;
    var i := 0;
    while i < |parts|
      invariant 0 <= i <= |parts|
      invariant input == SumStats(parts[..i]) && generation == NextGeneration(parts[..i])
    {
      BatchMore(parts, i);
      var s := parts[i].stats;
      input := Stats(input.count + s.count, input.rows + s.rows, input.bytes + s.bytes);
      if parts[i].generation >= generation { generation := parts[i].generation + 1; }
      i := i + 1;
    }
    assert parts[..i] == parts;
    batch := Batch(parts[0].key.job, parts, input, generation);
  }

  lemma HeartbeatColumns(p: Part, worker: string, progress: Option<CompactProgress>, now: Time)
    ensures ColumnsOf(HeartbeatPatched(p, worker, progress, now)) ==
            ColumnsOf(p).(status := Compacting, workerId := worker, updatedAt := now,
                          staleAt := Some(Earlier(now, p.compactingAt.GetOr(now))))
    ensures HeartbeatPatched(p, worker, progress, now).finalizeRequestedAt == p.finalizeRequestedAt
  {
    SamePartition(p, HeartbeatPatched(p, worker, progress, now));
  }

  lemma RewriteProgressColumns(p: Part, stats: Option<Stats>, now: Time)
    requires p.status == InProgress
    ensures RewriteProgressed(p, stats, now).key == p.key
    ensures ColumnsOf(RewriteProgressed(p, stats, now)) ==
            if stats.None? then ColumnsOf(p).(updatedAt := now)
            else ColumnsOf(p).(
              updatedAt := now,
              compactBytes := stats.value.bytes, compactParts := stats.value.count,
              eligible := stats.value.count > 0 && HasDestination(p) && Fragmented(p),
              normalized := stats.value.count == 1 && SinglePartition(p),
              partition := Partition(p.(stats := stats.value)))
  {
    var q := RewriteProgressed(p, stats, now);
    assert LivePartitions(q) == LivePartitions(p);
    SamePartition(q, p.(stats := q.stats));
    if stats.None? { SamePartition(q, p); }
  }

  lemma SamePartition(p: Part, q: Part)
    requires p.stats == q.stats && p.partitionCounts == q.partitionCounts
    ensures Normalized(p) == Normalized(q) && Partition(p) == Partition(q)
  {
    assert LivePartitions(p) == LivePartitions(q);
    if Normalized(p) {
      assert {Partition(p)} == {Partition(q)};
      assert Partition(p) in {Partition(q)};
    }
  }

  lemma ColumnsShow(rows: map<Key, Row>, key: Key)
    requires Consistent(rows) && key in rows
    ensures rows[key].cols.status == rows[key].part.status && rows[key].cols.workerId == rows[key].part.workerId
    ensures rows[key].cols.staleAt == StaleAt(rows[key].part)
  {}

  lemma StaleByColumns(rows: map<Key, Row>, stale: set<Key>, staleAfter: int, hidden: set<Key>, now: Time)
    requires Consistent(rows)
    requires stale == set k | k in rows && k !in hidden && rows[k].cols.status == Compacting &&
                              rows[k].cols.staleAt.Some? && rows[k].cols.staleAt.value <= now - staleAfter
    ensures stale == StaleKeys(PartsOf(rows), staleAfter, hidden, now)
  {
    forall k | k in rows ensures (rows[k].cols.staleAt == StaleAt(rows[k].part)) && rows[k].cols.status == rows[k].part.status {
      ColumnsShow(rows, k);
    }
  }

  lemma AllSaved(rows: map<Key, Row>, tx: map<Key, Row>, parts: seq<Part>)
    requires Consistent(rows) && tx.Keys == rows.Keys && forall p | p in parts :: p.key in rows
    requires forall j | 0 <= j < |parts| :: tx[parts[j].key] == Saved(parts[j])
    requires forall k | k in rows && k !in (set p | p in parts :: p.key) :: tx[k] == rows[k]
    ensures Consistent(tx) && PartsOf(tx).Keys == PartsOf(rows).Keys
    ensures forall i | 0 <= i < |parts| :: parts[i].key in PartsOf(tx) && PartsOf(tx)[parts[i].key] == parts[i]
    ensures forall k | k in PartsOf(rows) && k !in (set p | p in parts :: p.key) :: PartsOf(tx)[k] == PartsOf(rows)[k]
  {
    hide ColumnsOf;
    forall k | k in tx ensures tx[k].part.key == k && tx[k].cols == ColumnsOf(tx[k].part) {
      if k in (set p | p in parts :: p.key) {
        var j :| 0 <= j < |parts| && parts[j].key == k;
        assert tx[k] == Saved(parts[j]);
      }
    }
  }

  lemma AnchorsAreRows(t: Table, window: int, batching: Batching, hidden: set<Key>, now: Time)
    ensures AnchorCandidates(t, window, batching, hidden, now) <= t.Keys && RanksKeys(ByBytes)
  {
    hide Mergeable, Open, Normalized;
  }

  lemma ClaimedKey(p: Part, w: string, now: Time)
    ensures ClaimedForRewrite(p, w, now).key == p.key
  {}

  lemma CompletedKey(finishedKey: string, d: Destination, stats: Stats, counts: map<string, nat>, now: Time)
    ensures forall p :: RewriteCompleted(p, finishedKey, d, stats, counts, now).key == p.key
  {
    hide CleanCounts;
  }

  lemma RetriedKey(to: Status, now: Time)
    ensures forall p :: FailedRetried(p, to, now).key == p.key
  {}

  lemma ReleasedKey(finalize: bool, now: Time)
    ensures forall p :: CompactReleased(p, finalize, now).key == p.key
  {}

  lemma StaleReleasedKey(now: Time)
    ensures forall p :: StaleReleased(p, now).key == p.key
  {}

  lemma SupersededKey(output: string, now: Time)
    ensures forall p :: MarkedSuperseded(p, output, now).key == p.key
  {}

  lemma ClaimedKeys(t: Table, keys: seq<Key>, w: string, now: Time)
    requires forall k | k in keys :: k in t
    requires forall i, j | 0 <= i < j < |keys| :: keys[i] != keys[j]
    ensures var parts := ClaimedParts(t, keys, w, now);
      && (forall i | 0 <= i < |parts| :: parts[i].key == keys[i])
      && (forall i, j | 0 <= i < j < |parts| :: parts[i].key != parts[j].key)
      && (set p | p in parts :: p.key) == KeySet(keys)
  {
    var parts := ClaimedParts(t, keys, w, now);
    forall i | 0 <= i < |parts| ensures parts[i].key == keys[i] {
      assert keys[i] in keys;
    }
    forall k | k in keys ensures exists p | p in parts :: p.key == k {
      var i :| 0 <= i < |keys| && keys[i] == k;
      assert parts[i] in parts;
    }
  }

  lemma FragmentedInTable(t: Table, window: int, hidden: set<Key>, now: Time)
    ensures FragmentedCandidates(t, window, hidden, now) <= t.Keys
  {}

  ghost predicate Requested(t: Table, k: Key) {
    k in t && t[k].finalizeRequestedAt.Some?
  }

  ghost predicate BeatDid(step: (Table, Table), k: Key, worker: string, now: Time, ok: bool) {
    Did(step.0, Heartbeat(k, worker, None, now), ok, step.1)
  }

  /** The rows' heartbeats in turn, each on the table it met; all but the last succeeded, and the last if `ok`. */
  ghost predicate Beaten(trace: seq<(Table, Table)>, parts: seq<Part>, worker: string, now: Time, ok: bool) {
    |trace| <= |parts| && forall i | 0 <= i < |trace| :: BeatDid(trace[i], parts[i].key, worker, now, ok || i < |trace| - 1)
  }

  lemma NoBeat(parts: seq<Part>, worker: string, now: Time, ok: bool)
    ensures Beaten([], parts, worker, now, ok)
  {}

  lemma NextBeat(trace: seq<(Table, Table)>, parts: seq<Part>, worker: string, now: Time, before: Table, ok: bool, after: Table)
    requires |trace| < |parts| && Beaten(trace, parts, worker, now, true)
    requires Did(before, Heartbeat(parts[|trace|].key, worker, None, now), ok, after)
    ensures Beaten(trace + [(before, after)], parts, worker, now, ok)
  {
    assert BeatDid((before, after), parts[|trace|].key, worker, now, ok);
    hide BeatDid;
  }

  /** Heartbeats of the rows with nothing in between. */
  ghost function Beats(t: Table, parts: seq<Part>, worker: string, now: Time): Table {
    if parts == [] then t
    else Apply(Beats(t, parts[..|parts| - 1], worker, now), Heartbeat(parts[|parts| - 1].key, worker, None, now))
  }

  ghost predicate Undisturbed(trace: seq<(Table, Table)>) {
    forall i | 0 < i < |trace| :: trace[i].0 == trace[i - 1].1
  }

  /** If no other transaction commits in between, the rows up to the first error are beaten and the rest untouched. */
  lemma {:induction false} UndisturbedBeats(trace: seq<(Table, Table)>, parts: seq<Part>, worker: string, now: Time, ok: bool)
    requires Beaten(trace, parts, worker, now, ok) && Undisturbed(trace) && trace != []
    ensures trace[|trace| - 1].1 == Beats(trace[0].0, parts[..|trace|], worker, now)
  {
    var n := |trace| - 1;
    hide Apply, Succeeds;
    assert BeatDid(trace[n], parts[n].key, worker, now, ok);
    assert parts[..n + 1][..n] == parts[..n];
    if n > 0 {
      assert Beaten(trace[..n], parts, worker, now, true);
      UndisturbedBeats(trace[..n], parts, worker, now, true);
    } else {
      assert parts[..0] == [];
    }
  }

  // ---- each transaction does what its event says ----

  lemma CreateDid(t: Table, p: Part, ok: bool, t': Table)
    requires ok <==> CompletePart(p) && p.key !in t && SourceMatches(t, p)
    requires t' == if ok then t[p.key := p] else t
    ensures FreshOriginal(p) ==> Did(t, Create(p), ok, t')
  {
    hide SourceMatches;
  }

  lemma CompactReadyDid(t: Table, k: Key, w: string, key: string, d: Destination, stats: Stats, counts: map<string, nat>,
                        now: Time, ok: bool, t': Table)
    requires ok <==> !Blank(w) && !Blank(key) && (stats.count > 0 ==> |counts| > 0) && !Blank(d.database) && !Blank(d.table) &&
                     !Blank(d.schema) && k in t && t[k].status == InProgress && t[k].workerId == w
    requires t' == if ok then Edit(t, {k}, p => RewriteCompleted(p, key, d, stats, counts, now)) else t
    ensures Did(t, Event.MarkCompactReady(k, w, key, d, stats, counts, now), ok, t')
  {
    hide Blank;
  }

  /** The snapshot has the row's status and, for a failed row, the stamps that decide where it returns to. */
  predicate SameRetry(t: Table, snapshot: Part) {
    snapshot.key in t ==>
      && snapshot.status == t[snapshot.key].status
      && FailedRetryTarget(snapshot) == FailedRetryTarget(t[snapshot.key])
  }

  lemma RetryDid(t: Table, snapshot: Part, now: Time, ok: bool, t': Table)
    requires ok <==> snapshot.status == Failed && InStatus(t, snapshot.key, Failed)
    requires forall p :: FailedRetried(p, FailedRetryTarget(snapshot), now).key == p.key
    requires t' == if ok then Edit(t, {snapshot.key}, p => FailedRetried(p, FailedRetryTarget(snapshot), now)) else t
    ensures t' == if ok then t[snapshot.key := FailedRetried(t[snapshot.key], FailedRetryTarget(snapshot), now)] else t
    ensures ok ==> snapshot.key in t' && t'[snapshot.key].status == FailedRetryTarget(snapshot)
    ensures SameRetry(t, snapshot) ==> Did(t, RetryFailed(snapshot.key, now), ok, t')
  {
    hide FailedRetryTarget;
  }

  lemma RewriteProgressDid(t: Table, k: Key, w: string, stats: Option<Stats>, now: Time, ok: bool, t': Table)
    requires ok <==> !Blank(w) && k in t && t[k].status == InProgress && t[k].workerId == w
    requires t' == if ok then t[k := RewriteProgressed(t[k], stats, now)] else t
    ensures Did(t, RewriteProgress(k, w, stats, now), ok, t')
  {
    hide Blank;
  }

  lemma HeartbeatDid(t: Table, k: Key, w: string, progress: Option<CompactProgress>, now: Time, ok: bool, t': Table)
    requires ok <==> !Blank(w) && k in t && OwnedOrUnownedReady(t[k], w)
    requires t' == if ok then t[k := HeartbeatPatched(t[k], w, progress, now)] else t
    ensures Did(t, Heartbeat(k, w, progress, now), ok, t')
  {
    hide Blank;
  }

  lemma ReadyDid(t: Table, w: string, hidden: set<Key>, now: Time, t': Table)
    requires var c := ReadyCandidates(t, hidden);
      t' == if Blank(w) || c == {} then t
            else var k := First(t, c, BySource); t[k := ClaimedForRewrite(t[k], w, now)]
    ensures Did(t, ClaimReady(w, hidden, now), !Blank(w), t')
  {
    hide Blank;
  }

  lemma RefusedClaim(t: Table, e: Event)
    requires e.ClaimCompact?
    requires var keys := ClaimSelection(t, e.window, e.batching, e.hidden, e.now);
      Blank(e.worker) || e.batching.maxArtifacts > MAX_COMPACT_BATCH_PARTS ||
      (keys != [] && !ValidBatchParts(ClaimedParts(t, keys, e.worker, e.now)))
    ensures Did(t, e, false, t) && Protocol.Granted(t, e) == {}
  {
    hide ClaimSelection, ValidBatchParts, Blank;
  }

  lemma EmptyClaim(t: Table, e: Event)
    requires e.ClaimCompact? && !Blank(e.worker) && e.batching.maxArtifacts <= MAX_COMPACT_BATCH_PARTS
    requires ClaimSelection(t, e.window, e.batching, e.hidden, e.now) == []
    ensures Did(t, e, true, t) && Protocol.Granted(t, e) == {}
  {
    hide ClaimSelection, Blank;
  }

  /** Writing the claimed parts one by one edits exactly the claimed rows. */
  lemma ClaimedIsEdit(t: Table, keys: seq<Key>, w: string, now: Time, t': Table)
    requires forall k | k in keys :: k in t
    requires t'.Keys == t.Keys
    requires forall i | 0 <= i < |keys| :: t'[keys[i]] == ClaimedParts(t, keys, w, now)[i]
    requires forall k | k in t && k !in KeySet(keys) :: t'[k] == t[k]
    ensures forall p :: ClaimedForCompaction(p, w, now).key == p.key
    ensures t' == Edit(t, KeySet(keys), p => ClaimedForCompaction(p, w, now))
  {
    assert forall p :: ClaimedForCompaction(p, w, now).key == p.key;
    hide ClaimedForCompaction;
    forall k | k in t && k in KeySet(keys) ensures t'[k] == ClaimedForCompaction(t[k], w, now) {
      var i :| 0 <= i < |keys| && keys[i] == k;
    }
  }

  lemma SavedClaim(t: Table, keys: seq<Key>, e: Event, t': Table)
    requires e.ClaimCompact? && keys == ClaimSelection(t, e.window, e.batching, e.hidden, e.now) && keys != []
    requires !Blank(e.worker) && e.batching.maxArtifacts <= MAX_COMPACT_BATCH_PARTS
    requires ValidBatchParts(ClaimedParts(t, keys, e.worker, e.now))
    requires forall p :: ClaimedForCompaction(p, e.worker, e.now).key == p.key
    requires t' == Edit(t, KeySet(keys), p => ClaimedForCompaction(p, e.worker, e.now))
    ensures Did(t, e, true, t')
    ensures Protocol.Granted(t, e) == {BatchOf(ClaimedParts(t, keys, e.worker, e.now))}
  {
    hide ClaimSelection, ValidBatchParts, Blank, ClaimedForCompaction, ClaimedParts, BatchOf;
    assert keys[0] in KeySet(keys);
    assert Targets(t, e) == Some(KeySet(keys));
    assert t' == Edit(t, KeySet(keys), p => Mutated(e, p));
  }

  lemma ReleaseDid(t: Table, b: Batch, w: string, now: Time, finalize: bool, ok: bool, t': Table)
    requires ok <==> !Blank(w) && forall k | k in BatchKeys(b) :: k in t && OwnedOrUnownedReady(t[k], w)
    requires forall p :: CompactReleased(p, finalize, now).key == p.key
    requires t' == if ok then Edit(t, BatchKeys(b), p => CompactReleased(p, finalize, now)) else t
    ensures Did(t, ReleaseBatch(b, w, now, finalize), ok, t')
  {
    hide Blank, OwnedOrUnownedReady, BatchKeys, CompactReleased;
  }

  lemma FailDid(t: Table, b: Batch, w: string, cause: string, now: Time, ok: bool, t': Table)
    requires ok <==> !Blank(w) && ValidBatch(b) &&
                     forall k | k in BatchKeys(b) :: k in t && t[k].status == Compacting && t[k].workerId == w
    requires t' == if ok then Edit(t, BatchKeys(b), p => CompactFailed(p, cause, now)) else t
    ensures Did(t, FailBatch(b, w, cause, now), ok, t')
  {
    if ValidBatch(b) { assert b.parts[0].key in BatchKeys(b); }
    hide Blank, BatchKeys, CompactFailed;
  }

  predicate Requestable(t: Table, k: Key) {
    InStatus(t, k, Compacting) || InStatus(t, k, CompactReady)
  }

  predicate Distinct(keys: seq<Key>) {
    forall i, j | 0 <= i < j < |keys| :: keys[i] != keys[j]
  }

  /** A request finishes an open row at once, and repeating it on a compacting row changes nothing. */
  lemma RequestTwice(p: Part, now: Time)
    ensures FinalizationRequested(p, now).key == p.key
    ensures p.status == CompactReady ==> FinalizationRequested(p, now).status == Finished
    ensures p.status == Compacting ==>
              FinalizationRequested(p, now).status == Compacting &&
              FinalizationRequested(FinalizationRequested(p, now), now) == FinalizationRequested(p, now)
  {}

  /** Every named row is open, and one that is named again is compacting. */
  predicate AllRequestable(t: Table, keys: seq<Key>) {
    && (forall k | k in keys :: Requestable(t, k))
    && (forall i, j | 0 <= i < j < |keys| && keys[i] == keys[j] :: InStatus(t, keys[i], Compacting))
  }

  ghost predicate RequestedSoFar(rows: map<Key, Row>, tx: map<Key, Row>, done: seq<Key>, now: Time) {
    Consistent(rows) && Consistent(tx) && AllRequestable(PartsOf(rows), done) && RequestedRows(rows, tx, done, now)
  }

  lemma NoneRequested(rows: map<Key, Row>, now: Time)
    requires Consistent(rows)
    ensures RequestedSoFar(rows, rows, [], now)
  {
    hide Consistent, ColumnsOf;
  }

  lemma SaveRequested(tx: map<Key, Row>, k: Key, now: Time)
    requires Consistent(tx) && k in tx
    ensures Consistent(tx[k := Saved(FinalizationRequested(tx[k].part, now))])
  {
    hide ColumnsOf;
  }

  ghost predicate RequestedRows(rows: map<Key, Row>, tx: map<Key, Row>, done: seq<Key>, now: Time) {
    && tx.Keys == rows.Keys
    && forall k | k in rows :: tx[k].part == if k in done then FinalizationRequested(rows[k].part, now) else rows[k].part
  }

  lemma RequestRow(rows: map<Key, Row>, tx: map<Key, Row>, done: seq<Key>, k: Key, now: Time)
    requires RequestedRows(rows, tx, done, now) && k in rows && tx[k].part.status in {Compacting, CompactReady}
    ensures RequestedRows(rows, tx[k := Saved(FinalizationRequested(tx[k].part, now))], done + [k], now)
    ensures rows[k].part.status in {Compacting, CompactReady} && (k in done ==> rows[k].part.status == Compacting)
  {
    RequestTwice(rows[k].part, now);
    hide ColumnsOf, FinalizationRequested;
    assert forall x :: x in done + [k] <==> x in done || x == k;
  }

  lemma RequestStep(rows: map<Key, Row>, tx: map<Key, Row>, done: seq<Key>, k: Key, now: Time)
    requires RequestedSoFar(rows, tx, done, now) && k in tx && tx[k].part.status in {Compacting, CompactReady}
    ensures RequestedSoFar(rows, tx[k := Saved(FinalizationRequested(tx[k].part, now))], done + [k], now)
  {
    hide Consistent, ColumnsOf, FinalizationRequested, AllRequestable, RequestedRows;
    assert k in rows by { assert RequestedRows(rows, tx, done, now); SameRows(rows, tx, done, now); }
    SaveRequested(tx, k, now);
    RequestRow(rows, tx, done, k, now);
    RequestMore(PartsOf(rows), done, k);
  }

  lemma SameRows(rows: map<Key, Row>, tx: map<Key, Row>, done: seq<Key>, now: Time)
    requires RequestedRows(rows, tx, done, now)
    ensures tx.Keys == rows.Keys
  {}

  lemma RequestMore(t: Table, done: seq<Key>, k: Key)
    requires AllRequestable(t, done) && Requestable(t, k) && (k in done ==> InStatus(t, k, Compacting))
    ensures AllRequestable(t, done + [k])
  {
    hide Requestable, InStatus;
    forall i, j | 0 <= i < j < |done + [k]| && (done + [k])[i] == (done + [k])[j] ensures InStatus(t, (done + [k])[i], Compacting) {
      assert (done + [k])[i] == done[i] && done[i] in done;
    }
  }

  lemma RequestRefused(rows: map<Key, Row>, tx: map<Key, Row>, keys: seq<Key>, i: nat, now: Time)
    requires i < |keys| && RequestedSoFar(rows, tx, keys[..i], now)
    requires keys[i] in tx ==> tx[keys[i]].part.status !in {Compacting, CompactReady}
    ensures !AllRequestable(PartsOf(rows), keys)
    ensures Distinct(keys) ==> Did(PartsOf(rows), RequestFinalization(KeySet(keys), now), false, PartsOf(rows))
  {
    var t, k := PartsOf(rows), keys[i];
    hide Consistent, ColumnsOf, FinalizationRequested, Did, AllRequestable, Requestable, RequestedRows;
    RefusedRow(rows, tx, keys[..i], k, now);
    if k in keys[..i] {
      var j :| 0 <= j < i && keys[..i][j] == k;
      assert keys[j] == k;
      NamedTwice(t, keys, j, i);
    } else {
      assert k in KeySet(keys) && !(forall x | x in keys :: Requestable(t, x));
      NotRequestable(t, keys, k);
      RequestKeepsKeys(now);
      RequestDid(t, KeySet(keys), now, false, t);
    }
  }

  /** The row that refuses a request was finished by the request itself, or was never open. */
  lemma RefusedRow(rows: map<Key, Row>, tx: map<Key, Row>, done: seq<Key>, k: Key, now: Time)
    requires Consistent(rows) && RequestedRows(rows, tx, done, now) && (k in tx ==> tx[k].part.status !in {Compacting, CompactReady})
    ensures if k in done then !InStatus(PartsOf(rows), k, Compacting) else !Requestable(PartsOf(rows), k)
  {
    if k in rows { RequestTwice(rows[k].part, now); }
    hide FinalizationRequested, Consistent;
  }

  lemma NamedTwice(t: Table, keys: seq<Key>, i: nat, j: nat)
    requires i < j < |keys| && keys[i] == keys[j] && !InStatus(t, keys[i], Compacting)
    ensures !AllRequestable(t, keys) && !Distinct(keys)
  {
    hide InStatus, Requestable;
  }

  lemma NotRequestable(t: Table, keys: seq<Key>, k: Key)
    requires k in keys && !Requestable(t, k)
    ensures !AllRequestable(t, keys)
  {
    hide Requestable;
  }

  lemma RequestEnd(rows: map<Key, Row>, tx: map<Key, Row>, keys: seq<Key>, now: Time)
    requires RequestedSoFar(rows, tx, keys, now)
    ensures Consistent(tx) && AllRequestable(PartsOf(rows), keys)
    ensures Did(PartsOf(rows), RequestFinalization(KeySet(keys), now), true, PartsOf(tx))
  {
    hide Consistent, ColumnsOf, FinalizationRequested, Did;
    var t := PartsOf(rows);
    RequestKeepsKeys(now);
    assert PartsOf(tx) == Edit(t, KeySet(keys), p => FinalizationRequested(p, now));
    RequestDid(t, KeySet(keys), now, true, PartsOf(tx));
  }

  lemma RequestKeepsKeys(now: Time)
    ensures forall p :: FinalizationRequested(p, now).key == p.key
  {}

  lemma RequestDid(t: Table, keys: set<Key>, now: Time, ok: bool, t': Table)
    requires ok <==> forall k | k in keys :: Requestable(t, k)
    requires forall p :: FinalizationRequested(p, now).key == p.key
    requires t' == if ok then Edit(t, keys, p => FinalizationRequested(p, now)) else t
    ensures Did(t, RequestFinalization(keys, now), ok, t')
  {
    hide FinalizationRequested;
  }

  function StaleKeys(t: Table, staleAfter: int, hidden: set<Key>, now: Time): set<Key> {
    set k | k in t && k !in hidden && StaleRow(t[k], staleAfter, now)
  }

  lemma StaleDid(t: Table, staleAfter: int, hidden: set<Key>, now: Time, ok: bool, t': Table)
    requires ok <==> staleAfter > 0
    requires t' == if ok then Edit(t, StaleKeys(t, staleAfter, hidden, now), p => StaleReleased(p, now)) else t
    ensures Did(t, ReleaseStale(staleAfter, hidden, now), ok, t')
    ensures ok ==> Targets(t, ReleaseStale(staleAfter, hidden, now)).value == StaleKeys(t, staleAfter, hidden, now)
  {}

  lemma RefusedCompletion(t: Table, e: Event)
    requires e.Complete?
    requires Blank(e.worker) || e.outputId == "" || e.finishedKey == "" || |e.batch.parts| > MAX_COMPACT_BATCH_PARTS ||
             !ValidBatch(e.batch) || |e.batch.parts| == 0 || Key(e.batch.job, e.outputId) in t
    ensures Did(t, e, false, t)
  {}

  lemma RefusedCompletionRow(t: Table, e: Event)
    requires e.Complete? && exists k | k in BatchKeys(e.batch) :: k !in t || !OwnedOrUnownedReady(t[k], e.worker)
    ensures Did(t, e, false, t)
  {}

  /** The loop's running output is the one FinalizationPending decides. */
  lemma OutputIsSpecified(t: Table, e: Event, output: Part)
    requires e.Complete? && e.batch.parts != []
    requires output == var o := CompactOutput(e.batch, e.outputId, e.finishedKey, e.stats, e.counts, false, e.now);
      if Pending(t, LockOrder(e.batch)) then Finish(o, e.now) else o
    ensures output == OutputOf(t, e)
  {
    hide NewCompactPart, OutputReadyAt, InputIds;
  }

  lemma CompletionDid(t: Table, e: Event, output: Part, t': Table)
    requires e.Complete? && !Blank(e.worker) && e.outputId != "" && e.finishedKey != ""
    requires |e.batch.parts| <= MAX_COMPACT_BATCH_PARTS && ValidBatch(e.batch) && Key(e.batch.job, e.outputId) !in t
    requires forall k | k in BatchKeys(e.batch) :: k in t && OwnedOrUnownedReady(t[k], e.worker)
    requires output == OutputOf(t, e)
    requires forall p :: MarkedSuperseded(p, e.outputId, e.now).key == p.key
    requires t' == Edit(t, BatchKeys(e.batch), p => MarkedSuperseded(p, e.outputId, e.now))[output.key := output]
    ensures Did(t, e, true, t')
  {
    hide Blank, OwnedOrUnownedReady, BatchKeys, MarkedSuperseded, OutputOf, ValidBatchParts;
  }
}
