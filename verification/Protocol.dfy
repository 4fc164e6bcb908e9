/** The state table as a transition system: what each committed transaction does to the table,
    and the runs that any number of workers, importers and operators can interleave. */
module Protocol {
  import opened Results
  import opened Ordering
  import opened PartState
  import opened Text

  predicate Keyed(t: map<Key, Part>) {
    forall k | k in t :: t[k].key == k
  }

  /** The table by primary key. */
  type Table = t: map<Key, Part> | Keyed(t) witness map[]

  const MAX_COMPACT_BATCH_PARTS := 99

  datatype Batching = Batching(maxArtifacts: int, maxBytes: nat) {
    predicate Enabled() { maxArtifacts >= 2 }
  }

  datatype Batch = Batch(job: string, parts: seq<Part>, input: Stats, generation: nat)

  /** One committed transaction, or one row of a transaction-free row-by-row update.
      `hidden` is the set of rows other transactions hold locked at that moment. */
  datatype Event =
    | Create(part: Part)
    | ClaimReady(worker: string, hidden: set<Key>, now: Time)
    | RewriteProgress(key: Key, worker: string, destinationStats: Option<Stats>, now: Time)
    | MarkCompactReady(key: Key, worker: string, finishedKey: string, destination: Destination, stats: Stats,
                       counts: map<string, nat>, now: Time)
    | MarkFailed(key: Key, worker: string, cause: string, now: Time)
    | ReleaseInProgress(key: Key, worker: string, now: Time)
    | RetryFailed(key: Key, now: Time)
    | RetryInProgress(key: Key, now: Time)
    | ClaimCompact(worker: string, window: int, batching: Batching, hidden: set<Key>, now: Time)
    | Heartbeat(key: Key, worker: string, progress: Option<CompactProgress>, now: Time)
    | RequestFinalization(keys: set<Key>, now: Time)
    | ReleaseBatch(batch: Batch, worker: string, now: Time, finalize: bool)
    | FailBatch(batch: Batch, worker: string, cause: string, now: Time)
    | ReleaseStale(staleAfter: int, hidden: set<Key>, now: Time)
    | Complete(batch: Batch, outputId: string, finishedKey: string, stats: Stats, counts: map<string, nat>,
               worker: string, now: Time)
    | Finalize(only: Option<string>, window: int, batching: Batching, hidden: set<Key>, now: Time)
    | MarkImporting(key: Key, now: Time)
    | MarkImported(key: Key, now: Time)
    | ReleaseImport(key: Key, now: Time)
    | MarkImportFailed(key: Key, cause: string, now: Time)

  /** The table after `f` is applied to the rows `keys`. */
  function Edit(t: Table, keys: set<Key>, f: Part -> Part): Table
    requires forall k | k in t && k in keys :: f(t[k]).key == k
  {
    map k | k in t :: if k in keys then f(t[k]) else t[k]
  }

  // ---- queries ----

  datatype Ranked = Ranked(primary: int, created: Time, key: Key)

  predicate KeyLess(a: Key, b: Key) {
    NameLess(a.job, b.job) || (a.job == b.job && NameLess(a.part, b.part))
  }

  predicate RankLess(a: Ranked, b: Ranked) {
    || a.primary < b.primary
    || (a.primary == b.primary && a.created < b.created)
    || (a.primary == b.primary && a.created == b.created && KeyLess(a.key, b.key))
  }

  lemma RankOrder()
    ensures StrictTotal(RankLess)
  {
    NameOrder();
    forall x ensures !RankLess(x, x) {}
    forall x, y ensures x == y || RankLess(x, y) || RankLess(y, x) {
      assert x.key.job == y.key.job || NameLess(x.key.job, y.key.job) || NameLess(y.key.job, x.key.job);
      assert x.key.part == y.key.part || NameLess(x.key.part, y.key.part) || NameLess(y.key.part, x.key.part);
    }
    forall x, y, z | RankLess(x, y) && RankLess(y, z) ensures RankLess(x, z) {
      assert NameLess(x.key.job, y.key.job) && NameLess(y.key.job, z.key.job) ==> NameLess(x.key.job, z.key.job);
      assert NameLess(x.key.part, y.key.part) && NameLess(y.key.part, z.key.part) ==> NameLess(x.key.part, z.key.part);
    }
  }

  function BySource(p: Part): Ranked { Ranked(0 - p.sourceBytes, p.createdAt, p.key) }
  function ByFragmentation(p: Part): Ranked { Ranked(0 - p.stats.count, p.createdAt, p.key) }
  function ByBytes(p: Part): Ranked { Ranked(p.stats.bytes, p.createdAt, p.key) }

  ghost predicate RanksKeys(rank: Part -> Ranked) {
    forall p :: rank(p).key == p.key
  }

  /** ORDER BY ... LIMIT 1 over the rows `keys`. */
  function First(t: Table, keys: set<Key>, rank: Part -> Ranked): (key: Key)
    requires keys != {} && keys <= t.Keys && RanksKeys(rank)
    ensures key in keys
    ensures forall k | k in keys :: k == key || RankLess(rank(t[key]), rank(t[k]))
  {
    RankOrder();
    var ranks := set k | k in keys :: rank(t[k]);
    assert forall k | k in keys :: rank(t[k]) in ranks;
    Least(RankLess, ranks).key
  }

  /** ORDER BY over the rows `keys`. */
  function Ordered(t: Table, keys: set<Key>, rank: Part -> Ranked): (xs: seq<Key>)
    requires keys <= t.Keys && RanksKeys(rank)
    ensures |xs| == |keys|
    ensures forall k :: k in xs <==> k in keys
    ensures forall i, j | 0 <= i < j < |xs| :: xs[i] != xs[j] && RankLess(rank(t[xs[i]]), rank(t[xs[j]]))
    decreases keys
  {
    if keys == {} then []
    else
      var m := First(t, keys, rank);
      [m] + Ordered(t, keys - {m}, rank)
  }

  function WithStatus(t: Table, status: Status): set<Key> {
    set k | k in t && t[k].status == status
  }

  predicate Later(a: int, b: int) { a > b }

  /** The latest compact-ready stamp of the job's original parts. */
  function LastOriginalReady(t: Table, job: string): (at: Option<Time>)
    ensures at.None? <==> forall k | k in t && k.job == job :: OriginalReadyAt(t[k]).None?
    ensures at.Some? ==> exists k | k in t && k.job == job :: OriginalReadyAt(t[k]) == at
    ensures at.Some? ==> forall k | k in t && k.job == job && OriginalReadyAt(t[k]).Some? ::
                           OriginalReadyAt(t[k]).value <= at.value
  {
    var stamps := set k | k in t && k.job == job && OriginalReadyAt(t[k]).Some? :: OriginalReadyAt(t[k]).value;
    if stamps == {} then
      assert forall k | k in t && k.job == job && OriginalReadyAt(t[k]).Some? :: OriginalReadyAt(t[k]).value in stamps;
      None
    else
      assert StrictTotal(Later);
      assert forall k | k in t && k.job == job && OriginalReadyAt(t[k]).Some? :: OriginalReadyAt(t[k]).value in stamps;
      Some(Least(Later, stamps))
  }

  /** The claim query's window filter. */
  predicate Open(t: Table, job: string, window: int, now: Time) {
    var last := LastOriginalReady(t, job);
    window <= 0 || last.None? || last.value > now - window
  }

  /** The finalizer's and the worker's test of the job's deadline. */
  predicate Expired(t: Table, job: string, window: int, now: Time) {
    var last := LastOriginalReady(t, job);
    window > 0 && last.Some? && now >= last.value + window
  }

  predicate Mergeable(t: Table, p: Key, s: Key, maxBytes: nat)
    requires p in t && s in t
  {
    && s.job == p.job && s != p
    && Partition(t[s]) == Partition(t[p])
    && t[s].status == CompactReady && Normalized(t[s])
    && (maxBytes == 0 || t[s].stats.bytes + t[p].stats.bytes <= maxBytes)
  }

  function ReadyCandidates(t: Table, hidden: set<Key>): set<Key> {
    WithStatus(t, Ready) - hidden
  }

  function FragmentedCandidates(t: Table, window: int, hidden: set<Key>, now: Time): set<Key> {
    set k | k in t && k !in hidden && t[k].status == CompactReady && Eligible(t[k]) && Open(t, k.job, window, now)
  }

  function AnchorCandidates(t: Table, window: int, batching: Batching, hidden: set<Key>, now: Time): set<Key> {
    set k | k in t && k !in hidden && t[k].status == CompactReady && Normalized(t[k]) && Open(t, k.job, window, now) &&
            exists s | s in t :: Mergeable(t, k, s, batching.maxBytes)
  }

  function SiblingCandidates(t: Table, anchor: Key, hidden: set<Key>): set<Key>
    requires anchor in t
  {
    set k | k in t && k !in hidden && k.job == anchor.job && Partition(t[k]) == Partition(t[anchor]) &&
            t[k].status == CompactReady && Normalized(t[k])
  }

  /** The sibling query's rows, smallest first. */
  function Siblings(t: Table, anchor: Key, hidden: set<Key>, limit: nat): (keys: seq<Key>)
    requires anchor in t
    ensures |keys| <= limit
    ensures forall k | k in keys :: k in t && k in SiblingCandidates(t, anchor, hidden)
  {
    var all := Ordered(t, SiblingCandidates(t, anchor, hidden), ByBytes);
    if |all| < limit then all else all[..limit]
  }

  /** The longest run of `keys` from the front that keeps `used` within the byte cap. */
  function TakeFitting(t: Table, keys: seq<Key>, used: nat, maxBytes: nat): (n: nat)
    requires forall k | k in keys :: k in t
    ensures n <= |keys|
    decreases |keys|
  {
    if keys == [] || (maxBytes > 0 && used + t[keys[0]].stats.bytes > maxBytes) then 0
    else 1 + TakeFitting(t, keys[1..], used + t[keys[0]].stats.bytes, maxBytes)
  }

  function SiblingSelection(t: Table, anchor: Key, batching: Batching, hidden: set<Key>): (keys: seq<Key>)
    requires anchor in t && batching.Enabled()
  {
    var siblings := Siblings(t, anchor, hidden, batching.maxArtifacts);
    var taken := siblings[..TakeFitting(t, siblings, 0, batching.maxBytes)];
    if |taken| < 2 then [] else taken
  }

  /** The rows ClaimNextCompactBatch locks: one fragmented part, else a group of normalized siblings. */
  function ClaimSelection(t: Table, window: int, batching: Batching, hidden: set<Key>, now: Time): (keys: seq<Key>) {
    var fragmented := FragmentedCandidates(t, window, hidden, now);
    if fragmented != {} then [First(t, fragmented, ByFragmentation)]
    else if !batching.Enabled() then []
    else
      var anchors := AnchorCandidates(t, window, batching, hidden, now);
      if anchors == {} then [] else SiblingSelection(t, First(t, anchors, ByBytes), batching, hidden)
  }

  // ---- batches ----

  function SumStats(parts: seq<Part>): Stats {
    if parts == [] then NO_STATS
    else
      var rest := SumStats(parts[..|parts| - 1]);
      var s := parts[|parts| - 1].stats;
      Stats(rest.count + s.count, rest.rows + s.rows, rest.bytes + s.bytes)
  }

  function NextGeneration(parts: seq<Part>): (generation: nat)
    ensures forall p | p in parts :: p.generation < generation
    ensures parts != [] ==> exists p | p in parts :: p.generation + 1 == generation
  {
    if parts == [] then 0
    else
      var rest := NextGeneration(parts[..|parts| - 1]);
      var last := parts[|parts| - 1];
      assert forall p | p in parts :: p in parts[..|parts| - 1] || p == last;
      if last.generation >= rest then last.generation + 1
      else
        assert forall p | p in parts[..|parts| - 1] :: p in parts;
        rest
  }

  predicate ValidBatchParts(parts: seq<Part>) {
    && parts != []
    && forall i | 0 <= i < |parts| ::
         && HasDestination(parts[i])
         && parts[i].key.job == parts[0].key.job
         && parts[i].bucket == parts[0].bucket
         && parts[i].destination == parts[0].destination
  }

  predicate ValidBatch(b: Batch) {
    ValidBatchParts(b.parts) && b.job == b.parts[0].key.job
  }

  function BatchOf(parts: seq<Part>): Batch
    requires parts != []
  {
    Batch(parts[0].key.job, parts, SumStats(parts), NextGeneration(parts))
  }

  function BatchKeys(b: Batch): set<Key> {
    set p | p in b.parts :: p.key
  }

  function InputIds(b: Batch): (ids: seq<string>) {
    NameOrder();
    Sorted(NameLess, set p | p in b.parts :: p.key.part)
  }

  predicate OwnedOrUnownedReady(p: Part, worker: string) {
    (p.status == Compacting && p.workerId == worker) || (p.status == CompactReady && Blank(p.workerId))
  }

  function ReadySince(p: Part): Time {
    p.compactReadyAt.GetOr(p.progressUpdatedAt.GetOr(p.updatedAt))
  }

  function OutputReadyAt(parts: seq<Part>): Time
    requires parts != []
  {
    var last := ReadySince(parts[|parts| - 1]);
    if |parts| == 1 then last
    else
      var rest := OutputReadyAt(parts[..|parts| - 1]);
      if last > rest then last else rest
  }

  function CompactOutput(b: Batch, outputId: string, finishedKey: string, stats: Stats, counts: map<string, nat>,
                         finished: bool, now: Time): (output: Part)
    requires b.parts != []
    ensures output.key == Key(b.job, outputId)
  {
    var output := NewCompactPart(Key(b.job, outputId), b.parts[0].bucket, finishedKey, b.parts[0].destination,
                                 InputIds(b), b.generation, stats, counts, OutputReadyAt(b.parts), now);
    if finished then SetStatus(output, Finished, now).(finishedAt := Some(now)) else output
  }

  /** The row a completion inserts. */
  function OutputOf(t: Table, e: Event): (output: Part)
    requires e.Complete? && e.batch.parts != []
    ensures output.key == Key(e.batch.job, e.outputId)
  {
    CompactOutput(e.batch, e.outputId, e.finishedKey, e.stats, e.counts, FinalizationPending(t, BatchKeys(e.batch)), e.now)
  }

  predicate FinalizationPending(t: Table, keys: set<Key>) {
    exists k | k in keys :: k in t && t[k].finalizeRequestedAt.Some?
  }

  // ---- finalization ----

  predicate JobHas(t: Table, job: string, statuses: set<Status>) {
    exists k | k in t :: k.job == job && t[k].status in statuses
  }

  predicate HasCompactReady(t: Table, job: string) { JobHas(t, job, {CompactReady}) }

  predicate Blocked(t: Table, job: string) { JobHas(t, job, {Ready, InProgress, Compacting, Failed}) }

  predicate Rewriting(t: Table, job: string) { JobHas(t, job, {Ready, InProgress}) }

  predicate HasEligible(t: Table, job: string) {
    exists k | k in t :: k.job == job && t[k].status == CompactReady && Eligible(t[k])
  }

  predicate HasNormalized(t: Table, job: string) {
    exists k | k in t :: k.job == job && t[k].status == CompactReady && Normalized(t[k])
  }

  /** The one case the finalizer reports as an error and rolls back. */
  predicate MissingDeadline(t: Table, job: string, window: int) {
    HasCompactReady(t, job) && !Blocked(t, job) && window > 0 && LastOriginalReady(t, job).None?
  }

  predicate FinalizeAll(t: Table, job: string, window: int, now: Time) {
    !Blocked(t, job) && (if window > 0 then Expired(t, job, window, now) else !HasEligible(t, job))
  }

  /** Another row may still merge with normalized row `p`. */
  predicate StillMergeable(t: Table, p: Key, maxBytes: nat)
    requires p in t
  {
    exists s | s in t ::
      || Mergeable(t, p, s, maxBytes)
      || (s.job == p.job && s != p &&
          (t[s].status == Compacting || (t[s].status == CompactReady && Eligible(t[s]))) &&
          Partition(t[p]) in t[s].partitionCounts)
  }

  predicate Finalizable(t: Table, k: Key, window: int, batching: Batching, now: Time)
    requires k in t
  {
    var all := FinalizeAll(t, k.job, window, now);
    && (all || HasNormalized(t, k.job))
    && t[k].status == CompactReady
    && if !Normalized(t[k]) then all
       else all || Expired(t, k.job, window, now) || !batching.Enabled() ||
            !(Rewriting(t, k.job) || StillMergeable(t, k, batching.maxBytes))
  }

  function FinalizeKeys(t: Table, job: string, window: int, batching: Batching, hidden: set<Key>, now: Time): set<Key> {
    set k | k in t && k.job == job && k !in hidden && Finalizable(t, k, window, batching, now)
  }

  function ReadyJobs(t: Table): set<string> {
    set k | k in t && t[k].status == CompactReady :: k.job
  }

  function JobsInScope(t: Table, only: Option<string>): set<string> {
    if only.Some? then ReadyJobs(t) * {only.value} else ReadyJobs(t)
  }

  function AllFinalizeKeys(t: Table, only: Option<string>, window: int, batching: Batching, hidden: set<Key>, now: Time): set<Key> {
    set k | k in t && k.job in JobsInScope(t, only) && k !in hidden && Finalizable(t, k, window, batching, now)
  }

  // ---- transactions ----

  /** What the importers insert: a fresh original part, possibly reusing another part's source artifact. */
  predicate FreshOriginal(p: Part) {
    && p == NewPart(p.key, p.bucket, p.sourceKey, p.finishedKey, p.createdAt).(
              source := p.source, sourceBytes := p.sourceBytes, destination := p.destination)
    && p.key.job != "" && p.key.part != "" && p.bucket != "" && p.sourceKey != "" && p.finishedKey != ""
    && p.source != Some(p.key) && (p.source.Some? ==> (p.source.value.job == "" <==> p.source.value.part == ""))
  }

  predicate SourceMatches(t: Table, p: Part) {
    p.source.Some? && !Blank(p.source.value.job) ==>
      && p.source.value in t
      && var source := t[p.source.value];
         !IsGenerated(source) && source.bucket == p.bucket && source.sourceKey == p.sourceKey
  }

  predicate StaleRow(p: Part, staleAfter: int, now: Time) {
    StaleAt(p).Some? && StaleAt(p).value <= now - staleAfter
  }

  predicate Holds(t: Table, key: Key, status: Status, worker: string) {
    !Blank(worker) && key in t && t[key].status == status && t[key].workerId == worker
  }

  predicate InStatus(t: Table, key: Key, status: Status) {
    key in t && t[key].status == status
  }

  predicate AllOwnedOrReady(t: Table, b: Batch, worker: string) {
    forall k | k in BatchKeys(b) :: k in t && OwnedOrUnownedReady(t[k], worker)
  }

  /** The rows an updating transaction writes; None when its checks fail and it rolls back. */
  ghost function Targets(t: Table, e: Event): Option<set<Key>> {
    match e
    case Create(_) => None
    case ClaimReady(w, hidden, now) =>
      if Blank(w) then None
      else if ReadyCandidates(t, hidden) == {} then Some({})
      else Some({First(t, ReadyCandidates(t, hidden), BySource)})
    case RewriteProgress(k, w, _, now) => if Holds(t, k, InProgress, w) then Some({k}) else None
    case MarkCompactReady(k, w, key, d, stats, counts, now) =>
      if Holds(t, k, InProgress, w) && !Blank(key) && !Blank(d.database) && !Blank(d.table) && !Blank(d.schema) &&
         (stats.count > 0 ==> |counts| > 0)
      then Some({k}) else None
    case MarkFailed(k, w, _, now) => if Holds(t, k, InProgress, w) then Some({k}) else None
    case ReleaseInProgress(k, w, now) => if Holds(t, k, InProgress, w) then Some({k}) else None
    case RetryFailed(k, now) => if InStatus(t, k, Failed) then Some({k}) else None
    case RetryInProgress(k, now) => if InStatus(t, k, InProgress) then Some({k}) else None
    case ClaimCompact(w, window, batching, hidden, now) =>
      if Blank(w) || batching.maxArtifacts > MAX_COMPACT_BATCH_PARTS then None
      else
        var keys := ClaimSelection(t, window, batching, hidden, now);
        if keys == [] then Some({})
        else if ValidBatchParts(ClaimedParts(t, keys, w, now)) then Some(set k | k in keys)
        else None
    case Heartbeat(k, w, _, now) => if !Blank(w) && k in t && OwnedOrUnownedReady(t[k], w) then Some({k}) else None
    case RequestFinalization(keys, now) =>
      if forall k | k in keys :: k in t && t[k].status in {Compacting, CompactReady} then Some(keys) else None
    case ReleaseBatch(b, w, now, _) => if !Blank(w) && AllOwnedOrReady(t, b, w) then Some(BatchKeys(b)) else None
    case FailBatch(b, w, _, now) =>
      if ValidBatch(b) && forall k | k in BatchKeys(b) :: Holds(t, k, Compacting, w) then Some(BatchKeys(b)) else None
    case ReleaseStale(staleAfter, hidden, now) =>
      if staleAfter <= 0 then None
      else Some(set k | k in t && k !in hidden && StaleRow(t[k], staleAfter, now))
    case Complete(b, outputId, key, stats, counts, w, now) =>
      if !Blank(w) && outputId != "" && key != "" && |b.parts| <= MAX_COMPACT_BATCH_PARTS && ValidBatch(b) &&
         AllOwnedOrReady(t, b, w) && Key(b.job, outputId) !in t
      then Some(BatchKeys(b)) else None
    case Finalize(only, window, batching, hidden, now) =>
      if only == Some("") || exists job | job in JobsInScope(t, only) :: MissingDeadline(t, job, window) then None
      else Some(AllFinalizeKeys(t, only, window, batching, hidden, now))
    case MarkImporting(k, now) => if InStatus(t, k, Finished) then Some({k}) else None
    case MarkImported(k, now) => if InStatus(t, k, Importing) then Some({k}) else None
    case ReleaseImport(k, now) => if InStatus(t, k, Importing) then Some({k}) else None
    case MarkImportFailed(k, _, now) => if InStatus(t, k, Importing) then Some({k}) else None
  }

  /** What an updating transaction writes to each of its rows. */
  function Mutated(e: Event, p: Part): (q: Part)
    ensures q.key == p.key
  {
    match e
    case Create(_) => p
    case ClaimReady(w, _, now) => ClaimedForRewrite(p, w, now)
    case RewriteProgress(_, _, stats, now) => RewriteProgressed(p, stats, now)
    case MarkCompactReady(_, _, key, d, stats, counts, now) => RewriteCompleted(p, key, d, stats, counts, now)
    case MarkFailed(_, _, cause, now) => RewriteFailed(p, cause, now)
    case ReleaseInProgress(_, _, now) => RewriteReturned(p, now)
    case RetryFailed(_, now) => FailedRetried(p, FailedRetryTarget(p), now)
    case RetryInProgress(_, now) => RewriteReturned(p, now)
    case ClaimCompact(w, _, _, _, now) => ClaimedForCompaction(p, w, now)
    case Heartbeat(_, w, progress, now) => HeartbeatPatched(p, w, progress, now)
    case RequestFinalization(_, now) => FinalizationRequested(p, now)
    case ReleaseBatch(_, _, now, finalize) => CompactReleased(p, finalize, now)
    case FailBatch(_, _, cause, now) => CompactFailed(p, cause, now)
    case ReleaseStale(_, _, now) => StaleReleased(p, now)
    case Complete(_, outputId, _, _, _, _, now) => MarkedSuperseded(p, outputId, now)
    case Finalize(_, _, _, _, now) => BulkFinalized(p, now)
    case MarkImporting(_, now) => ImportStarted(p, now)
    case MarkImported(_, now) => ImportCompleted(p, now)
    case ReleaseImport(_, now) => ImportReleased(p, now)
    case MarkImportFailed(_, cause, now) => ImportFailed(p, cause, now)
  }

  function ClaimedParts(t: Table, keys: seq<Key>, worker: string, now: Time): (parts: seq<Part>)
    ensures |parts| == |keys|
  {
    seq(|keys|, i requires 0 <= i < |keys| =>
      if keys[i] in t then ClaimedForCompaction(t[keys[i]], worker, now) else NewPart(keys[i], "", "", "", now))
  }

  ghost predicate Succeeds(t: Table, e: Event) {
    if e.Create? then FreshOriginal(e.part) && e.part.key !in t && SourceMatches(t, e.part)
    else Targets(t, e).Some?
  }

  /** The table after the transaction; a transaction whose checks fail changes nothing. */
  ghost function Apply(t: Table, e: Event): Table {
    if !Succeeds(t, e) then t
    else if e.Create? then t[e.part.key := e.part]
    else
      hide Mutated, OutputOf, ValidBatchParts;
      var keys := Targets(t, e).value;
      var edited := Edit(t, keys, p => Mutated(e, p));
      if e.Complete?
      then
        var output := OutputOf(t, e);
        edited[output.key := output]
      else edited
  }

  // ---- runs ----

  /** The table and every batch any worker was ever granted. */
  datatype System = System(table: Table, held: set<Batch>)

  ghost function Granted(t: Table, e: Event): set<Batch> {
    if e.ClaimCompact? && Targets(t, e).Some? && Targets(t, e).value != {}
    then {BatchOf(ClaimedParts(t, ClaimSelection(t, e.window, e.batching, e.hidden, e.now), e.worker, e.now))}
    else {}
  }

  /** A worker only acts on batches that were granted; which worker presents a batch, how late, and how often is free. */
  ghost predicate Allowed(s: System, e: Event) {
    && (e.ReleaseBatch? ==> e.batch in s.held)
    && (e.FailBatch? ==> e.batch in s.held)
    && (e.Complete? ==> e.batch in s.held)
  }

  ghost predicate Next(s: System, e: Event, s': System) {
    && Allowed(s, e)
    && s' == System(Apply(s.table, e), s.held + Granted(s.table, e))
  }

  const START := System(map[], {})

  ghost predicate Run(states: seq<System>, events: seq<Event>) {
    && |states| == |events| + 1
    && states[0] == START
    && forall i | 0 <= i < |events| :: Next(states[i], events[i], states[i + 1])
  }

  lemma RunStep(states: seq<System>, events: seq<Event>, i: nat)
    requires Run(states, events) && i < |events|
    ensures Allowed(states[i], events[i]) && states[i + 1].table == Apply(states[i].table, events[i])
  {
    hide Apply, Granted;
    assert Next(states[i], events[i], states[i + 1]);
  }
}
