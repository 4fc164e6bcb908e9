/** The chunked insert: staging, completed table, retries with lower settings, promotion, final exchange.
    Every successful run leaves the rewrite of each selected source row in the destination exactly once. */
module ChunkedInsert {
  import opened Results
  import opened Ordering
  import opened InsertSettings
  import opened InsertChunks

  /** An active part of a table: some rows of one partition. */
  datatype TablePart<D> = TablePart(partition: string, rows: multiset<D>)

  function RowsOf<D>(parts: seq<TablePart<D>>): multiset<D> {
    if parts == [] then multiset{} else RowsOf(parts[..|parts| - 1]) + parts[|parts| - 1].rows
  }

  /** What a row-local SELECT yields for `rows`. */
  function Rewrite<S, D>(select: S -> seq<D>, rows: seq<S>): multiset<D> {
    if rows == [] then multiset{} else Rewrite(select, rows[..|rows| - 1]) + multiset(select(rows[|rows| - 1]))
  }

  lemma {:induction false} RewriteDistributes<S, D>(select: S -> seq<D>, a: seq<S>, b: seq<S>)
    ensures Rewrite(select, a + b) == Rewrite(select, a) + Rewrite(select, b)
  {
    if b == [] {
      assert a + b == a;
    } else {
      var n := |b| - 1;
      assert (a + b)[..|a + b| - 1] == a + b[..n];
      RewriteDistributes(select, a, b[..n]);
    }
  }

  // ---- what an insert reads ----

  /** Whether a table filter keeps the row at `offset` of its part; `passes` says what any other filter text keeps. */
  predicate Keeps<S>(filter: Option<Value>, passes: (Value, S) -> bool, offset: nat, row: S) {
    match filter
    case None => true
    case Some(Offsets(start, end)) => start <= offset < end
    case Some(other) => passes(other, row)
  }

  function Kept<S>(filter: Option<Value>, passes: (Value, S) -> bool, rows: seq<S>): (kept: seq<S>) {
    if rows == [] then []
    else
      var n := |rows| - 1;
      Kept(filter, passes, rows[..n]) + if Keeps(filter, passes, n, rows[n]) then [rows[n]] else []
  }

  /** The rows of a table that the filter keeps; offsets start over in every part. */
  function Selected<S>(filter: Option<Value>, passes: (Value, S) -> bool, parts: seq<seq<S>>): (rows: seq<S>) {
    if parts == [] then []
    else
      var n := |parts| - 1;
      Selected(filter, passes, parts[..n]) + Kept(filter, passes, parts[n])
  }

  function AllRows<S>(parts: seq<seq<S>>): (rows: seq<S>) {
    if parts == [] then [] else AllRows(parts[..|parts| - 1]) + parts[|parts| - 1]
  }

  lemma {:induction false} KeptIsSlice<S>(passes: (Value, S) -> bool, rows: seq<S>, start: nat, end: nat)
    requires start <= end
    ensures Kept(Some(Offsets(start, end)), passes, rows) == rows[Min(start, |rows|)..Min(end, |rows|)]
  {
    if rows != [] { KeptIsSlice(passes, rows[..|rows| - 1], start, end); }
  }

  lemma {:induction false} KeptIsAll<S>(passes: (Value, S) -> bool, rows: seq<S>)
    ensures Kept(None, passes, rows) == rows
  {
    if rows != [] { KeptIsAll(passes, rows[..|rows| - 1]); }
  }

  lemma {:induction false} UnfilteredIsAll<S>(passes: (Value, S) -> bool, parts: seq<seq<S>>)
    ensures Selected(None, passes, parts) == AllRows(parts)
  {
    if parts != [] {
      UnfilteredIsAll(passes, parts[..|parts| - 1]);
      KeptIsAll(passes, parts[|parts| - 1]);
    }
  }

  /** In a table of one part, a range of offsets is that range of its rows. */
  lemma OffsetsOfOnePart<S>(passes: (Value, S) -> bool, parts: seq<seq<S>>, start: nat, end: nat)
    requires |parts| == 1 && start <= end <= |AllRows(parts)|
    ensures Selected(Some(Offsets(start, end)), passes, parts) == AllRows(parts)[start..end]
  {
    assert parts[..0] == [];
    assert AllRows(parts) == [] + parts[0] == parts[0];
    KeptIsSlice(passes, parts[0], start, end);
    assert Selected(Some(Offsets(start, end)), passes, parts) == [] + Kept(Some(Offsets(start, end)), passes, parts[0]);
  }

  lemma SlicesJoin<S, D>(select: S -> seq<D>, rows: seq<S>, a: nat, b: nat)
    requires a <= b <= |rows|
    ensures Rewrite(select, rows[..b]) == Rewrite(select, rows[..a]) + Rewrite(select, rows[a..b])
  {
    assert rows[..b] == rows[..a] + rows[a..b];
    RewriteDistributes(select, rows[..a], rows[a..b]);
  }

  /** What the insert of one range of offsets adds. */
  function RangeInserted<S, D>(select: S -> seq<D>, passes: (Value, S) -> bool, parts: seq<seq<S>>, a: nat, b: nat): multiset<D> {
    Rewrite(select, Selected(Some(Offsets(a, b)), passes, parts))
  }

  lemma LastPartInserted<S, D>(select: S -> seq<D>, passes: (Value, S) -> bool, parts: seq<seq<S>>, a: nat, b: nat)
    requires parts != [] && a <= b
    ensures var rows := parts[|parts| - 1];
      RangeInserted(select, passes, parts, a, b) ==
      RangeInserted(select, passes, parts[..|parts| - 1], a, b) + Rewrite(select, rows[Min(a, |rows|)..Min(b, |rows|)])
  {
    var front, rows := parts[..|parts| - 1], parts[|parts| - 1];
    KeptIsSlice(passes, rows, a, b);
    RewriteDistributes(select, Selected(Some(Offsets(a, b)), passes, front), Kept(Some(Offsets(a, b)), passes, rows));
  }

  /** Over any number of parts, the next range of offsets adds exactly what lies beyond the ranges before it. */
  lemma {:induction false} NextRange<S, D>(select: S -> seq<D>, passes: (Value, S) -> bool, parts: seq<seq<S>>, a: nat, b: nat)
    requires a <= b
    ensures RangeInserted(select, passes, parts, 0, b) ==
            RangeInserted(select, passes, parts, 0, a) + RangeInserted(select, passes, parts, a, b)
  {
    if parts != [] {
      var front, rows := parts[..|parts| - 1], parts[|parts| - 1];
      NextRange(select, passes, front, a, b);
      LastPartInserted(select, passes, parts, 0, b);
      LastPartInserted(select, passes, parts, 0, a);
      LastPartInserted(select, passes, parts, a, b);
      SlicesJoin(select, rows, Min(a, |rows|), Min(b, |rows|));
      hide RangeInserted, Rewrite;
    }
  }

  lemma {:induction false} WholeRange<S>(passes: (Value, S) -> bool, parts: seq<seq<S>>, total: nat)
    requires |AllRows(parts)| <= total
    ensures Selected(Some(Offsets(0, total)), passes, parts) == AllRows(parts)
    ensures Selected(Some(Offsets(0, 0)), passes, parts) == []
  {
    if parts != [] {
      WholeRange(passes, parts[..|parts| - 1], total);
      KeptIsSlice(passes, parts[|parts| - 1], 0, total);
      KeptIsSlice(passes, parts[|parts| - 1], 0, 0);
    }
  }

  /** What the inserts of the first `n` chunks of `rows` rows add up to. */
  function ChunksInserted<S, D>(select: S -> seq<D>, passes: (Value, S) -> bool, parts: seq<seq<S>>, rows: nat, chunks: nat, n: nat)
    : multiset<D>
    requires 1 <= chunks
  {
    if n == 0 then multiset{}
    else
      ChunksInserted(select, passes, parts, rows, chunks, n - 1) +
      RangeInserted(select, passes, parts, Start(rows, chunks, n - 1), Start(rows, chunks, n))
  }

  lemma NoChunkInserted<S, D>(select: S -> seq<D>, passes: (Value, S) -> bool, parts: seq<seq<S>>, chunks: nat)
    requires 1 <= chunks
    ensures var rows := |AllRows(parts)|;
      ChunksInserted(select, passes, parts, rows, chunks, 0) == RangeInserted(select, passes, parts, 0, Start(rows, chunks, 0))
  {
    WholeRange(passes, parts, |AllRows(parts)|);
  }

  lemma NextChunkInserted<S, D>(select: S -> seq<D>, passes: (Value, S) -> bool, parts: seq<seq<S>>, rows: nat, chunks: nat, n: nat)
    requires n < chunks && ChunksInserted(select, passes, parts, rows, chunks, n) ==
                           RangeInserted(select, passes, parts, 0, Start(rows, chunks, n))
    ensures ChunksInserted(select, passes, parts, rows, chunks, n + 1) ==
            RangeInserted(select, passes, parts, 0, Start(rows, chunks, n + 1))
  {
    hide RangeInserted, Start;
    StartEnds(rows, chunks, n);
    NextRange(select, passes, parts, Start(rows, chunks, n), Start(rows, chunks, n + 1));
  }

  lemma {:induction false} ChunksInsertedIs<S, D>(select: S -> seq<D>, passes: (Value, S) -> bool, parts: seq<seq<S>>, chunks: nat, n: nat)
    requires n <= chunks && 1 <= chunks
    ensures var rows := |AllRows(parts)|;
      ChunksInserted(select, passes, parts, rows, chunks, n) == RangeInserted(select, passes, parts, 0, Start(rows, chunks, n))
  {
    hide *;
    if n == 0 {
      NoChunkInserted(select, passes, parts, chunks);
    } else {
      ChunksInsertedIs(select, passes, parts, chunks, n - 1);
      NextChunkInserted(select, passes, parts, |AllRows(parts)|, chunks, n - 1);
    }
  }

  /** The chunks insert every source row exactly once however many parts hold the rows, as long as the parts stay as they
      are: every offset within a part is below the number of rows, so it lies in exactly one range. */
  lemma ChunksInsertEveryRow<S, D>(select: S -> seq<D>, passes: (Value, S) -> bool, parts: seq<seq<S>>, minRows: nat)
    ensures var rows := |AllRows(parts)|;
            var chunks := InsertChunkCount(rows, minRows);
      ChunksInserted(select, passes, parts, rows, chunks, chunks) == Rewrite(select, AllRows(parts))
  {
    var rows := |AllRows(parts)|;
    var chunks := InsertChunkCount(rows, minRows);
    hide InsertChunkCount, AllRows, Start;
    ChunksInsertedIs(select, passes, parts, chunks, chunks);
    StartEnds(rows, chunks, 0);
    WholeRange(passes, parts, rows);
  }

  /** What the single-part check is for: a range that starts past the longest part selects nothing, however many rows the
      chunk was meant to hold. */
  lemma {:induction false} LateRangeIsEmpty<S>(passes: (Value, S) -> bool, parts: seq<seq<S>>, start: nat, end: nat)
    requires start <= end && forall p | p in parts :: |p| <= start
    ensures Selected(Some(Offsets(start, end)), passes, parts) == []
  {
    if parts != [] {
      var front := parts[..|parts| - 1];
      assert forall p | p in front :: p in parts;
      LateRangeIsEmpty(passes, front, start, end);
      assert parts[|parts| - 1] in parts;
      KeptIsSlice(passes, parts[|parts| - 1], start, end);
    }
  }

  function Slice<S>(rows: seq<S>, start: nat, end: nat): (slice: seq<S>) {
    if start <= end <= |rows| then rows[start..end] else []
  }

  // ---- tables ----

  /** No row is there more often than in `whole`. */
  predicate PartOf<D(==)>(some: multiset<D>, whole: multiset<D>) {
    some <= whole
  }

  lemma AddedToNothing<D>(x: multiset<D>)
    ensures RowsOf<D>([]) + x == x
  {}

  lemma NothingIsPart<D>(whole: multiset<D>)
    ensures PartOf(RowsOf<D>([]), whole)
  {}

  lemma SharePartOf<D>(a: multiset<D>, b: multiset<D>, whole: multiset<D>)
    requires PartOf(a + b, whole)
    ensures PartOf(b, whole)
  {}

  lemma {:induction false} RewriteOfPrefix<S, D>(select: S -> seq<D>, rows: seq<S>, n: nat)
    requires n <= |rows|
    ensures PartOf(Rewrite(select, rows[..n]), Rewrite(select, rows))
  {
    assert rows == rows[..n] + rows[n..];
    RewriteDistributes(select, rows[..n], rows[n..]);
  }

  lemma RewriteNext<S, D>(select: S -> seq<D>, rows: seq<S>, start: nat, end: nat)
    requires start <= end <= |rows|
    ensures Rewrite(select, rows[..end]) == Rewrite(select, rows[..start]) + Rewrite(select, rows[start..end])
  {
    assert rows[..end] == rows[..start] + rows[start..end];
    RewriteDistributes(select, rows[..start], rows[start..end]);
  }

  /** Each source row yields its own rows, and nothing else does. */
  lemma RewriteOfOne<S, D>(select: S -> seq<D>, row: S)
    ensures Rewrite(select, [row]) == multiset(select(row))
    ensures Rewrite(select, []) == multiset{}
  {
    assert [row][..0] == [];
  }

  lemma RowsOfOne<D>(p: TablePart<D>)
    ensures RowsOf([p]) == p.rows && RowsOf<D>([]) == multiset{}
  {
    assert [p][..0] == [];
  }

  lemma {:induction false} RowsDistribute<D>(a: seq<TablePart<D>>, b: seq<TablePart<D>>)
    ensures RowsOf(a + b) == RowsOf(a) + RowsOf(b)
  {
    if b == [] {
      assert a + b == a;
    } else {
      var n := |b| - 1;
      assert (a + b)[..|a + b| - 1] == a + b[..n];
      RowsDistribute(a, b[..n]);
    }
  }

  /** The parts in one partition, or those in the others. */
  function Select<D>(parts: seq<TablePart<D>>, partition: string, inside: bool): (chosen: seq<TablePart<D>>)
    ensures forall p | p in chosen :: p in parts && (p.partition == partition) == inside
  {
    if parts == [] then []
    else
      var n := |parts| - 1;
      Select(parts[..n], partition, inside) + if (parts[n].partition == partition) == inside then [parts[n]] else []
  }

  lemma RowsOfMore<D>(parts: seq<TablePart<D>>, p: TablePart<D>)
    ensures RowsOf(parts + [p]) == RowsOf(parts) + p.rows
  {
    assert (parts + [p])[..|parts|] == parts;
  }

  lemma {:induction false} SelectSplits<D>(parts: seq<TablePart<D>>, partition: string)
    ensures RowsOf(Select(parts, partition, true)) + RowsOf(Select(parts, partition, false)) == RowsOf(parts)
  {
    if parts != [] {
      var n := |parts| - 1;
      SelectSplits(parts[..n], partition);
      var yes, no := Select(parts[..n], partition, true), Select(parts[..n], partition, false);
      RowsOfMore(yes, parts[n]);
      RowsOfMore(no, parts[n]);
      assert RowsOf(parts) == RowsOf(parts[..n]) + parts[n].rows;
      hide RowsOf;
      if parts[n].partition == partition {
        assert Select(parts, partition, true) == yes + [parts[n]] && Select(parts, partition, false) == no + [] == no;
      } else {
        assert Select(parts, partition, true) == yes + [] == yes && Select(parts, partition, false) == no + [parts[n]];
      }
    }
  }

  lemma HasSomePart<D>(parts: seq<TablePart<D>>)
    requires parts != []
    ensures exists p :: p in parts
  {
    assert parts[0] in parts;
  }

  lemma NothingInserted<S, D>(select: S -> seq<D>, rows: nat, chunks: nat, approx: nat)
    requires chunks >= 1
    ensures RowsOf<D>([]) == multiset{} == Rewrite(select, []) && Start(rows, chunks, 0) == 0
    ensures Counted(NO_PROGRESS.(totalRowsApprox := approx), [])
  {}

  /** The settings a retry starts from: the server's block size stands in for one the caller left out. */
  function WithBlockSize(settings: Settings, blockSize: Value): Settings {
    if MAX_BLOCK_SIZE in settings then settings else settings[MAX_BLOCK_SIZE := blockSize]
  }

  function TotalOf(commits: seq<QueryProgress>): QueryProgress {
    if commits == [] then NO_PROGRESS else Plus(TotalOf(commits[..|commits| - 1]), commits[|commits| - 1])
  }

  ghost predicate LoweredFrom(current: Settings, next: Settings) {
    && (forall name :: name in next <==> name in current)
    && forall name | name in current :: LoweredValue(current, name) == Some(next[name])
  }

  /** A block size the caller set is kept, and everything else of the settings too. */
  lemma WithBlockSizeExactly(settings: Settings, blockSize: Value, name: string)
    ensures name in WithBlockSize(settings, blockSize) <==> name in settings || name == "max_block_size"
    ensures name in settings ==> WithBlockSize(settings, blockSize)[name] == settings[name]
    ensures "max_block_size" !in settings ==> WithBlockSize(settings, blockSize)["max_block_size"] == blockSize
  {}

  function SumOf(commits: seq<QueryProgress>, count: QueryProgress -> nat): nat {
    if commits == [] then 0 else SumOf(commits[..|commits| - 1], count) + count(commits[|commits| - 1])
  }

  /** Each counter of the total is the sum of the commits' counters. */
  lemma {:induction false} TotalIsSum(commits: seq<QueryProgress>)
    ensures TotalOf(commits).readRows == SumOf(commits, (q: QueryProgress) => q.readRows)
    ensures TotalOf(commits).readBytes == SumOf(commits, (q: QueryProgress) => q.readBytes)
    ensures TotalOf(commits).writtenRows == SumOf(commits, (q: QueryProgress) => q.writtenRows)
    ensures TotalOf(commits).writtenBytes == SumOf(commits, (q: QueryProgress) => q.writtenBytes)
  {
    if commits != [] { TotalIsSum(commits[..|commits| - 1]); }
  }

  datatype Outcome = Done | Retryable | Fatal

  /** Whether the SQL names the table-filter setting, and the filter on the source it then sets, if any. */
  datatype SqlFilter = Unmentioned | Mentioned(own: Option<Value>)

  /** The worker's database: one source table, the destination, and the completed table while chunks are inserted.
      Any statement may fail. A failed insert may leave any parts behind; other failed statements change nothing. */
  class Database<S, D(==)> {
    const source: seq<seq<S>>
    const select: S -> seq<D>
    const passes: (Value, S) -> bool
    const sqlFilter: SqlFilter
    const blockSize: Value
    var dest: seq<TablePart<D>>
    var completed: Option<seq<TablePart<D>>>

    constructor (source: seq<seq<S>>, select: S -> seq<D>, passes: (Value, S) -> bool, sqlFilter: SqlFilter, blockSize: Value)
      ensures this.source == source && this.select == select && this.passes == passes
      ensures this.sqlFilter == sqlFilter && this.blockSize == blockSize
      ensures dest == [] && completed == None
    {
      this.source, this.select, this.passes, this.sqlFilter, this.blockSize := source, select, passes, sqlFilter, blockSize;
      dest, completed := [], None;
    }

    /** The filter on the source table while the SQL runs: settings in the SQL override those of the request. */
    function FilterOf(settings: Settings): Option<Value> {
      if sqlFilter.Mentioned? && sqlFilter.own.Some? then sqlFilter.own
      else if TABLE_FILTERS in settings then Some(settings[TABLE_FILTERS])
      else None
    }

    /** What one insert with these settings adds. */
    function Inserted(settings: Settings): multiset<D> {
      Rewrite(select, Selected(FilterOf(settings), passes, source))
    }

    // ---- statements ----

    method InsertSelect(settings: Settings) returns (outcome: Outcome, progress: QueryProgress)
      modifies this`dest
      ensures outcome.Done? ==> RowsOf(dest) == RowsOf(old(dest)) + Inserted(settings)
    {
      var added: seq<TablePart<D>> := *;
      outcome, progress := *, *;
      if RowsOf(added) != Inserted(settings) && outcome.Done? { outcome := Fatal; }
      RowsDistribute(dest, added);
      dest := dest + added;
    }

    method ResetDestinationTable() returns (ok: bool)
      modifies this`dest
      ensures dest == if ok then [] else old(dest)
    {
      ok := *;
      if ok { dest := []; }
    }

    method MovePartition(partition: string) returns (ok: bool)
      requires completed.Some?
      modifies this
      ensures completed.Some? && RowsOf(dest) + RowsOf(completed.value) == old(RowsOf(dest) + RowsOf(completed.value))
      ensures !ok ==> dest == old(dest)
      ensures ok ==> forall p | p in dest :: p in old(dest) && p.partition != partition
    {
      ok := *;
      if ok {
        SelectSplits(dest, partition);
        RowsDistribute(completed.value, Select(dest, partition, true));
        completed := Some(completed.value + Select(dest, partition, true));
        dest := Select(dest, partition, false);
      }
    }

    // ---- the procedure ----

    method PrepareInsertChunks(settings: Settings) returns (ok: bool)
      requires completed.None?
      modifies this`completed
      ensures ok ==> completed == Some([]) && TABLE_FILTERS !in settings && sqlFilter.Unmentioned? && |source| == 1
      ensures !ok ==> completed == None
    {
      if sqlFilter.Mentioned? || TABLE_FILTERS in settings { return false; }
      var measured: bool := *;
      if !measured || |source| != 1 { return false; }
      ok := *;
      if ok { completed := Some([]); }
    }

    method PromoteInsertChunk() returns (ok: bool)
      requires completed.Some?
      modifies this
      ensures completed.Some? && RowsOf(dest) + RowsOf(completed.value) == old(RowsOf(dest) + RowsOf(completed.value))
      ensures ok ==> dest == []
    {
      NameOrder();
      var partitions := Sorted(NameLess, set p | p in dest :: p.partition);
      var i := 0;
      while i < |partitions|
        invariant 0 <= i <= |partitions|
        invariant completed.Some? && RowsOf(dest) + RowsOf(completed.value) == old(RowsOf(dest) + RowsOf(completed.value))
        invariant forall p | p in dest :: p.partition in partitions[i..]
      {
        ok := MovePartition(partitions[i]);
        if !ok { return; }
        assert forall x | x in partitions[i..] :: x == partitions[i] || x in partitions[i + 1..];
        i := i + 1;
      }
      if dest != [] {
        HasSomePart(dest);
        assert false;
      }
      ok := true;
    }

    /** Promotion puts the chunk's rows behind those of the chunks before it. */
    method PromoteAfter(ghost all: seq<S>, ghost start: nat, ghost end: nat) returns (ok: bool)
      requires start <= end <= |all| && completed.Some?
      requires RowsOf(completed.value) == Rewrite(select, all[..start]) && RowsOf(dest) == Rewrite(select, all[start..end])
      modifies this
      ensures completed.Some? && PartOf(RowsOf(completed.value), Rewrite(select, all))
      ensures ok ==> dest == [] && RowsOf(completed.value) == Rewrite(select, all[..end])
    {
      hide Rewrite, RowsOf;
      RewriteNext(select, all, start, end);
      RewriteOfPrefix(select, all, end);
      ok := PromoteInsertChunk();
      SharePartOf(RowsOf(dest), RowsOf(completed.value), Rewrite(select, all));
      AddedToNothing(RowsOf(completed.value));
    }

    /** After a retryable failure: lower the settings, empty the destination, wait. */
    method PrepareRetry(settings: Settings) returns (next: Option<Settings>)
      modifies this`dest
      ensures next.Some? ==> dest == [] && Distance(WithBlockSize(settings, blockSize)) > 0
      ensures next.Some? ==> Distance(WithBlockSize(next.value, blockSize)) == Distance(WithBlockSize(settings, blockSize)) - 1
      ensures next.Some? ==> FilterOf(next.value) == FilterOf(settings)
      ensures next.Some? ==> LoweredFrom(WithBlockSize(settings, blockSize), next.value)
    {
      hide Distance, Readable, LoweredValue;
      var readable, awake: bool := *, *;
      if MAX_BLOCK_SIZE !in settings && !readable { return None; }
      var current := WithBlockSize(settings, blockSize);
      var lowered, reduced := ReduceInsertSelectSettings(current);
      if lowered.Err? || !reduced { return None; }
      var reset := ResetDestinationTable();
      if !reset || !awake { return None; }
      ReductionLowersDistance(current, lowered.value);
      FilterIsKept(settings, blockSize, lowered.value);
      return Some(lowered.value);
    }

    method RunInsertSelectWithRetries(minRows: nat, insertSettings: Settings)
      returns (ok: bool, attempts: nat, retries: nat, progress: QueryProgress, ghost commits: seq<QueryProgress>,
               ghost inserted: seq<seq<S>>)
      requires dest == [] && completed == None
      modifies this
      ensures ok ==> RowsOf(dest) == Inserted(insertSettings) && completed == None
      ensures completed.Some? ==> PartOf(RowsOf(completed.value), Inserted(insertSettings))
      ensures retries <= Distance(WithBlockSize(insertSettings, blockSize))
      ensures ok ==> attempts == InsertChunkCount(|AllRows(source)|, minRows) + retries && |commits| == attempts - retries
      ensures ok ==> MostChunks(|AllRows(source)|, minRows, |commits|)
      ensures ok && |commits| > 1 ==> progress == TotalOf(commits).(totalRowsApprox := TotalOf(commits).readRows)
      ensures ok && |commits| > 1 ==> CutInOrder(AllRows(source), |commits|, minRows, inserted) && |inserted| == |commits|
    {
      hide *;
      ghost var all := AllRows(source);
      var rows := |AllRows(source)|;
      var chunks := InsertChunkCount(rows, minRows);
      attempts, retries, progress, commits, inserted := 0, 0, NO_PROGRESS, [], [];
      if chunks > 1 {
        ok := PrepareInsertChunks(insertSettings);
        if !ok { return; }
        InsertsAll(this, insertSettings);
        progress := progress.(totalRowsApprox := rows);
      }
      var settings := insertSettings;
      var chunk, start := 0, 0;
      CountIsMost(rows, minRows);
      NothingInserted(select, rows, chunks, rows);
      NothingCut(all, chunks, minRows);
      ChunksPartitionRows(rows, minRows, 0);
      assert all[..0] == [] && all[..rows] == all;
      while chunk < chunks
        invariant chunk <= chunks && start == Start(rows, chunks, chunk) <= rows
        invariant Distance(WithBlockSize(settings, blockSize)) + retries == Distance(WithBlockSize(insertSettings, blockSize))
        invariant attempts == chunk + retries && |commits| == chunk
        invariant if chunks > 1
                  then dest == [] && completed.Some? && RowsOf(completed.value) == Rewrite(select, all[..start])
                  else completed.None? && (if chunk == 0 then dest == [] else RowsOf(dest) == Inserted(insertSettings)) &&
                       FilterOf(settings) == FilterOf(insertSettings)
        invariant chunks > 1 ==> Counted(progress, commits) && CutInOrder(all, chunks, minRows, inserted) && |inserted| == chunk
        invariant chunks > 1 && chunk == chunks ==> progress.totalRowsApprox == progress.readRows
        decreases chunks - chunk, Distance(WithBlockSize(settings, blockSize))
      {
        ChunksPartitionRows(rows, minRows, chunk);
        NextStart(rows, chunks, chunk);
        var end := NextEnd(rows, chunks, chunk, start);
        var tracker := InsertProgress(0, 0, 0, NO_PROGRESS);
        if chunks > 1 {
          SameDistance(settings, blockSize, Offsets(start, end));
          settings := settings[TABLE_FILTERS := Offsets(start, end)];
          InsertsRange(this, settings, start, end);
          tracker := InsertProgress(start, end, rows, progress);
          ChunkIsRange(tracker);
        }
        RewriteOfPrefix(select, all, start);
        AddedToNothing(Inserted(settings));
        SameFilterInserts(this, settings, insertSettings);
        attempts := attempts + 1;
        var outcome, current := InsertSelect(settings);
        if outcome.Fatal? { return false, attempts, retries, progress, commits, inserted; }
        if outcome.Retryable? {
          var next := PrepareRetry(settings);
          if next.None? { return false, attempts, retries, progress, commits, inserted; }
          settings, retries := next.value, retries + 1;
          continue;
        }
        if chunks > 1 {
          ok := PromoteAfter(all, start, end);
          if !ok { return; }
          Committed(tracker, current, commits);
          progress := SnapshotOf(tracker, current, true).progress;
          CutNext(all, chunks, minRows, inserted, Selected(FilterOf(settings), passes, source));
          inserted := inserted + [Selected(FilterOf(settings), passes, source)];
        }
        commits := commits + [current];
        start, chunk := end, chunk + 1;
      }
      ok := true;
      if chunks > 1 {
        AllCounted(progress, commits);
        RewriteOfPrefix(select, all, rows);
        var exchanged, dropped: bool := *, *;
        if !exchanged { return false, attempts, retries, progress, commits, inserted; }
        dest, completed := completed.value, Some(dest);
        if !dropped {
          NothingIsPart(Inserted(insertSettings));
          return false, attempts, retries, progress, commits, inserted;
        }
        completed := None;
      }
    }

    /** The insert stage: a source of several parts is inserted in one piece. */
    method InsertStage(minRows: nat, insertSettings: Settings) returns (ok: bool, attempts: nat, retries: nat)
      requires dest == [] && completed == None
      modifies this
      ensures ok ==> RowsOf(dest) == Inserted(insertSettings) && completed == None
      ensures ok ==> attempts == retries + if |source| > 1 then 1 else InsertChunkCount(|AllRows(source)|, minRows)
    {
      hide Inserted, RowsOf, AllRows, Distance;
      var min := if |source| > 1 && minRows > 0 then 0 else minRows;
      var progress;
      ghost var commits, inserted;
      ok, attempts, retries, progress, commits, inserted := RunInsertSelectWithRetries(min, insertSettings);
    }
  }

  /** The chunks inserted so far are consecutive pieces of the rows, each with at least `minRows` rows. */
  ghost predicate CutInOrder<S>(rows: seq<S>, chunks: nat, minRows: nat, inserted: seq<seq<S>>)
    requires chunks >= 1
  {
    forall i | 0 <= i < |inserted| ::
      inserted[i] == Slice(rows, Start(|rows|, chunks, i), Start(|rows|, chunks, i + 1)) && |inserted[i]| >= minRows
  }

  lemma NothingCut<S>(rows: seq<S>, chunks: nat, minRows: nat)
    requires chunks >= 1
    ensures CutInOrder(rows, chunks, minRows, [])
  {}

  lemma CutNext<S>(rows: seq<S>, chunks: nat, minRows: nat, inserted: seq<seq<S>>, next: seq<S>)
    requires chunks >= 1 && CutInOrder(rows, chunks, minRows, inserted)
    requires next == Slice(rows, Start(|rows|, chunks, |inserted|), Start(|rows|, chunks, |inserted| + 1)) && |next| >= minRows
    ensures CutInOrder(rows, chunks, minRows, inserted + [next])
  {
    hide Slice, Start;
  }

  lemma ChunkIsRange(p: InsertProgress)
    requires p.start < p.end <= p.total
    ensures ChunkRange(p)
  {}

  lemma SameFilterInserts<S, D>(db: Database<S, D>, a: Settings, b: Settings)
    ensures db.FilterOf(a) == db.FilterOf(b) ==> db.Inserted(a) == db.Inserted(b)
  {}

  lemma InsertsAll<S, D>(db: Database<S, D>, settings: Settings)
    requires TABLE_FILTERS !in settings && db.sqlFilter.Unmentioned?
    ensures db.Inserted(settings) == Rewrite(db.select, AllRows(db.source))
  {
    UnfilteredIsAll(db.passes, db.source);
  }

  lemma InsertsRange<S, D>(db: Database<S, D>, settings: Settings, start: nat, end: nat)
    requires TABLE_FILTERS in settings && settings[TABLE_FILTERS] == Offsets(start, end) && db.sqlFilter.Unmentioned?
    requires |db.source| == 1 && start <= end <= |AllRows(db.source)|
    ensures Selected(db.FilterOf(settings), db.passes, db.source) == AllRows(db.source)[start..end] == Slice(AllRows(db.source), start, end)
    ensures db.Inserted(settings) == Rewrite(db.select, AllRows(db.source)[start..end])
  {
    OffsetsOfOnePart(db.passes, db.source, start, end);
  }

  lemma FilterIsKept(settings: Settings, blockSize: Value, next: Settings)
    requires forall name :: name in next <==> name in WithBlockSize(settings, blockSize)
    requires forall name | name in WithBlockSize(settings, blockSize) ::
               LoweredValue(WithBlockSize(settings, blockSize), name) == Some(next[name])
    ensures TABLE_FILTERS in next <==> TABLE_FILTERS in settings
    ensures TABLE_FILTERS in settings ==> next[TABLE_FILTERS] == settings[TABLE_FILTERS]
  {
    assert TABLE_FILTERS[0] == 'a' && MAX_BLOCK_SIZE[0] == 'm' && MAX_THREADS[0] == 'm' && MAX_INSERT_THREADS[0] == 'm';
  }

  /** `progress` counts exactly the committed chunks. */
  ghost predicate Counted(progress: QueryProgress, commits: seq<QueryProgress>) {
    progress == TotalOf(commits).(totalRowsApprox := progress.totalRowsApprox)
  }

  lemma AllCounted(progress: QueryProgress, commits: seq<QueryProgress>)
    requires Counted(progress, commits) && progress.totalRowsApprox == progress.readRows
    ensures progress == TotalOf(commits).(totalRowsApprox := TotalOf(commits).readRows)
  {
    hide TotalOf;
  }

  lemma SameDistance(settings: Settings, blockSize: Value, filter: Value)
    ensures Distance(WithBlockSize(settings[TABLE_FILTERS := filter], blockSize)) == Distance(WithBlockSize(settings, blockSize))
  {
    assert TABLE_FILTERS[0] == 'a' && MAX_BLOCK_SIZE[0] == 'm' && MAX_THREADS[0] == 'm' && MAX_INSERT_THREADS[0] == 'm';
  }

  lemma Committed(p: InsertProgress, current: QueryProgress, commits: seq<QueryProgress>)
    requires ChunkRange(p) && p.total > 0 && Counted(p.completed, commits)
    ensures Counted(SnapshotOf(p, current, true).progress, commits + [current])
    ensures var progress := SnapshotOf(p, current, true).progress;
      p.end == p.total ==> progress.totalRowsApprox == progress.readRows
  {
    assert (commits + [current])[..|commits|] == commits;
  }
}
