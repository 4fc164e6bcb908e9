/** How the source rows of one part are cut into chunks, and how progress over them is reported. */
module InsertChunks {
  import opened Results

  const MAX_CHUNKS := 20

  function Min(a: nat, b: nat): nat {
    if a <= b then a else b
  }

  function InsertChunkCount(rows: nat, minRows: nat): (chunks: nat)
    ensures 1 <= chunks <= MAX_CHUNKS
  {
    if minRows == 0 then 1
    else if rows / minRows < 1 then 1
    else Min(MAX_CHUNKS, rows / minRows)
  }

  /** The most chunks, up to twenty, that can each hold `minRows` rows; one if no minimum is set. */
  predicate MostChunks(rows: nat, minRows: nat, chunks: nat) {
    && 1 <= chunks <= 20
    && (minRows == 0 ==> chunks == 1)
    && (chunks > 1 ==> chunks * minRows <= rows)
    && (minRows > 0 && chunks < 20 ==> (chunks + 1) * minRows > rows)
  }

  lemma CountIsMost(rows: nat, minRows: nat)
    ensures MostChunks(rows, minRows, InsertChunkCount(rows, minRows))
  {
    if minRows > 0 {
      var q, chunks := rows / minRows, InsertChunkCount(rows, minRows);
      assert q * minRows <= rows < (q + 1) * minRows;
      if chunks <= q { MulMonotone(chunks, q, minRows); }
      if chunks < 20 { MulMonotone(q + 1, chunks + 1, minRows); }
    }
  }

  lemma OnlyOneIsMost(rows: nat, minRows: nat, a: nat, b: nat)
    requires MostChunks(rows, minRows, a) && MostChunks(rows, minRows, b)
    ensures a == b
  {
    if minRows > 0 && a != b {
      var small, large := Min(a, b), if a < b then b else a;
      MulMonotone(small + 1, large, minRows);
    }
  }

  /** Row offset at which chunk `chunk` starts when every chunk's end is the next one's start. */
  function Start(rows: nat, chunks: nat, chunk: nat): nat
    requires chunks >= 1
  {
    if chunk == 0 then 0 else NextEnd(rows, chunks, chunk - 1, Start(rows, chunks, chunk - 1))
  }

  /** The end the loop computes for a chunk from its start. */
  function NextEnd(rows: nat, chunks: nat, chunk: nat, start: nat): nat
    requires chunks >= 1
  {
    start + rows / chunks + if chunk < rows % chunks then 1 else 0
  }

  lemma NextStart(rows: nat, chunks: nat, chunk: nat)
    requires chunks >= 1
    ensures Start(rows, chunks, chunk + 1) == NextEnd(rows, chunks, chunk, Start(rows, chunks, chunk))
  {}

  lemma {:induction false} StartIs(rows: nat, chunks: nat, chunk: nat)
    requires chunks >= 1 && chunk <= chunks
    ensures Start(rows, chunks, chunk) == chunk * (rows / chunks) + Min(chunk, rows % chunks)
  {
    if chunk > 0 {
      StartIs(rows, chunks, chunk - 1);
      assert (chunk - 1) * (rows / chunks) + rows / chunks == chunk * (rows / chunks);
    }
  }

  lemma MulMonotone(a: nat, b: nat, c: nat)
    requires a <= b
    ensures a * c <= b * c
  {}

  lemma MulCancels(a: nat, b: nat, c: nat)
    requires a * c < b * c
    ensures a < b
  {}

  lemma QuotientHolds(rows: nat, minRows: nat, chunks: nat)
    requires minRows >= 1 && 1 <= chunks <= rows / minRows
    ensures rows / chunks >= minRows
  {
    MulMonotone(chunks, rows / minRows, minRows);
    assert (rows / minRows) * minRows <= rows;
    assert rows < (rows / chunks + 1) * chunks;
    MulCancels(minRows, rows / chunks + 1, chunks);
  }

  lemma OffsetFits(rows: nat, q: nat, r: nat, chunks: nat, chunk: nat)
    requires rows == chunks * q + r && r < chunks && chunk <= chunks
    ensures chunk * q + Min(chunk, r) <= rows
    ensures chunks * q + Min(chunks, r) == rows
  {
    MulMonotone(chunk, chunks, q);
  }

  lemma StartEnds(rows: nat, chunks: nat, chunk: nat)
    requires chunks >= 1 && chunk < chunks
    ensures Start(rows, chunks, chunks) == rows
    ensures Start(rows, chunks, chunk) <= Start(rows, chunks, chunk + 1) <= rows
  {
    assert Start(rows, chunks, chunk) <= Start(rows, chunks, chunk + 1);
    StartIs(rows, chunks, chunks);
    StartIs(rows, chunks, chunk + 1);
    hide Start, Min;
    var q, r := rows / chunks, rows % chunks;
    assert rows == chunks * q + r;
    OffsetFits(rows, q, r, chunks, chunk + 1);
  }

  /** The chunks cover [0, rows) without gap or overlap, differ in size by at most one,
      and each holds at least minRows once the input is split at all. */
  lemma ChunksPartitionRows(rows: nat, minRows: nat, chunk: nat)
    requires chunk < InsertChunkCount(rows, minRows)
    ensures var chunks := InsertChunkCount(rows, minRows);
            var size := Start(rows, chunks, chunk + 1) - Start(rows, chunks, chunk);
      && Start(rows, chunks, 0) == 0 && Start(rows, chunks, chunks) == rows
      && rows / chunks <= size <= rows / chunks + 1
      && Start(rows, chunks, chunk) <= Start(rows, chunks, chunk + 1) <= rows
      && (chunks > 1 ==> size >= minRows >= 1)
  {
    var chunks := InsertChunkCount(rows, minRows);
    StartEnds(rows, chunks, chunk);
    if chunks > 1 { QuotientHolds(rows, minRows, chunks); }
  }

  // ---- progress ----

  datatype QueryProgress = QueryProgress(readRows: nat, readBytes: nat, writtenRows: nat, writtenBytes: nat, totalRowsApprox: nat)

  const NO_PROGRESS := QueryProgress(0, 0, 0, 0, 0)

  datatype InsertProgress = InsertProgress(start: nat, end: nat, total: nat, completed: QueryProgress)

  datatype Snapshot = Snapshot(progress: QueryProgress, percent: Option<real>)

  function CeilMul(a: nat, b: nat, c: nat): (n: nat)
    requires c > 0
    ensures n as real >= a as real * b as real / c as real
    ensures n > 0 ==> (n - 1) as real < a as real * b as real / c as real
  {
    var x := a as real * b as real / c as real;
    assert x >= 0.0 by { QuotientNonNegative(a as real * b as real, c as real); }
    var n := 0 - (0.0 - x).Floor;
    n
  }

  lemma QuotientNonNegative(x: real, c: real)
    requires x >= 0.0 && c > 0.0
    ensures x / c >= 0.0
  {
    assert x == (x / c) * c;
  }

  predicate ChunkRange(p: InsertProgress) {
    p.total > 0 ==> p.start < p.end <= p.total
  }

  function Fraction(current: QueryProgress, committed: bool): real {
    if committed then 1.0
    else if current.totalRowsApprox == 0 then 0.0
    else
      var f := current.readRows as real / current.totalRowsApprox as real;
      if f < 1.0 then f else 1.0
  }

  function Plus(a: QueryProgress, b: QueryProgress): QueryProgress {
    QueryProgress(a.readRows + b.readRows, a.readBytes + b.readBytes, a.writtenRows + b.writtenRows,
                  a.writtenBytes + b.writtenBytes, a.totalRowsApprox)
  }

  function Between(start: real, end: real, fraction: real): real {
    start + (end - start) * fraction
  }

  function Percent(row: real, total: real): real
    requires total > 0.0
  {
    100.0 * row / total
  }

  /** insertProgress.snapshot over the reals. */
  function SnapshotOf(p: InsertProgress, current: QueryProgress, committed: bool): Snapshot
    requires ChunkRange(p)
  {
    if p.total == 0 then Snapshot(current, None)
    else
      var sum := Plus(p.completed, current);
      var approx :=
        if committed && p.end == p.total then sum.readRows
        else if current.totalRowsApprox > 0
        then p.completed.readRows + CeilMul(current.totalRowsApprox, p.total - p.start, p.end - p.start)
        else sum.totalRowsApprox;
      var row := Between(p.start as real, p.end as real, Fraction(current, committed));
      Snapshot(sum.(totalRowsApprox := approx), Some(Percent(row, p.total as real)))
  }

  lemma FractionBounds(current: QueryProgress, committed: bool)
    ensures 0.0 <= Fraction(current, committed) <= 1.0
  {
    if !committed && current.totalRowsApprox > 0 {
      QuotientNonNegative(current.readRows as real, current.totalRowsApprox as real);
    }
  }

  function PercentAt(row: nat, total: nat): real
    requires total > 0
  {
    Percent(row as real, total as real)
  }

  lemma PercentMonotone(x: real, y: real, n: real)
    requires 0.0 <= x <= y <= n && n > 0.0
    ensures 0.0 <= Percent(x, n) <= Percent(y, n) <= 100.0
  {
    var p, q := 100.0 * x / n, 100.0 * y / n;
    assert p * n == 100.0 * x && q * n == 100.0 * y;
  }

  lemma Scales(d: real, f: real)
    requires d >= 0.0 && 0.0 <= f <= 1.0
    ensures 0.0 <= d * f <= d
  {
    assert d * f + d * (1.0 - f) == d;
  }

  lemma BetweenBounds(start: real, end: real, f: real)
    requires start <= end && 0.0 <= f <= 1.0
    ensures start <= Between(start, end, f) <= end
  {
    var d := end - start;
    Scales(d, f);
    assert Between(start, end, f) == start + d * f;
  }

  lemma Interpolates(s: real, e: real, n: real, f: real)
    requires 0.0 <= s <= e <= n && n > 0.0 && 0.0 <= f <= 1.0
    ensures 0.0 <= Percent(s, n) <= Percent(Between(s, e, f), n) <= Percent(e, n) <= 100.0
  {
    hide Percent, Between;
    BetweenBounds(s, e, f);
    PercentMonotone(s, Between(s, e, f), n);
    PercentMonotone(Between(s, e, f), e, n);
  }

  /** Whatever a query reports, progress stays between the chunk's ends, hence within [0, 100]. */
  lemma PercentStaysInChunk(p: InsertProgress, current: QueryProgress, committed: bool)
    requires ChunkRange(p) && p.total > 0
    ensures var percent := SnapshotOf(p, current, committed).percent.value;
      0.0 <= PercentAt(p.start, p.total) <= percent <= PercentAt(p.end, p.total) <= 100.0
  {
    FractionBounds(current, committed);
    hide Fraction, Percent, Between;
    Interpolates(p.start as real, p.end as real, p.total as real, Fraction(current, committed));
  }

  /** A commit leaves exactly the baseline of the next chunk, and a discarded attempt falls back to its chunk's own. */
  lemma CommitIsNextBaseline(p: InsertProgress, current: QueryProgress, end: nat)
    requires ChunkRange(p) && p.total > 0 && p.end < end <= p.total
    ensures var commit := SnapshotOf(p, current, true);
            var next := InsertProgress(p.end, end, p.total, commit.progress);
      SnapshotOf(next, NO_PROGRESS, false) == commit
    ensures SnapshotOf(p, NO_PROGRESS, false) == Snapshot(p.completed, Some(PercentAt(p.start, p.total)))
  {
    hide Percent;
    BetweenEnds(p.start as real, p.end as real);
    BetweenEnds(p.end as real, end as real);
  }

  lemma BetweenEnds(start: real, end: real)
    ensures Between(start, end, 0.0) == start && Between(start, end, 1.0) == end
  {}

  /** The last commit reports all rows read and one hundred percent. */
  lemma LastCommitIsComplete(p: InsertProgress, current: QueryProgress)
    requires ChunkRange(p) && p.total > 0 && p.end == p.total
    ensures var last := SnapshotOf(p, current, true);
      last.percent == Some(100.0) && last.progress.totalRowsApprox == last.progress.readRows
  {
    BetweenEnds(p.start as real, p.end as real);
    WholePercent(p.total as real);
    hide Percent, Between;
  }

  lemma WholePercent(n: real)
    requires n > 0.0
    ensures Percent(n, n) == 100.0
  {
    var q := 100.0 * n / n;
    assert q * n == 100.0 * n;
  }

  /** The counters are sums; the estimate of all rows extrapolates the running query's estimate over the rest of the source,
      rounded up, until the last commit replaces it by what was read. */
  lemma SnapshotCounts(p: InsertProgress, current: QueryProgress, committed: bool)
    requires ChunkRange(p) && p.total > 0
    ensures var q := SnapshotOf(p, current, committed).progress;
      && q.readRows == p.completed.readRows + current.readRows && q.readBytes == p.completed.readBytes + current.readBytes
      && q.writtenRows == p.completed.writtenRows + current.writtenRows
      && q.writtenBytes == p.completed.writtenBytes + current.writtenBytes
      && if committed && p.end == p.total then q.totalRowsApprox == q.readRows
         else if current.totalRowsApprox == 0 then q.totalRowsApprox == p.completed.totalRowsApprox
         else
           var rest, size := current.totalRowsApprox * (p.total - p.start), p.end - p.start;
           && q.totalRowsApprox >= p.completed.readRows
           && (q.totalRowsApprox - p.completed.readRows) * size >= rest
           && (q.totalRowsApprox > p.completed.readRows ==> (q.totalRowsApprox - p.completed.readRows - 1) * size < rest)
  {
    var a, b, c := current.totalRowsApprox, p.total - p.start, p.end - p.start;
    CeilIsExact(a, b, c);
    hide CeilMul, Between, Percent, Fraction;
  }

  lemma CeilIsExact(a: nat, b: nat, c: nat)
    requires c > 0
    ensures CeilMul(a, b, c) * c >= a * b
    ensures CeilMul(a, b, c) > 0 ==> (CeilMul(a, b, c) - 1) * c < a * b
  {
    var n, y := CeilMul(a, b, c), a as real * b as real;
    hide CeilMul;
    ProductOfReals(a, b);
    ProductOfReals(n, c);
    QuotientAtMost(y, c as real, n as real);
    if n > 0 {
      ProductOfReals(n - 1, c);
      QuotientAbove(y, c as real, (n - 1) as real);
    }
  }

  lemma QuotientAtMost(y: real, c: real, n: real)
    requires c > 0.0 && n >= y / c
    ensures n * c >= y
  {
    var x := y / c;
    assert x * c == y;
    RealTimes(n, x, c);
  }

  lemma QuotientAbove(y: real, c: real, n: real)
    requires c > 0.0 && n < y / c
    ensures n * c < y
  {
    var x := y / c;
    assert x * c == y;
    RealTimesLess(n, x, c);
  }

  lemma {:induction false} ProductOfReals(a: nat, b: nat)
    ensures (a * b) as real == a as real * b as real
  {
    if b > 0 {
      ProductOfReals(a, b - 1);
      assert a * b == a * (b - 1) + a;
      OneMoreTimes(a as real, (b - 1) as real);
    }
  }

  lemma OneMoreTimes(x: real, y: real)
    ensures x * (y + 1.0) == x * y + x
  {}

  lemma RealTimes(x: real, y: real, c: real)
    requires x >= y && c > 0.0
    ensures x * c >= y * c
  {}

  lemma RealTimesLess(x: real, y: real, c: real)
    requires x < y && c > 0.0
    ensures x * c < y * c
  {}

  /** Before the commit the percentage moves in proportion to the running query's own estimate: from the chunk's start when
      nothing is read or estimated to its end when the estimate is reached; a commit is the end. */
  lemma PercentIsProportional(p: InsertProgress, current: QueryProgress, committed: bool)
    requires ChunkRange(p) && p.total > 0
    ensures var percent := SnapshotOf(p, current, committed).percent.value;
            var n, approx := p.total as real, current.totalRowsApprox as real;
      if committed || (current.totalRowsApprox > 0 && current.readRows >= current.totalRowsApprox) then percent * n == 100.0 * p.end as real
      else if current.totalRowsApprox == 0 then percent * n == 100.0 * p.start as real
      else percent * n * approx == 100.0 * (p.start as real * approx + (p.end - p.start) as real * current.readRows as real)
  {
    var s, d, f := p.start as real, (p.end - p.start) as real, Fraction(current, committed);
    var row := Between(p.start as real, p.end as real, f);
    assert p.end as real - p.start as real == d;
    assert row == s + d * f;
    PercentTimes(row, p.total as real);
    var percent := SnapshotOf(p, current, committed).percent.value;
    assert percent == Percent(row, p.total as real);
    if !committed && current.totalRowsApprox > 0 {
      var approx, read := current.totalRowsApprox as real, current.readRows as real;
      FractionTimes(read, approx);
      if current.readRows < current.totalRowsApprox {
        assert f == read / approx;
        Spread(s, d, f, approx, read);
        assert percent * p.total as real * approx == 100.0 * row * approx;
      }
    }
  }

  lemma PercentTimes(row: real, n: real)
    requires n > 0.0
    ensures Percent(row, n) * n == 100.0 * row
  {
    var q := 100.0 * row / n;
    assert q * n == 100.0 * row;
  }

  lemma FractionTimes(read: real, approx: real)
    requires approx > 0.0
    ensures read / approx * approx == read
    ensures read < approx <==> read / approx < 1.0
  {
    var f := read / approx;
    assert f * approx == read;
    if f < 1.0 { RealTimesLess(f, 1.0, approx); } else { RealTimes(f, 1.0, approx); }
  }

  lemma Spread(s: real, d: real, f: real, approx: real, read: real)
    requires f * approx == read
    ensures 100.0 * (s + d * f) * approx == 100.0 * (s * approx + d * read)
  {
    assert (s + d * f) * approx == s * approx + d * (f * approx);
  }
}
