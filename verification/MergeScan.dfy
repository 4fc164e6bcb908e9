/** The one-pass test for parts that could still merge: parts come sorted by partition, then by size. */
module MergeScan {
  import opened Ordering

  const UINT64_MAX := 0xFFFF_FFFF_FFFF_FFFF

  type Size = x: int | 0 <= x <= UINT64_MAX witness 0

  datatype PartRow = PartRow(partition: string, bytes: Size)

  predicate RowLess(a: PartRow, b: PartRow) {
    NameLess(a.partition, b.partition) || (a.partition == b.partition && a.bytes <= b.bytes)
  }

  ghost predicate SortedRows(rows: seq<PartRow>) {
    forall i, j | 0 <= i < j < |rows| :: RowLess(rows[i], rows[j])
  }

  function Count(rows: seq<PartRow>, partition: string): nat {
    if rows == [] then 0
    else Count(rows[..|rows| - 1], partition) + if rows[|rows| - 1].partition == partition then 1 else 0
  }

  ghost predicate FittingPair(rows: seq<PartRow>, i: int, j: int, target: Size) {
    0 <= i < j < |rows| && rows[i].partition == rows[j].partition && rows[i].bytes + rows[j].bytes <= target
  }

  /** The partition has more than `minParts` parts, and two of them together fit the target. */
  ghost predicate Mergeable(rows: seq<PartRow>, partition: string, minParts: Size, target: Size) {
    Count(rows, partition) > minParts && exists i, j :: FittingPair(rows, i, j, target) && rows[i].partition == partition
  }

  /** Rows [from, to) are exactly the rows of one partition. */
  ghost predicate Group(rows: seq<PartRow>, from: nat, to: nat, partition: string) {
    from <= to <= |rows| && forall k | 0 <= k < |rows| :: rows[k].partition == partition <==> from <= k < to
  }

  lemma {:induction false} CountOfPrefix(rows: seq<PartRow>, n: nat, from: nat, to: nat, partition: string)
    requires n <= |rows| && Group(rows, from, to, partition)
    ensures Count(rows[..n], partition) == if n <= from then 0 else if n <= to then n - from else to - from
  {
    if n > 0 {
      assert rows[..n][..n - 1] == rows[..n - 1];
      CountOfPrefix(rows, n - 1, from, to, partition);
    }
  }

  lemma GroupCount(rows: seq<PartRow>, from: nat, to: nat, partition: string)
    requires Group(rows, from, to, partition)
    ensures Count(rows, partition) == to - from
  {
    CountOfPrefix(rows, |rows|, from, to, partition);
    assert rows[..|rows|] == rows;
  }

  /** Sortedness makes a run of equal partitions with different neighbours the whole partition. */
  lemma RunIsGroup(rows: seq<PartRow>, from: nat, to: nat)
    requires SortedRows(rows) && from < to <= |rows|
    requires forall k | from <= k < to :: rows[k].partition == rows[from].partition
    requires from > 0 ==> rows[from - 1].partition != rows[from].partition
    requires to < |rows| ==> rows[to].partition != rows[from].partition
    ensures Group(rows, from, to, rows[from].partition)
  {
    var p := rows[from].partition;
    forall k | 0 <= k < |rows| && !(from <= k < to) ensures rows[k].partition != p {
      if rows[k].partition == p {
        if k < from { Between(rows, k, from - 1, from); } else { Between(rows, from, to, k); }
        assert false;
      }
    }
  }

  lemma Between(rows: seq<PartRow>, i: nat, j: nat, k: nat)
    requires SortedRows(rows) && i <= j <= k < |rows| && rows[i].partition == rows[k].partition
    ensures rows[j].partition == rows[i].partition
  {
    var a, b := rows[i].partition, rows[j].partition;
    if a != b {
      assert RowLess(rows[i], rows[j]) && RowLess(rows[j], rows[k]);
      NameTransitive(a, b, a);
      NameIrreflexive(a);
      assert false;
    }
  }

  /** In a sorted group the two smallest parts decide. */
  lemma SmallestDecide(rows: seq<PartRow>, from: nat, to: nat, minParts: Size, target: Size)
    requires SortedRows(rows) && from < to <= |rows| && Group(rows, from, to, rows[from].partition)
    ensures Mergeable(rows, rows[from].partition, minParts, target) <==>
              to - from > minParts && to - from >= 2 && rows[from].bytes + rows[from + 1].bytes <= target
  {
    var p := rows[from].partition;
    GroupCount(rows, from, to, p);
    hide Count;
    NameIrreflexive(p);
    if i, j :| FittingPair(rows, i, j, target) && rows[i].partition == p {
      assert from <= i < j < to;
      assert i == from || RowLess(rows[from], rows[i]);
      assert j == from + 1 || RowLess(rows[from + 1], rows[j]);
    }
    if to - from >= 2 && rows[from].bytes + rows[from + 1].bytes <= target {
      assert FittingPair(rows, from, from + 1, target);
    }
  }

  /** Subtraction never leaves uint64: it is only reached when the larger part fits. */
  method FinishPartition(partitionParts: Size, smallest0: Size, smallest1: Size, minParts: Size, target: Size) returns (ok: bool)
    ensures ok <==> partitionParts > minParts && partitionParts >= 2 && smallest0 + smallest1 <= target
  {
    if partitionParts <= minParts || partitionParts < 2 { return false; }
    if smallest1 > target { return false; }
    var room: Size := target - smallest1;
    return smallest0 <= room;
  }

  lemma GroupDecided(rows: seq<PartRow>, from: nat, to: nat, minParts: Size, target: Size, ok: bool)
    requires SortedRows(rows) && from < to <= |rows|
    requires forall k | from <= k < to :: rows[k].partition == rows[from].partition
    requires from > 0 ==> rows[from - 1].partition != rows[from].partition
    requires to < |rows| ==> rows[to].partition != rows[from].partition
    requires ok <==> to - from > minParts && to - from >= 2 && rows[from].bytes + rows[from + 1].bytes <= target
    ensures ok <==> Mergeable(rows, rows[from].partition, minParts, target)
  {
    RunIsGroup(rows, from, to);
    SmallestDecide(rows, from, to, minParts, target);
  }

  /** True exactly when some named partition has more than minParts parts, two of which fit the target together. */
  method HasMergeablePartsBelowTarget(rows: seq<PartRow>, minParts: Size, target: Size) returns (found: bool)
    requires SortedRows(rows) && |rows| <= UINT64_MAX
    ensures found <==> target > 0 && exists p | p != "" :: Mergeable(rows, p, minParts, target)
  {
    hide Mergeable, SortedRows, RowLess;
    if target == 0 {
      return false;
    }
    var current := "";
    var partitionParts: Size, smallest0: Size, smallest1: Size := 0, 0, 0;
    var i := 0;
    ghost var from := 0;
    while i < |rows|
      invariant 0 <= from <= i <= |rows| && (from == i <==> i == 0)
      invariant i > 0 ==> current == rows[from].partition
      invariant i == 0 ==> current == ""
      invariant forall k | from <= k < i :: rows[k].partition == current
      invariant from > 0 ==> rows[from - 1].partition != rows[from].partition
      invariant partitionParts == i - from
      invariant partitionParts >= 1 ==> smallest0 == rows[from].bytes
      invariant partitionParts >= 2 ==> smallest1 == rows[from + 1].bytes
      invariant forall k | 0 <= k < from && rows[k].partition != "" :: !Mergeable(rows, rows[k].partition, minParts, target)
    {
      var row := rows[i];
      if row.partition != current {
        if i > 0 {
          var ok := FinishPartition(partitionParts, smallest0, smallest1, minParts, target);
          GroupDecided(rows, from, i, minParts, target, ok);
          if current != "" && ok { return true; }
        }
        current, partitionParts, smallest0, smallest1 := row.partition, 0, 0, 0;
        from := i;
      }
      partitionParts := partitionParts + 1;
      if partitionParts <= 2 {
        if partitionParts == 1 { smallest0 := row.bytes; } else { smallest1 := row.bytes; }
      }
      i := i + 1;
    }
    if i > 0 {
      found := FinishPartition(partitionParts, smallest0, smallest1, minParts, target);
      GroupDecided(rows, from, i, minParts, target, found);
      found := current != "" && found;
    } else {
      found := false;
    }
    OnlyPresentPartitionsMerge(rows, minParts, target);
  }

  lemma OnlyPresentPartitionsMerge(rows: seq<PartRow>, minParts: Size, target: Size)
    ensures forall p | Mergeable(rows, p, minParts, target) :: exists k | 0 <= k < |rows| :: rows[k].partition == p
  {
    hide Count;
    forall p | Mergeable(rows, p, minParts, target) ensures exists k | 0 <= k < |rows| :: rows[k].partition == p {
      var i, j :| FittingPair(rows, i, j, target) && rows[i].partition == p;
    }
  }
}
