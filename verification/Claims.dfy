/** The batch a compaction claim returns. */
module Claims {
  import opened Results
  import opened Text
  import opened PartState
  import opened Protocol
  import opened Sums
  import Finalization
  import Lifecycle
  import Ordering

  function Bytes(t: Table): Key -> nat {
    k => if k in t then t[k].stats.bytes else 0
  }

  /** Neither cap is exceeded; a byte cap of 0 is no cap. */
  ghost predicate WithinCaps(t: Table, keys: set<Key>, batching: Batching) {
    |keys| <= batching.maxArtifacts && (batching.maxBytes > 0 ==> Sum(keys, Bytes(t)) <= batching.maxBytes)
  }

  /** The accumulation stops exactly at the first row that no longer fits. */
  lemma {:induction false} TakeFittingIsLongest(t: Table, keys: seq<Key>, used: nat, maxBytes: nat, m: nat)
    requires forall k | k in keys :: k in t
    requires m <= |keys| && used <= maxBytes
    ensures m <= TakeFitting(t, keys, used, maxBytes) <==> maxBytes == 0 || used + RunSum(keys[..m], Bytes(t)) <= maxBytes
    decreases |keys|
  {
    if m > 0 {
      var first := keys[0];
      assert keys[..m] == [first] + keys[1..][..m - 1];
      RunSplit([first], keys[1..][..m - 1], Bytes(t));
      assert [first][..0] == [];
      assert RunSum([first], Bytes(t)) == Bytes(t)(first);
      if maxBytes == 0 || used + Bytes(t)(first) <= maxBytes {
        if maxBytes == 0 {
          TakeAllUncapped(t, keys, used);
        } else {
          TakeFittingIsLongest(t, keys[1..], used + Bytes(t)(first), maxBytes, m - 1);
        }
      }
    }
  }

  lemma {:induction false} TakeAllUncapped(t: Table, keys: seq<Key>, used: nat)
    requires forall k | k in keys :: k in t
    ensures TakeFitting(t, keys, used, 0) == |keys|
    decreases |keys|
  {
    if keys != [] { TakeAllUncapped(t, keys[1..], used + t[keys[0]].stats.bytes); }
  }

  lemma SiblingsAreLightest(t: Table, anchor: Key, hidden: set<Key>, limit: nat) returns (all: seq<Key>)
    requires anchor in t
    ensures Listing(all, Bytes(t)) && Elements(all) == SiblingCandidates(t, anchor, hidden)
    ensures Siblings(t, anchor, hidden, limit) == if |all| < limit then all else all[..limit]
  {
    all := Ordered(t, SiblingCandidates(t, anchor, hidden), ByBytes);
    forall i, j | 0 <= i < j < |all| ensures all[i] != all[j] && Bytes(t)(all[i]) <= Bytes(t)(all[j]) {
      assert all[i] in all && all[j] in all;
      assert RankLess(ByBytes(t[all[i]]), ByBytes(t[all[j]]));
    }
  }

  /** What the sibling loop keeps: within both caps, and as many rows as any choice within both caps. */
  lemma SiblingsAreMaximal(t: Table, anchor: Key, batching: Batching, hidden: set<Key>, s: set<Key>)
    requires anchor in t && batching.Enabled()
    requires s <= SiblingCandidates(t, anchor, hidden) && WithinCaps(t, s, batching)
    ensures var keys := SiblingSelection(t, anchor, batching, hidden);
      && WithinCaps(t, Elements(keys), batching)
      && (|s| >= 2 ==> |s| <= |keys|)
  {
    hide SiblingCandidates, Siblings, Bytes;
    var siblings := Siblings(t, anchor, hidden, batching.maxArtifacts);
    var n := TakeFitting(t, siblings, 0, batching.maxBytes);
    var all := SiblingsAreLightest(t, anchor, hidden, batching.maxArtifacts);
    LightestWeighLeast(all, Bytes(t), s);
    assert all[..|s|] == siblings[..|s|];
    TakeFittingIsLongest(t, siblings, 0, batching.maxBytes, |s|);
    TakeFittingIsLongest(t, siblings, 0, batching.maxBytes, n);
    RunIsSum(siblings[..n], Bytes(t));
    RunIsSum<Key>([], Bytes(t));
  }

  lemma PairWithinCaps(t: Table, a: Key, b: Key, batching: Batching)
    requires a in t && b in t && a != b && batching.Enabled()
    requires batching.maxBytes == 0 || t[b].stats.bytes + t[a].stats.bytes <= batching.maxBytes
    ensures |{a, b}| == 2 && WithinCaps(t, {a, b}, batching)
  {
    SumRemove({a, b}, Bytes(t), b);
    assert {a, b} - {b} == {a};
    SumRemove({a}, Bytes(t), a);
    assert {a} - {a} == {};
  }

  /** With nothing locked by others, an anchor is never left alone. */
  lemma AnchorGetsBatch(t: Table, anchor: Key, window: int, batching: Batching, now: Time)
    requires batching.Enabled() && anchor in AnchorCandidates(t, window, batching, {}, now)
    ensures |SiblingSelection(t, anchor, batching, {})| >= 2
  {
    hide Normalized, Partition, Open, SiblingSelection, WithinCaps;
    var s :| s in t && Mergeable(t, anchor, s, batching.maxBytes);
    PairWithinCaps(t, anchor, s, batching);
    assert {anchor, s} <= SiblingCandidates(t, anchor, {});
    SiblingsAreMaximal(t, anchor, batching, {}, {anchor, s});
  }

  lemma SelectedSiblings(t: Table, anchor: Key, batching: Batching, hidden: set<Key>)
    requires anchor in t && batching.Enabled() && SiblingSelection(t, anchor, batching, hidden) != []
    ensures var keys := SiblingSelection(t, anchor, batching, hidden);
      && |keys| >= 2 && (forall k | k in keys :: k in SiblingCandidates(t, anchor, hidden))
      && SiblingCandidates(t, keys[0], hidden) == SiblingCandidates(t, anchor, hidden)
  {
    hide Normalized, Partition;
    var keys := SiblingSelection(t, anchor, batching, hidden);
    var siblings := Siblings(t, anchor, hidden, batching.maxArtifacts);
    assert keys <= siblings;
    assert keys[0] in siblings;
  }

  /** A batch of normalized siblings: one job, one partition, both caps, at least two rows, and no unlocked choice in that
      partition within the caps is larger. */
  lemma NormalizedBatch(t: Table, window: int, batching: Batching, hidden: set<Key>, now: Time, s: set<Key>)
    requires FragmentedCandidates(t, window, hidden, now) == {}
    requires ClaimSelection(t, window, batching, hidden, now) != []
    ensures var keys := ClaimSelection(t, window, batching, hidden, now);
      && keys[0] in t && |keys| >= 2 && WithinCaps(t, Elements(keys), batching)
      && (forall k | k in keys ::
            k in t && k !in hidden && t[k].status == CompactReady && Normalized(t[k]) &&
            k.job == keys[0].job && Partition(t[k]) == Partition(t[keys[0]]))
      && (s <= SiblingCandidates(t, keys[0], hidden) && WithinCaps(t, s, batching) ==> |s| <= |keys|)
  {
    hide Normalized, Partition, Open, WithinCaps, SiblingSelection;
    var anchors := AnchorCandidates(t, window, batching, hidden, now);
    var anchor := First(t, anchors, ByBytes);
    var keys := SiblingSelection(t, anchor, batching, hidden);
    assert keys == ClaimSelection(t, window, batching, hidden, now);
    SelectedSiblings(t, anchor, batching, hidden);
    assert keys[0] in keys;
    EmptyWithinCaps(t, batching);
    SiblingsAreMaximal(t, anchor, batching, hidden, {});
    if s <= SiblingCandidates(t, keys[0], hidden) && WithinCaps(t, s, batching) {
      SiblingsAreMaximal(t, anchor, batching, hidden, s);
    }
  }

  lemma EmptyWithinCaps(t: Table, batching: Batching)
    requires batching.Enabled()
    ensures WithinCaps(t, {}, batching)
  {}

  // ---- claim orders ----

  /** The rewrite claim takes the largest source, the fragmented claim the most parts, the anchor the fewest bytes;
      the oldest wins a tie. */
  lemma ClaimOrders(t: Table, keys: set<Key>, k: Key)
    requires keys <= t.Keys && k in keys
    ensures RanksKeys(BySource) && RanksKeys(ByFragmentation) && RanksKeys(ByBytes)
    ensures var first := First(t, keys, BySource);
      t[first].sourceBytes >= t[k].sourceBytes && (t[first].sourceBytes == t[k].sourceBytes ==> t[first].createdAt <= t[k].createdAt)
    ensures var first := First(t, keys, ByFragmentation);
      t[first].stats.count >= t[k].stats.count && (t[first].stats.count == t[k].stats.count ==> t[first].createdAt <= t[k].createdAt)
    ensures var first := First(t, keys, ByBytes);
      t[first].stats.bytes <= t[k].stats.bytes && (t[first].stats.bytes == t[k].stats.bytes ==> t[first].createdAt <= t[k].createdAt)
  {
    hide First, KeyLess;
  }

  /** An output is ready since the latest of its inputs. */
  lemma {:induction false} OutputReadySinceLatest(parts: seq<Part>)
    requires parts != []
    ensures forall p | p in parts :: ReadySince(p) <= OutputReadyAt(parts)
    ensures exists p | p in parts :: ReadySince(p) == OutputReadyAt(parts)
  {
    var n := |parts| - 1;
    assert parts[n] in parts;
    if n > 0 {
      OutputReadySinceLatest(parts[..n]);
      assert forall p :: p in parts <==> p in parts[..n] || p == parts[n];
    } else {
      assert forall p | p in parts :: p == parts[0];
    }
  }

  // ---- exactly which rows a claim takes ----

  /** Job before job, part before part, bytewise. */
  predicate KeyBefore(a: Key, b: Key) {
    Ordering.NameLess(a.job, b.job) || (a.job == b.job && Ordering.NameLess(a.part, b.part))
  }

  /** The older row first, then the smaller key. */
  predicate OlderFirst(p: Part, q: Part) {
    p.createdAt < q.createdAt || (p.createdAt == q.createdAt && KeyBefore(p.key, q.key))
  }

  predicate LargerSource(p: Part, q: Part) {
    p.sourceBytes > q.sourceBytes || (p.sourceBytes == q.sourceBytes && OlderFirst(p, q))
  }

  predicate MoreParts(p: Part, q: Part) {
    p.stats.count > q.stats.count || (p.stats.count == q.stats.count && OlderFirst(p, q))
  }

  predicate FewerBytes(p: Part, q: Part) {
    p.stats.bytes < q.stats.bytes || (p.stats.bytes == q.stats.bytes && OlderFirst(p, q))
  }

  /** Among the rows `keys`, `k` comes first. */
  ghost predicate Leads(t: Table, keys: set<Key>, k: Key, before: (Part, Part) -> bool) {
    k in keys && forall x | x in keys && x != k :: x in t && k in t && before(t[k], t[x])
  }

  lemma FirstLeads(t: Table, keys: set<Key>)
    requires keys != {} && keys <= t.Keys
    ensures Leads(t, keys, First(t, keys, BySource), LargerSource)
    ensures Leads(t, keys, First(t, keys, ByFragmentation), MoreParts)
    ensures Leads(t, keys, First(t, keys, ByBytes), FewerBytes)
  {
    hide First;
  }

  /** A rewrite claim takes the ready row nobody has locked that comes first by size, age and key. */
  lemma ReadyClaimExactly(t: Table, w: string, hidden: set<Key>, now: Time)
    ensures var ready := set k | k in t && k !in hidden && t[k].status == Ready;
            var claimed := Targets(t, ClaimReady(w, hidden, now));
      if Blank(w) then claimed.None?
      else claimed.Some? && if ready == {} then claimed.value == {} else exists k :: claimed.value == {k} && Leads(t, ready, k, LargerSource)
  {
    var ready := set k | k in t && k !in hidden && t[k].status == Ready;
    assert ready == ReadyCandidates(t, hidden);
    if ready != {} {
      FirstLeads(t, ready);
      hide First, Leads, Blank, ReadyCandidates;
      assert Leads(t, ready, First(t, ready, BySource), LargerSource);
    }
  }

  /** The job's compaction window is open: there is none, or some original was rewritten within it, or none carries a stamp. */
  ghost predicate InWindow(t: Table, job: string, window: int, now: Time) {
    || window <= 0
    || (exists k :: Finalization.InJob(t, k, job) && Finalization.Stamp(t[k]).Some? && Finalization.Stamp(t[k]).value > now - window)
    || (forall k | Finalization.InJob(t, k, job) :: Finalization.Stamp(t[k]).None?)
  }

  lemma InWindowIsOpen(t: Table, job: string, window: int, now: Time)
    ensures InWindow(t, job, window, now) <==> Open(t, job, window, now)
  {
    forall k | k in t ensures Finalization.Stamp(t[k]) == OriginalReadyAt(t[k]) { Finalization.StampIsReadyAt(t[k]); }
    hide Finalization.Stamp, OriginalReadyAt;
    var last := LastOriginalReady(t, job);
    if last.Some? {
      var k :| k in t && k.job == job && OriginalReadyAt(t[k]) == last;
      assert Finalization.InJob(t, k, job);
    }
    hide LastOriginalReady;
  }

  predicate FreeAndOpen(t: Table, k: Key, hidden: set<Key>) {
    k in t && k !in hidden && t[k].status == CompactReady
  }

  /** The open rows nobody has locked that still have several parts in a partition, in a job whose window is open. */
  ghost function FragmentedRows(t: Table, window: int, hidden: set<Key>, now: Time): set<Key> {
    set k | k in t && FreeAndOpen(t, k, hidden) && Finalization.IsFragmented(t[k]) && InWindow(t, k.job, window, now)
  }

  ghost predicate HasSomePartner(t: Table, k: Key, maxBytes: nat)
    requires k in t
  {
    exists id :: Finalization.LiesIn(t[k], id) && Finalization.HasPartner(t, k, id, maxBytes)
  }

  /** The open single-part rows nobody has locked that have a partner in their partition, in a job whose window is open. */
  ghost function AnchorRows(t: Table, window: int, maxBytes: nat, hidden: set<Key>, now: Time): set<Key> {
    set k | k in t && FreeAndOpen(t, k, hidden) && HasSomePartner(t, k, maxBytes) && InWindow(t, k.job, window, now)
  }

  /** The open rows of a job nobody has locked that lie in the partition. */
  ghost function PartitionRows(t: Table, job: string, id: string, hidden: set<Key>): set<Key> {
    set k | k in t && FreeAndOpen(t, k, hidden) && k.job == job && Finalization.LiesIn(t[k], id)
  }

  lemma FragmentedRowsAre(t: Table, window: int, hidden: set<Key>, now: Time)
    ensures FragmentedRows(t, window, hidden, now) == FragmentedCandidates(t, window, hidden, now)
  {
    forall k | k in t
      ensures (Finalization.IsFragmented(t[k]) <==> Eligible(t[k])) && (InWindow(t, k.job, window, now) <==> Open(t, k.job, window, now))
    {
      Finalization.FragmentedIsEligible(t[k]);
      InWindowIsOpen(t, k.job, window, now);
    }
    hide Finalization.IsFragmented, Eligible, InWindow, Open;
  }

  lemma PartnerIsMergeable(t: Table, k: Key, maxBytes: nat)
    requires k in t
    ensures HasSomePartner(t, k, maxBytes) <==> Normalized(t[k]) && exists s | s in t :: Mergeable(t, k, s, maxBytes)
  {
    forall s, id | s in t ensures Finalization.LiesIn(t[s], id) <==> Normalized(t[s]) && Partition(t[s]) == id {
      Finalization.LiesInPartition(t[s], id);
    }
    hide Finalization.LiesIn, Normalized, Partition;
    if Normalized(t[k]) {
      var id := Partition(t[k]);
      assert Finalization.LiesIn(t[k], id);
      if s :| s in t && Mergeable(t, k, s, maxBytes) {
        assert Finalization.LiesIn(t[s], id);
        assert Finalization.HasPartner(t, k, id, maxBytes);
      }
    }
    if HasSomePartner(t, k, maxBytes) {
      var id :| Finalization.LiesIn(t[k], id) && Finalization.HasPartner(t, k, id, maxBytes);
      var s :| s in t && s.job == k.job && s != k && t[s].status == CompactReady && Finalization.LiesIn(t[s], id)
            && (maxBytes == 0 || t[s].stats.bytes + t[k].stats.bytes <= maxBytes);
      assert Mergeable(t, k, s, maxBytes);
    }
  }

  lemma AnchorRowsAre(t: Table, window: int, batching: Batching, hidden: set<Key>, now: Time)
    ensures AnchorRows(t, window, batching.maxBytes, hidden, now) == AnchorCandidates(t, window, batching, hidden, now)
  {
    forall k | k in t
      ensures (HasSomePartner(t, k, batching.maxBytes) <==>
                 Normalized(t[k]) && exists s | s in t :: Mergeable(t, k, s, batching.maxBytes)) &&
              (InWindow(t, k.job, window, now) <==> Open(t, k.job, window, now))
    {
      PartnerIsMergeable(t, k, batching.maxBytes);
      InWindowIsOpen(t, k.job, window, now);
    }
    hide HasSomePartner, Normalized, InWindow, Open, Mergeable;
  }

  lemma PartitionRowsAre(t: Table, anchor: Key, id: string, hidden: set<Key>)
    requires anchor in t && Finalization.LiesIn(t[anchor], id)
    ensures PartitionRows(t, anchor.job, id, hidden) == SiblingCandidates(t, anchor, hidden)
  {
    forall k | k in t ensures Finalization.LiesIn(t[k], id) <==> Normalized(t[k]) && Partition(t[k]) == id {
      Finalization.LiesInPartition(t[k], id);
    }
    hide Finalization.LiesIn, Normalized, Partition;
  }

  /** `taken` is what the accumulation keeps of the rows `all`: the first ones by size, age and key, as many as both caps let in. */
  ghost predicate TakenUpToCaps(t: Table, all: set<Key>, taken: seq<Key>, maxArtifacts: int, maxBytes: nat) {
    && all <= t.Keys
    && (forall k | k in taken :: k in all)
    && (forall i, j | 0 <= i < j < |taken| :: FewerBytes(t[taken[i]], t[taken[j]]))
    && (forall k, x | k in taken && x in all && x !in taken :: FewerBytes(t[k], t[x]))
    && |taken| <= maxArtifacts
    && (maxBytes > 0 ==> RunSum(taken, Bytes(t)) <= maxBytes)
    && (forall x | NextIs(t, all, taken, x) :: |taken| == maxArtifacts || (maxBytes > 0 && RunSum(taken, Bytes(t)) + t[x].stats.bytes > maxBytes))
  }

  /** The first of the rows not taken. */
  ghost predicate NextIs(t: Table, all: set<Key>, taken: seq<Key>, x: Key) {
    x in t && x in all && x !in taken && forall y | y in all && y !in taken && y != x :: y in t && FewerBytes(t[x], t[y])
  }

  lemma RankedIsFewer(t: Table, a: Key, b: Key)
    requires a in t && b in t
    ensures RankLess(ByBytes(t[a]), ByBytes(t[b])) <==> FewerBytes(t[a], t[b])
  {}

  lemma NotBoth(p: Part, q: Part)
    ensures !(FewerBytes(p, q) && FewerBytes(q, p))
  {
    RankOrder();
    var a, b := ByBytes(p), ByBytes(q);
    assert RankLess(a, b) && RankLess(b, a) ==> RankLess(a, a);
  }

  /** A listing of `all` by size, age and key. */
  ghost predicate Queue(t: Table, all: set<Key>, list: seq<Key>) {
    && all <= t.Keys && (forall k :: k in list <==> k in all)
    && forall i, j | 0 <= i < j < |list| :: FewerBytes(t[list[i]], t[list[j]])
  }

  lemma OrderedIsQueue(t: Table, all: set<Key>)
    requires all <= t.Keys
    ensures Queue(t, all, Ordered(t, all, ByBytes))
  {
    hide RankLess, FewerBytes;
    var list := Ordered(t, all, ByBytes);
    forall i, j | 0 <= i < j < |list| ensures FewerBytes(t[list[i]], t[list[j]]) {
      assert list[i] in list && list[j] in list;
      RankedIsFewer(t, list[i], list[j]);
    }
  }

  lemma FrontOfQueue(t: Table, all: set<Key>, list: seq<Key>, n: nat)
    requires Queue(t, all, list) && n <= |list|
    ensures forall k | k in list[..n] :: k in all
    ensures forall i, j | 0 <= i < j < n :: FewerBytes(t[list[..n][i]], t[list[..n][j]])
    ensures forall k, x | k in list[..n] && x in all && x !in list[..n] :: FewerBytes(t[k], t[x])
    ensures forall x | NextIs(t, all, list[..n], x) :: n < |list| && x == list[n]
  {
    hide FewerBytes;
    forall k | k in list[..n] ensures k in all { assert k in list; }
    forall k, x | k in list[..n] && x in all && x !in list[..n] ensures FewerBytes(t[k], t[x]) {
      assert x in list;
      var i, j :| 0 <= i < n && 0 <= j < |list| && list[i] == k && list[j] == x;
      InFrontOf(list, n);
      assert j >= n;
    }
    forall x | NextIs(t, all, list[..n], x) ensures n < |list| && x == list[n] { NextInQueue(t, all, list, n, x); }
  }

  lemma NextInQueue(t: Table, all: set<Key>, list: seq<Key>, n: nat, x: Key)
    requires Queue(t, all, list) && n <= |list| && NextIs(t, all, list[..n], x)
    ensures n < |list| && x == list[n]
  {
    hide FewerBytes;
    assert x in list;
    var j :| 0 <= j < |list| && list[j] == x;
    InFrontOf(list, n);
    assert j >= n;
    var y := list[n];
    assert y in list;
    NotBoth(t[y], t[y]);
    assert forall i | 0 <= i < n :: FewerBytes(t[list[i]], t[y]);
    assert y !in list[..n];
    assert j > n ==> FewerBytes(t[y], t[x]);
    NotBoth(t[x], t[y]);
  }

  lemma InFrontOf(list: seq<Key>, n: nat)
    requires n <= |list|
    ensures forall i | 0 <= i < n :: list[i] in list[..n]
    ensures forall k | k in list[..n] :: exists i | 0 <= i < n :: list[i] == k
  {
    forall i | 0 <= i < n ensures list[i] in list[..n] { assert list[..n][i] == list[i]; }
  }

  lemma SelectionIsTaken(t: Table, anchor: Key, batching: Batching, hidden: set<Key>) returns (taken: seq<Key>)
    requires anchor in t && batching.Enabled()
    ensures TakenUpToCaps(t, SiblingCandidates(t, anchor, hidden), taken, batching.maxArtifacts, batching.maxBytes)
    ensures SiblingSelection(t, anchor, batching, hidden) == if |taken| < 2 then [] else taken
  {
    assert batching.maxArtifacts >= 2;
    hide *;
    var list := SiblingsFromQueue(t, anchor, batching.maxArtifacts, hidden);
    FrontIsSelected(t, anchor, batching, hidden);
    var front := Siblings(t, anchor, hidden, batching.maxArtifacts);
    var n := TakeFitting(t, front, 0, batching.maxBytes);
    taken := front[..n];
    FrontOfFront(list, front, n, batching.maxArtifacts);
    FittingIsTaken(t, SiblingCandidates(t, anchor, hidden), list, front, n, batching.maxArtifacts, batching.maxBytes);
  }

  lemma FrontOfFront(list: seq<Key>, front: seq<Key>, n: nat, limit: nat)
    requires n <= |front| && front == if |list| < limit then list else list[..limit]
    ensures n <= |list| && front[..n] == list[..n]
  {}

  lemma SiblingsFromQueue(t: Table, anchor: Key, limit: nat, hidden: set<Key>) returns (list: seq<Key>)
    requires anchor in t
    ensures Queue(t, SiblingCandidates(t, anchor, hidden), list)
    ensures Siblings(t, anchor, hidden, limit) == if |list| < limit then list else list[..limit]
  {
    hide SiblingCandidates, Ordered, Queue;
    SiblingsAreRows(t, anchor, hidden);
    list := Ordered(t, SiblingCandidates(t, anchor, hidden), ByBytes);
    OrderedIsQueue(t, SiblingCandidates(t, anchor, hidden));
  }

  lemma SiblingsAreRows(t: Table, anchor: Key, hidden: set<Key>)
    requires anchor in t
    ensures SiblingCandidates(t, anchor, hidden) <= t.Keys
  {}

  lemma FrontIsSelected(t: Table, anchor: Key, batching: Batching, hidden: set<Key>)
    requires anchor in t && batching.Enabled()
    ensures var front := Siblings(t, anchor, hidden, batching.maxArtifacts);
            var taken := front[..TakeFitting(t, front, 0, batching.maxBytes)];
      SiblingSelection(t, anchor, batching, hidden) == if |taken| < 2 then [] else taken
  {
    hide Siblings, SiblingCandidates, TakeFitting;
  }

  /** Accumulating the front of a queue keeps what both caps let in. */
  lemma FittingIsTaken(t: Table, all: set<Key>, list: seq<Key>, front: seq<Key>, n: nat, maxArtifacts: nat, maxBytes: nat)
    requires Queue(t, all, list) && front == if |list| < maxArtifacts then list else list[..maxArtifacts]
    requires (forall k | k in front :: k in t) && n == TakeFitting(t, front, 0, maxBytes)
    ensures n <= |list| && TakenUpToCaps(t, all, list[..n], maxArtifacts, maxBytes)
  {
    hide FewerBytes, Bytes, TakeFitting, NextIs, RunSum;
    var taken := list[..n];
    assert front[..n] == taken;
    FrontOfQueue(t, all, list, n);
    TakeFittingIsLongest(t, front, 0, maxBytes, n);
    forall x | NextIs(t, all, taken, x)
      ensures |taken| == maxArtifacts || (maxBytes > 0 && RunSum(taken, Bytes(t)) + t[x].stats.bytes > maxBytes)
    {
      if n < maxArtifacts {
        assert n < |front| && x == list[n] == front[n] && front[n] in front;
        TakeFittingIsLongest(t, front, 0, maxBytes, n + 1);
        RunLast(front, Bytes(t), n + 1);
        BytesOf(t, x);
      }
    }
    assert all <= t.Keys;
    hide Queue;
  }

  lemma BytesOf(t: Table, x: Key)
    requires x in t
    ensures Bytes(t)(x) == t[x].stats.bytes
  {}

  /** With a fragmented row on offer, a claim takes the one that comes first by part count, age and key. */
  lemma FragmentedClaimExactly(t: Table, window: int, batching: Batching, hidden: set<Key>, now: Time)
    requires FragmentedRows(t, window, hidden, now) != {}
    ensures exists k :: ClaimSelection(t, window, batching, hidden, now) == [k] &&
                        Leads(t, FragmentedRows(t, window, hidden, now), k, MoreParts)
  {
    FragmentedRowsAre(t, window, hidden, now);
    var rows := FragmentedRows(t, window, hidden, now);
    hide FragmentedRows, Leads, SiblingSelection;
    FirstLeads(t, rows);
    hide First, FragmentedCandidates;
    assert ClaimSelection(t, window, batching, hidden, now) == [First(t, rows, ByFragmentation)];
  }

  /** Otherwise, with batching on and an anchor on offer, the first anchor by size, age and key decides the partition, and the
      claim takes that partition's free rows from the smallest up to both caps; nothing if fewer than two fit. */
  lemma SiblingClaimExactly(t: Table, window: int, batching: Batching, hidden: set<Key>, now: Time)
    requires FragmentedRows(t, window, hidden, now) == {} && batching.maxArtifacts >= 2
    requires AnchorRows(t, window, batching.maxBytes, hidden, now) != {}
    ensures exists anchor, id, taken ::
              && Leads(t, AnchorRows(t, window, batching.maxBytes, hidden, now), anchor, FewerBytes)
              && anchor in t && Finalization.LiesIn(t[anchor], id)
              && TakenUpToCaps(t, PartitionRows(t, anchor.job, id, hidden), taken, batching.maxArtifacts, batching.maxBytes)
              && ClaimSelection(t, window, batching, hidden, now) == if |taken| < 2 then [] else taken
  {
    FragmentedRowsAre(t, window, hidden, now);
    AnchorRowsAre(t, window, batching, hidden, now);
    var anchors := AnchorRows(t, window, batching.maxBytes, hidden, now);
    var anchor := SiblingClaimAnchor(t, window, batching, hidden, now);
    hide Leads, SiblingSelection, FewerBytes, FragmentedRows, FragmentedCandidates, AnchorCandidates, TakenUpToCaps, InWindow, FreeAndOpen;
    var id :| Finalization.LiesIn(t[anchor], id);
    PartitionRowsAre(t, anchor, id, hidden);
    var taken := SelectionIsTaken(t, anchor, batching, hidden);
    hide AnchorRows, PartitionRows, SiblingCandidates, ClaimSelection, Finalization.LiesIn;
    assert Leads(t, anchors, anchor, FewerBytes);
  }

  lemma SiblingClaimAnchor(t: Table, window: int, batching: Batching, hidden: set<Key>, now: Time) returns (anchor: Key)
    requires FragmentedCandidates(t, window, hidden, now) == {} && batching.Enabled()
    requires AnchorRows(t, window, batching.maxBytes, hidden, now) == AnchorCandidates(t, window, batching, hidden, now) != {}
    ensures Leads(t, AnchorRows(t, window, batching.maxBytes, hidden, now), anchor, FewerBytes)
    ensures anchor in t && HasSomePartner(t, anchor, batching.maxBytes)
    ensures ClaimSelection(t, window, batching, hidden, now) == SiblingSelection(t, anchor, batching, hidden)
  {
    hide SiblingSelection, FewerBytes, InWindow, HasSomePartner, FragmentedCandidates;
    var anchors := AnchorRows(t, window, batching.maxBytes, hidden, now);
    anchor := First(t, anchors, ByBytes);
    FirstLeads(t, anchors);
    hide First;
  }

  /** A claim finds nothing exactly where neither kind of row is on offer. */
  lemma NothingToClaim(t: Table, window: int, batching: Batching, hidden: set<Key>, now: Time)
    requires FragmentedRows(t, window, hidden, now) == {}
    requires batching.maxArtifacts < 2 || AnchorRows(t, window, batching.maxBytes, hidden, now) == {}
    ensures ClaimSelection(t, window, batching, hidden, now) == []
  {
    FragmentedRowsAre(t, window, hidden, now);
    AnchorRowsAre(t, window, batching, hidden, now);
    hide FragmentedRows, AnchorRows, SiblingSelection, FragmentedCandidates, AnchorCandidates;
  }

  /** A claim is refused exactly for an unnamed worker, a cap above 99, or selected rows that do not share one destination;
      otherwise it takes exactly the selected rows. */
  lemma ClaimTakesSelection(t: Table, w: string, window: int, batching: Batching, hidden: set<Key>, now: Time)
    ensures var keys := ClaimSelection(t, window, batching, hidden, now);
            var claimed := Targets(t, ClaimCompact(w, window, batching, hidden, now));
            var rows := seq(|keys|, i requires 0 <= i < |keys| => if keys[i] in t then t[keys[i]] else NewPart(keys[i], "", "", "", now));
      if Blank(w) || batching.maxArtifacts > 99 || (keys != [] && !Lifecycle.OneDestination(rows)) then claimed.None?
      else claimed == Some(Elements(keys))
  {
    var keys := ClaimSelection(t, window, batching, hidden, now);
    var rows := seq(|keys|, i requires 0 <= i < |keys| => if keys[i] in t then t[keys[i]] else NewPart(keys[i], "", "", "", now));
    hide ClaimSelection, Blank;
    assert Elements(keys) == set k | k in keys;
    assert keys == [] ==> Elements(keys) == {};
    var parts := ClaimedParts(t, keys, w, now);
    SameDestinations(parts, rows);
    Lifecycle.ValidMeansOneDestination(rows);
    hide ValidBatchParts, ClaimedParts, Lifecycle.OneDestination;
  }

  lemma SameDestinations(parts: seq<Part>, rows: seq<Part>)
    requires |parts| == |rows|
    requires forall i | 0 <= i < |rows| ::
               parts[i].key == rows[i].key && parts[i].bucket == rows[i].bucket && parts[i].destination == rows[i].destination
    ensures ValidBatchParts(parts) <==> ValidBatchParts(rows)
  {
    hide Blank;
  }
}
